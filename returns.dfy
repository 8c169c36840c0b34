/** Discounted returns and lambda-returns of one training segment, as
    computed by Worker.train: a bootstrap value for the state after the
    segment, then a backward recursion over the rewards.  Rewards and
    value estimates are exact reals standing in for float tensors. */
module Returns {

  /** The value R starts from: the critic's estimate of the state after the
      segment, multiplied by (1 - int(done)), so 0 at a terminal state. */
  function Bootstrap(lastValue: real, done: bool): (r: real)
    ensures done ==> r == 0.0
    ensures !done ==> r == lastValue
  {
    lastValue * (1.0 - if done then 1.0 else 0.0)
  }

  /** The value estimates after `if done: values[-1] = 0`: only the
      estimate of the bootstrap state is touched, and only when done. */
  function TerminalValues(values: seq<real>, done: bool): (v: seq<real>)
    requires |values| > 0
    ensures |v| == |values|
    ensures forall j :: 0 <= j < |v| - 1 ==> v[j] == values[j]
    ensures v[|v| - 1] == if done then 0.0 else values[|values| - 1]
  {
    if done then values[|values| - 1 := 0.0] else values
  }

  /** The successor of position i in a return sequence rs: rs[i + 1], or the
      bootstrap value after the last position. */
  function Next(rs: seq<real>, i: nat, boot: real): (r: real)
  {
    if i + 1 < |rs| then rs[i + 1] else boot
  }

  /** The first element of t, or the bootstrap value when t is empty. */
  function First(t: seq<real>, boot: real): (r: real)
  {
    if t == [] then boot else t[0]
  }

  /** One step of the plain return: R = r + gamma * R'. */
  function Discount(reward: real, gamma: real, next: real): (r: real)
  {
    reward + gamma * next
  }

  /** One step of the lambda-return: the next lambda-return and the critic's
      estimate of the next state, mixed by lamda and discounted. */
  function LambdaDiscount(reward: real, gamma: real, lamda: real, next: real, nextValue: real): (r: real)
  {
    reward + gamma * (lamda * next + (1.0 - lamda) * nextValue)
  }

  /** Plain n-step returns R_i over the rewards, bootstrapped by `boot`. */
  function Returns(rewards: seq<real>, gamma: real, boot: real): (rs: seq<real>)
    ensures |rs| == |rewards|
  {
    if rewards == [] then []
    else
      var tail := Returns(rewards[1..], gamma, boot);
      [Discount(rewards[0], gamma, First(tail, boot))] + tail
  }

  /** Lambda-returns: each step mixes the next lambda-return (weight lamda)
      with the critic's estimate values[i + 1] of the next state. */
  function LambdaReturns(rewards: seq<real>, values: seq<real>, gamma: real, lamda: real, boot: real): (rs: seq<real>)
    requires |values| == |rewards| + 1
    ensures |rs| == |rewards|
  {
    if rewards == [] then []
    else
      var tail := LambdaReturns(rewards[1..], values[1..], gamma, lamda, boot);
      [LambdaDiscount(rewards[0], gamma, lamda, First(tail, boot), values[1])] + tail
  }

  /** The returns from step i on are the returns of the rewards from step i on. */
  lemma {:induction false} ReturnsSuffix(rewards: seq<real>, gamma: real, boot: real, i: nat)
    requires i <= |rewards|
    ensures Returns(rewards, gamma, boot)[i..] == Returns(rewards[i..], gamma, boot)
    decreases i
  {
    if i > 0 {
      ReturnsSuffix(rewards[1..], gamma, boot, i - 1);
      assert rewards[1..][i - 1..] == rewards[i..];
    }
  }

  lemma {:induction false} LambdaReturnsSuffix(rewards: seq<real>, values: seq<real>, gamma: real, lamda: real, boot: real, i: nat)
    requires |values| == |rewards| + 1 && i <= |rewards|
    ensures LambdaReturns(rewards, values, gamma, lamda, boot)[i..]
         == LambdaReturns(rewards[i..], values[i..], gamma, lamda, boot)
    decreases i
  {
    if i > 0 {
      LambdaReturnsSuffix(rewards[1..], values[1..], gamma, lamda, boot, i - 1);
      assert rewards[1..][i - 1..] == rewards[i..];
      assert values[1..][i - 1..] == values[i..];
    }
  }

  /** The recurrence of train's loop: R_i = r_i + gamma * R_(i+1), with the
      bootstrap value after the last step. */
  lemma ReturnsRecurrence(rewards: seq<real>, gamma: real, boot: real, i: nat)
    requires i < |rewards|
    ensures var rs := Returns(rewards, gamma, boot);
      rs[i] == rewards[i] + gamma * Next(rs, i, boot)
  {
    var rs := Returns(rewards, gamma, boot);
    ReturnsSuffix(rewards, gamma, boot, i);
    assert rewards[i..][1..] == rewards[i + 1..];
    ReturnsSuffix(rewards, gamma, boot, i + 1);
    assert rs[i] == rs[i..][0];
    assert i + 1 < |rs| ==> rs[i + 1] == rs[i + 1..][0];
  }

  /** The recurrence of the lambda-return:
      Rl_i = r_i + gamma * (lamda * Rl_(i+1) + (1 - lamda) * v_(i+1)). */
  lemma LambdaReturnsRecurrence(rewards: seq<real>, values: seq<real>, gamma: real, lamda: real, boot: real, i: nat)
    requires |values| == |rewards| + 1 && i < |rewards|
    ensures var rs := LambdaReturns(rewards, values, gamma, lamda, boot);
      rs[i] == rewards[i] + gamma * (lamda * Next(rs, i, boot) + (1.0 - lamda) * values[i + 1])
  {
    var rs := LambdaReturns(rewards, values, gamma, lamda, boot);
    LambdaReturnsSuffix(rewards, values, gamma, lamda, boot, i);
    assert rewards[i..][1..] == rewards[i + 1..];
    assert values[i..][1..] == values[i + 1..];
    LambdaReturnsSuffix(rewards, values, gamma, lamda, boot, i + 1);
    assert rs[i] == rs[i..][0];
    assert i + 1 < |rs| ==> rs[i + 1] == rs[i + 1..][0];
  }

  /** The returns of one segment as train builds them: bootstrap from the
      last value (0 when done). */
  function SegmentReturns(rewards: seq<real>, values: seq<real>, done: bool, gamma: real): (rs: seq<real>)
    requires |values| == |rewards| + 1
  {
    Returns(rewards, gamma, Bootstrap(values[|rewards|], done))
  }

  /** The lambda-returns of one segment as train builds them: bootstrap from
      the last value (0 when done) and read the zeroed terminal value. */
  function SegmentLambdaReturns(rewards: seq<real>, values: seq<real>, done: bool, gamma: real, lamda: real): (rs: seq<real>)
    requires |values| == |rewards| + 1
  {
    LambdaReturns(rewards, TerminalValues(values, done), gamma, lamda, Bootstrap(values[|rewards|], done))
  }

  // ---------------------------------------------------------------------
  // An independent reference definition: the textbook discounted sum

  function Pow(x: real, n: nat): (p: real)
  {
    if n == 0 then 1.0 else x * Pow(x, n - 1)
  }

  /** The sum over m < |s| of gamma^(j + m) * s[m]. */
  function WeightedSum(s: seq<real>, gamma: real, j: nat): (ws: real)
  {
    if s == [] then 0.0 else Pow(gamma, j) * s[0] + WeightedSum(s[1..], gamma, j + 1)
  }

  /** The discounted sum of rewards, sum over m of gamma^m * s[m]. */
  function DiscountedSum(s: seq<real>, gamma: real): (ds: real)
  {
    WeightedSum(s, gamma, 0)
  }

  /** Raising every exponent by one multiplies the weighted sum by gamma. */
  lemma {:induction false} WeightedSumShift(s: seq<real>, gamma: real, j: nat)
    ensures WeightedSum(s, gamma, j + 1) == gamma * WeightedSum(s, gamma, j)
    decreases |s|
  {
    if s != [] {
      WeightedSumShift(s[1..], gamma, j + 1);
      ShiftArith(gamma, Pow(gamma, j), s[0], WeightedSum(s[1..], gamma, j + 1),
                 Pow(gamma, j + 1), WeightedSum(s[1..], gamma, j + 2));
    }
  }

  /** The arithmetic of WeightedSumShift, over plain reals. */
  lemma ShiftArith(gamma: real, p: real, x: real, w: real, p': real, w': real)
    requires p' == gamma * p && w' == gamma * w
    ensures p' * x + w' == gamma * (p * x + w)
  {
  }

  /** Peeling the first reward off a discounted sum. */
  lemma DiscountedSumFirst(s: seq<real>, gamma: real)
    requires s != []
    ensures DiscountedSum(s, gamma) == s[0] + gamma * DiscountedSum(s[1..], gamma)
  {
    WeightedSumShift(s[1..], gamma, 0);
    assert Pow(gamma, 0) * s[0] == s[0];
  }

  /** The first return is the discounted sum of all the rewards plus
      gamma^k times the bootstrap value. */
  lemma {:induction false} ReturnsClosedForm(rewards: seq<real>, gamma: real, boot: real)
    requires rewards != []
    ensures Returns(rewards, gamma, boot)[0]
         == DiscountedSum(rewards, gamma) + Pow(gamma, |rewards|) * boot
    decreases |rewards|
  {
    var tail := Returns(rewards[1..], gamma, boot);
    var ds := DiscountedSum(rewards[1..], gamma);
    var p := Pow(gamma, |rewards| - 1);
    if |rewards| == 1 {
      assert rewards[1..] == [];
      assert First(tail, boot) == ds + p * boot by { assert ds == 0.0 && p == 1.0; }
    } else {
      ReturnsClosedForm(rewards[1..], gamma, boot);
    }
    DiscountedSumFirst(rewards, gamma);
    ClosedFormArith(rewards[0], gamma, boot, First(tail, boot), ds, p,
                    Returns(rewards, gamma, boot)[0], DiscountedSum(rewards, gamma), Pow(gamma, |rewards|));
  }

  /** Every return is the discounted sum of the rewards from its step on,
      plus gamma^(steps left) times the bootstrap value. */
  lemma ReturnsClosedFormAt(rewards: seq<real>, gamma: real, boot: real, i: nat)
    requires i < |rewards|
    ensures Returns(rewards, gamma, boot)[i]
         == DiscountedSum(rewards[i..], gamma) + Pow(gamma, |rewards| - i) * boot
  {
    ReturnsSuffix(rewards, gamma, boot, i);
    ReturnsClosedForm(rewards[i..], gamma, boot);
    assert Returns(rewards, gamma, boot)[i] == Returns(rewards, gamma, boot)[i..][0];
  }

  /** The arithmetic of ReturnsClosedForm, over plain reals. */
  lemma ClosedFormArith(r: real, gamma: real, boot: real, next: real, ds: real, p: real,
                        ret: real, dsAll: real, pAll: real)
    requires ret == r + gamma * next
    requires next == ds + p * boot
    requires dsAll == r + gamma * ds
    requires pAll == gamma * p
    ensures ret == dsAll + pAll * boot
  {
  }

  // ---------------------------------------------------------------------
  // Properties of the returns of a segment

  /** With lamda = 1 the lambda-returns coincide with the plain returns,
      whatever the critic's estimates. */
  lemma {:induction false} LambdaOneIsReturns(rewards: seq<real>, values: seq<real>, gamma: real, boot: real)
    requires |values| == |rewards| + 1
    ensures LambdaReturns(rewards, values, gamma, 1.0, boot) == Returns(rewards, gamma, boot)
    decreases |rewards|
  {
    if rewards != [] {
      LambdaOneIsReturns(rewards[1..], values[1..], gamma, boot);
      var ls := LambdaReturns(rewards, values, gamma, 1.0, boot);
      var rs := Returns(rewards, gamma, boot);
      LambdaReturnsSuffix(rewards, values, gamma, 1.0, boot, 1);
      ReturnsSuffix(rewards, gamma, boot, 1);
      LambdaReturnsRecurrence(rewards, values, gamma, 1.0, boot, 0);
      ReturnsRecurrence(rewards, gamma, boot, 0);
      assert ls[1..] == rs[1..];
      assert Next(ls, 0, boot) == Next(rs, 0, boot);
      assert 1.0 * Next(ls, 0, boot) + (1.0 - 1.0) * values[1] == Next(rs, 0, boot);
      assert ls[0] == rs[0];
      assert ls == [ls[0]] + ls[1..] && rs == [rs[0]] + rs[1..];
    }
  }

  /** The lamda = 1 that train fixes makes its two return lists equal, the
      terminal zeroing of values[-1] notwithstanding. */
  lemma SegmentLambdaOneIsReturns(rewards: seq<real>, values: seq<real>, done: bool, gamma: real)
    requires |values| == |rewards| + 1
    ensures SegmentLambdaReturns(rewards, values, done, gamma, 1.0) == SegmentReturns(rewards, values, done, gamma)
  {
    LambdaOneIsReturns(rewards, TerminalValues(values, done), gamma, Bootstrap(values[|rewards|], done));
  }

  /** The last return: the last reward alone when done, and the last reward
      plus the discounted estimate of the next state otherwise. */
  lemma LastReturn(rewards: seq<real>, values: seq<real>, done: bool, gamma: real)
    requires |values| == |rewards| + 1 && |rewards| > 0
    ensures var k := |rewards|;
      SegmentReturns(rewards, values, done, gamma)[k - 1]
        == if done then rewards[k - 1] else rewards[k - 1] + gamma * values[k]
  {
    var k := |rewards|;
    var rs := SegmentReturns(rewards, values, done, gamma);
    ReturnsRecurrence(rewards, gamma, Bootstrap(values[k], done), k - 1);
    assert rs[k - 1] == rewards[k - 1] + gamma * Bootstrap(values[k], done);
  }

  /** When done the terminal state contributes no value to the lambda-return
      either: the last lambda-return is the last reward, for every lamda. */
  lemma LastLambdaReturnDone(rewards: seq<real>, values: seq<real>, gamma: real, lamda: real)
    requires |values| == |rewards| + 1 && |rewards| > 0
    ensures SegmentLambdaReturns(rewards, values, true, gamma, lamda)[|rewards| - 1] == rewards[|rewards| - 1]
  {
    var k := |rewards|;
    var v := TerminalValues(values, true);
    var rs := SegmentLambdaReturns(rewards, values, true, gamma, lamda);
    LambdaReturnsRecurrence(rewards, v, gamma, lamda, 0.0, k - 1);
    assert rs[k - 1] == rewards[k - 1] + gamma * (lamda * 0.0 + (1.0 - lamda) * v[k]);
  }

  /** When done, the critic's estimate of the terminal state changes neither
      return sequence. */
  lemma {:induction false} TerminalValueIgnored(rewards: seq<real>, values: seq<real>, gamma: real, lamda: real, x: real)
    requires |values| == |rewards| + 1
    ensures SegmentReturns(rewards, values[|rewards| := x], true, gamma) == SegmentReturns(rewards, values, true, gamma)
    ensures SegmentLambdaReturns(rewards, values[|rewards| := x], true, gamma, lamda)
         == SegmentLambdaReturns(rewards, values, true, gamma, lamda)
  {
    assert TerminalValues(values[|rewards| := x], true) == TerminalValues(values, true);
  }

  /** Four unit rewards ending at a terminal state, gamma = 0.9. */
  lemma {:induction false} FourStepExample()
    ensures SegmentReturns([1.0, 1.0, 1.0, 1.0], [0.0, 0.0, 0.0, 0.0, 5.0], true, 0.9)
         == [3.439, 2.71, 1.9, 1.0]
  {
    var rewards := [1.0, 1.0, 1.0, 1.0];
    assert rewards[1..] == [1.0, 1.0, 1.0];
    assert rewards[1..][1..] == [1.0, 1.0];
    assert rewards[1..][1..][1..] == [1.0];
    assert rewards[1..][1..][1..][1..] == [];
  }

  // ---------------------------------------------------------------------
  // The backward loop of train: append, then reverse

  /** list.reverse(). */
  function Reverse(s: seq<real>): (r: seq<real>)
  {
    if s == [] then [] else Reverse(s[1..]) + [s[0]]
  }

  /** Reversal moves the element at position i to position |s| - 1 - i. */
  lemma {:induction false} ReverseIndex(s: seq<real>)
    ensures |Reverse(s)| == |s|
    ensures forall i :: 0 <= i < |s| ==> Reverse(s)[i] == s[|s| - 1 - i]
    decreases |s|
  {
    if s != [] {
      ReverseIndex(s[1..]);
    }
  }

  lemma {:induction false} ReverseAppend(s: seq<real>, x: real)
    ensures Reverse(s + [x]) == [x] + Reverse(s)
    decreases |s|
  {
    if s == [] {
      assert Reverse([x]) == Reverse([]) + [x];
    } else {
      assert (s + [x])[1..] == s[1..] + [x];
      ReverseAppend(s[1..], x);
    }
  }

  lemma {:induction false} ReverseReverse(s: seq<real>)
    ensures Reverse(Reverse(s)) == s
    decreases |s|
  {
    if s != [] {
      ReverseAppend(Reverse(s[1..]), s[0]);
      ReverseReverse(s[1..]);
    }
  }

  /** Unfolding both recursions at position i of the rewards: one more
      element in front of the returns of the later rewards. */
  lemma SuffixStep(rewards: seq<real>, values: seq<real>, gamma: real, lamda: real, boot: real, i: nat)
    requires |values| == |rewards| + 1 && i < |rewards|
    ensures var t := Returns(rewards[i + 1..], gamma, boot);
      var rs := Returns(rewards[i..], gamma, boot);
      rs == [rs[0]] + t && rs[0] == Discount(rewards[i], gamma, First(t, boot))
    ensures var t := LambdaReturns(rewards[i + 1..], values[i + 1..], gamma, lamda, boot);
      var rs := LambdaReturns(rewards[i..], values[i..], gamma, lamda, boot);
      rs == [rs[0]] + t && rs[0] == LambdaDiscount(rewards[i], gamma, lamda, First(t, boot), values[i + 1])
  {
    assert rewards[i..][1..] == rewards[i + 1..];
    assert values[i..][1..] == values[i + 1..];
  }

  lemma ReverseCons(x: real, t: seq<real>)
    ensures Reverse([x] + t) == Reverse(t) + [x]
  {
    assert ([x] + t)[1..] == t;
  }

  /** What the loop of train holds after handling the rewards from i + 1
      on: the returns of those rewards, last first, and R and Rlamda the
      earliest of them (the bootstrap value before any step). */
  ghost predicate LoopState(rewards: seq<real>, v: seq<real>, gamma: real, lamda: real, boot: real, i: int,
                            R: real, Rlamda: real, batchReturn: seq<real>, batchReturnLamda: seq<real>)
    requires |v| == |rewards| + 1 && -1 <= i < |rewards|
  {
    var rs := Returns(rewards[i + 1..], gamma, boot);
    var rl := LambdaReturns(rewards[i + 1..], v[i + 1..], gamma, lamda, boot);
    batchReturn == Reverse(rs) && batchReturnLamda == Reverse(rl)
    && R == First(rs, boot) && Rlamda == First(rl, boot)
  }

  /** One iteration of the loop, at reward i. */
  lemma LoopStep(rewards: seq<real>, v: seq<real>, gamma: real, lamda: real, boot: real, i: nat,
                 R: real, Rlamda: real, batchReturn: seq<real>, batchReturnLamda: seq<real>)
    requires |v| == |rewards| + 1 && i < |rewards|
    requires LoopState(rewards, v, gamma, lamda, boot, i, R, Rlamda, batchReturn, batchReturnLamda)
    ensures var R' := rewards[i] + gamma * R;
      var Rlamda' := rewards[i] + gamma * (lamda * Rlamda + (1.0 - lamda) * v[i + 1]);
      LoopState(rewards, v, gamma, lamda, boot, i - 1, R', Rlamda', batchReturn + [R'], batchReturnLamda + [Rlamda'])
  {
    assert rewards[i - 1 + 1..] == rewards[i..] && v[i - 1 + 1..] == v[i..];
    var t := Returns(rewards[i + 1..], gamma, boot);
    var tl := LambdaReturns(rewards[i + 1..], v[i + 1..], gamma, lamda, boot);
    var rs := Returns(rewards[i..], gamma, boot);
    var rl := LambdaReturns(rewards[i..], v[i..], gamma, lamda, boot);
    SuffixStep(rewards, v, gamma, lamda, boot, i);
    ReverseCons(rs[0], t);
    ReverseCons(rl[0], tl);
    assert First(rs, boot) == rs[0] == rewards[i] + gamma * R;
    assert First(rl, boot) == rl[0] == rewards[i] + gamma * (lamda * Rlamda + (1.0 - lamda) * v[i + 1]);
  }

  /** After the last iteration, reversing the lists gives the returns in
      forward order. */
  lemma LoopDone(rewards: seq<real>, v: seq<real>, gamma: real, lamda: real, boot: real,
                 R: real, Rlamda: real, batchReturn: seq<real>, batchReturnLamda: seq<real>)
    requires |v| == |rewards| + 1
    requires LoopState(rewards, v, gamma, lamda, boot, -1, R, Rlamda, batchReturn, batchReturnLamda)
    ensures Reverse(batchReturn) == Returns(rewards, gamma, boot)
    ensures Reverse(batchReturnLamda) == LambdaReturns(rewards, v, gamma, lamda, boot)
  {
    assert rewards[0..] == rewards && v[0..] == v;
    ReverseReverse(Returns(rewards, gamma, boot));
    ReverseReverse(LambdaReturns(rewards, v, gamma, lamda, boot));
  }

  /** The loop of Worker.train: walk the rewards from the last to the first,
      accumulate R and Rlamda, append them, then reverse both lists. */
  method BatchReturns(rewards: seq<real>, values: seq<real>, done: bool, gamma: real, lamda: real)
    returns (batchReturn: seq<real>, batchReturnLamda: seq<real>)
    requires |values| == |rewards| + 1
    ensures batchReturn == SegmentReturns(rewards, values, done, gamma)
    ensures batchReturnLamda == SegmentLambdaReturns(rewards, values, done, gamma, lamda)
  {
    var R := values[|values| - 1] * (1.0 - if done then 1.0 else 0.0);
    var Rlamda := R;
    var v := values;
    if done {
      v := v[|v| - 1 := 0.0];
    }
    ghost var boot := R;
    assert v == TerminalValues(values, done);
    batchReturn, batchReturnLamda := [], [];
    var i := |rewards| - 1;
    while i >= 0
      invariant -1 <= i < |rewards|
      invariant LoopState(rewards, v, gamma, lamda, boot, i, R, Rlamda, batchReturn, batchReturnLamda)
    {
      LoopStep(rewards, v, gamma, lamda, boot, i, R, Rlamda, batchReturn, batchReturnLamda);
      R := rewards[i] + gamma * R;
      Rlamda := rewards[i] + gamma * (lamda * Rlamda + (1.0 - lamda) * v[i + 1]);
      batchReturn := batchReturn + [R];
      batchReturnLamda := batchReturnLamda + [Rlamda];
      i := i - 1;
    }
    LoopDone(rewards, v, gamma, lamda, boot, R, Rlamda, batchReturn, batchReturnLamda);
    batchReturn := Reverse(batchReturn);
    batchReturnLamda := Reverse(batchReturnLamda);
  }
}
