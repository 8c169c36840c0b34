/** The scalar loss Worker.train differentiates: a critic term regressing the
    value estimates on the lambda-returns, an actor term weighting the
    log-probability of each taken action by its advantage, and an entropy
    bonus.  Log-probabilities and the entropy are given reals; the softmax,
    the categorical distribution and the logarithm are not modelled. */
module Loss {

  function Sum(s: seq<real>): (r: real)
  {
    if s == [] then 0.0 else s[0] + Sum(s[1..])
  }

  /** torch's .mean() over a one-dimensional tensor: the value that,
      counted once per element, adds up to the sum. */
  function Mean(s: seq<real>): (m: real)
    requires |s| > 0
    ensures m * (|s| as real) == Sum(s)
  {
    Sum(s) / (|s| as real)
  }

  /** Element-wise sum of two tensors of the same length. */
  function Add(a: seq<real>, b: seq<real>): (c: seq<real>)
    requires |a| == |b|
    ensures |c| == |a|
    ensures forall i :: 0 <= i < |c| ==> c[i] == a[i] + b[i]
  {
    seq(|a|, i requires 0 <= i < |a| => a[i] + b[i])
  }

  function Square(x: real): (r: real)
  {
    x * x
  }

  lemma ProductPositive(a: real, b: real, y: real)
    requires a > 0.0 && b > 0.0 && y == a * b
    ensures y > 0.0
  {
  }

  lemma SquareFacts(x: real)
    ensures Square(x) >= 0.0
    ensures Square(x) == 0.0 <==> x == 0.0
  {
    if x > 0.0 {
      ProductPositive(x, x, Square(x));
    } else if x < 0.0 {
      ProductPositive(-x, -x, Square(x));
    } else {
      assert Square(x) == 0.0 * 0.0;
    }
  }

  /** Critic loss per step, (returns_lamda[i] - values[i])^2 over the first k
      of the k + 1 value estimates: never negative, and zero exactly where
      the estimate meets its lambda-return target. */
  function CriticLoss(returnsLamda: seq<real>, values: seq<real>): (c: seq<real>)
    requires |values| == |returnsLamda| + 1
    ensures |c| == |returnsLamda|
    ensures forall i :: 0 <= i < |c| ==> c[i] == Square(returnsLamda[i] - values[i])
    ensures forall i :: 0 <= i < |c| ==> c[i] >= 0.0 && (c[i] == 0.0 <==> returnsLamda[i] == values[i])
  {
    var c := seq(|returnsLamda|, i requires 0 <= i < |returnsLamda| => Square(returnsLamda[i] - values[i]));
    assert forall i :: 0 <= i < |c| ==> c[i] == Square(returnsLamda[i] - values[i]);
    forall i | 0 <= i < |c|
      ensures c[i] >= 0.0 && (c[i] == 0.0 <==> returnsLamda[i] == values[i])
    {
      SquareFacts(returnsLamda[i] - values[i]);
    }
    c
  }

  lemma SignOfProduct(l: real, adv: real)
    requires l < 0.0
    ensures -l * adv > 0.0 <==> adv > 0.0
    ensures -l * adv == 0.0 <==> adv == 0.0
  {
  }

  /** Actor loss per step, -log_probs[i] * (rets[i] - values[i]): for an
      action whose probability is below one (log-probability negative) it is
      positive exactly when the advantage is positive and zero exactly when
      the advantage is zero; an action taken with certainty costs nothing. */
  function ActorLoss(logProbs: seq<real>, rets: seq<real>, values: seq<real>): (a: seq<real>)
    requires |logProbs| == |rets| && |values| == |rets| + 1
    ensures |a| == |rets|
    ensures forall i :: 0 <= i < |a| ==> a[i] == -logProbs[i] * (rets[i] - values[i])
    ensures forall i :: 0 <= i < |a| && logProbs[i] < 0.0 ==>
      (a[i] > 0.0 <==> rets[i] > values[i]) && (a[i] == 0.0 <==> rets[i] == values[i])
    ensures forall i :: 0 <= i < |a| && logProbs[i] == 0.0 ==> a[i] == 0.0
  {
    var a := seq(|rets|, i requires 0 <= i < |rets| => -logProbs[i] * (rets[i] - values[i]));
    forall i | 0 <= i < |a| && logProbs[i] < 0.0
      ensures (a[i] > 0.0 <==> rets[i] > values[i]) && (a[i] == 0.0 <==> rets[i] == values[i])
    {
      SignOfProduct(logProbs[i], rets[i] - values[i]);
    }
    a
  }

  lemma {:induction false} SumAdd(a: seq<real>, b: seq<real>)
    requires |a| == |b|
    ensures Sum(Add(a, b)) == Sum(a) + Sum(b)
    decreases |a|
  {
    if a != [] {
      SumAdd(a[1..], b[1..]);
      assert Add(a, b)[1..] == Add(a[1..], b[1..]);
    }
  }

  lemma {:induction false} SumZero(s: seq<real>)
    requires forall i :: 0 <= i < |s| ==> s[i] == 0.0
    ensures Sum(s) == 0.0
    decreases |s|
  {
    if s != [] {
      SumZero(s[1..]);
    }
  }

  lemma {:induction false} SumNonNegative(s: seq<real>)
    requires forall i :: 0 <= i < |s| ==> s[i] >= 0.0
    ensures Sum(s) >= 0.0
    decreases |s|
  {
    if s != [] {
      SumNonNegative(s[1..]);
    }
  }

  lemma DivAdd(x: real, y: real, n: real)
    requires n > 0.0
    ensures (x + y) / n == x / n + y / n
  {
  }

  /** The mean of an element-wise sum is the sum of the means. */
  lemma MeanAdd(a: seq<real>, b: seq<real>)
    requires |a| == |b| && |a| > 0
    ensures Mean(Add(a, b)) == Mean(a) + Mean(b)
  {
    SumAdd(a, b);
    DivAdd(Sum(a), Sum(b), |a| as real);
  }

  /** The total loss: mean over the k steps of critic plus actor loss, minus
      the entropy bonus scaled by the regularisation factor; equivalently
      the mean critic loss plus the mean actor loss minus the bonus. */
  function TotalLoss(rets: seq<real>, returnsLamda: seq<real>, values: seq<real>,
                     logProbs: seq<real>, entropy: real, entropyRegFactor: real): (l: real)
    requires |rets| > 0 && |returnsLamda| == |rets| && |logProbs| == |rets|
    requires |values| == |rets| + 1
    ensures l == Mean(CriticLoss(returnsLamda, values)) + Mean(ActorLoss(logProbs, rets, values))
                 - entropy * entropyRegFactor
  {
    var critic, actor := CriticLoss(returnsLamda, values), ActorLoss(logProbs, rets, values);
    MeanAdd(critic, actor);
    Mean(Add(critic, actor)) - entropy * entropyRegFactor
  }

  /** The critic term of the loss is never negative. */
  lemma CriticMeanNonNegative(returnsLamda: seq<real>, values: seq<real>)
    requires |returnsLamda| > 0 && |values| == |returnsLamda| + 1
    ensures Mean(CriticLoss(returnsLamda, values)) >= 0.0
  {
    SumNonNegative(CriticLoss(returnsLamda, values));
  }

  /** When every value estimate meets both its return and its lambda-return,
      the critic and actor terms vanish and only the entropy bonus is left. */
  lemma PerfectCriticLoss(rets: seq<real>, returnsLamda: seq<real>, values: seq<real>,
                          logProbs: seq<real>, entropy: real, entropyRegFactor: real)
    requires |rets| > 0 && |returnsLamda| == |rets| && |logProbs| == |rets|
    requires |values| == |rets| + 1
    requires forall i :: 0 <= i < |rets| ==> rets[i] == values[i] && returnsLamda[i] == values[i]
    ensures TotalLoss(rets, returnsLamda, values, logProbs, entropy, entropyRegFactor)
         == -(entropy * entropyRegFactor)
  {
    var s := Add(CriticLoss(returnsLamda, values), ActorLoss(logProbs, rets, values));
    SumZero(s);
  }
}
