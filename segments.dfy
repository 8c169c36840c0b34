/** How Worker.run cuts an episode into training segments.  An episode is a
    scripted run of the environment: the observations it showed, the action
    taken in each, and the reward and done flag env.step returned.
    Training fires after step number `steps` (counted from 1 in every
    episode) when `steps % t_max == 0` or the step ended the episode. */
module Segmenting {
  import opened Rollout

  /** A scripted episode: the observations o_0 .. o_n the environment
      showed (o_0 from env.reset, o_{j+1} from the j-th env.step), the
      action taken in each o_j, and the reward and done flag env.step
      returned for it. */
  datatype Episode = Episode(observations: seq<Observation>, actions: seq<Action>,
                             rewards: seq<real>, dones: seq<bool>)

  predicate WellFormed(e: Episode)
  {
    |e.observations| == |e.actions| + 1 && |e.rewards| == |e.actions| && |e.dones| == |e.actions|
  }

  /** What one call of train sees: k + 1 states (the last one is the
      bootstrap state), k actions and k rewards, and the done flag of the
      last transition. */
  datatype Segment = Segment(states: seq<Observation>, actions: seq<Action>, rewards: seq<real>, done: bool)

  /** The inner `while not done` loop ends exactly at the last transition:
      done is reported there and nowhere before. */
  predicate Terminates(e: Episode)
  {
    WellFormed(e) && |e.actions| > 0
    && forall j :: 0 <= j < |e.dones| ==> (e.dones[j] <==> j == |e.dones| - 1)
  }

  function Min(a: int, b: int): (m: int)
  {
    if a <= b then a else b
  }

  /** The condition under which run trains after the transition at index j
      (the step counter is then j + 1). */
  predicate Fires(e: Episode, tMax: nat, j: nat)
    requires tMax > 0 && j < |e.dones|
  {
    (j + 1) % tMax == 0 || e.dones[j]
  }

  /** The segment made of the transitions a .. b-1, with the state after
      the last one appended as the bootstrap state. */
  function SegmentOf(e: Episode, a: nat, b: nat): (seg: Segment)
    requires WellFormed(e) && a < b <= |e.actions|
  {
    Segment(e.observations[a..b + 1], e.actions[a..b], e.rewards[a..b], e.dones[b - 1])
  }

  /** The training segments of the rest of an episode from transition a
      on: t_max transitions each, the last one cut short by the end. */
  function Segments(e: Episode, tMax: nat, a: nat): (segs: seq<Segment>)
    requires WellFormed(e) && tMax > 0 && a <= |e.actions|
    decreases |e.actions| - a
  {
    if a == |e.actions| then []
    else
      var b := Min(a + tMax, |e.actions|);
      [SegmentOf(e, a, b)] + Segments(e, tMax, b)
  }

  /** The rest of an episode from transition a on makes ceil((n - a) / t_max)
      segments: none when nothing is left, otherwise as many as cover the
      remaining transitions with all but the last one full. */
  lemma {:induction false} SegmentCount(e: Episode, tMax: nat, a: nat)
    requires WellFormed(e) && tMax > 0 && a <= |e.actions|
    ensures a == |e.actions| ==> Segments(e, tMax, a) == []
    ensures var k := |Segments(e, tMax, a)|;
      a < |e.actions| ==> (k - 1) * tMax < |e.actions| - a <= k * tMax
    decreases |e.actions| - a
  {
    if a < |e.actions| {
      var b := Min(a + tMax, |e.actions|);
      SegmentCount(e, tMax, b);
      var k := |Segments(e, tMax, b)|;
      assert |Segments(e, tMax, a)| == k + 1;
      assert (k + 1) * tMax == k * tMax + tMax;
    }
  }

  /** All training segments of a list of episodes, in order. */
  function AllSegments(episodes: seq<Episode>, tMax: nat): (segs: seq<Segment>)
    requires tMax > 0 && forall i :: 0 <= i < |episodes| ==> Terminates(episodes[i])
  {
    if episodes == [] then []
    else
      var last := episodes[|episodes| - 1];
      assert Terminates(last);
      AllSegments(episodes[..|episodes| - 1], tMax) + Segments(last, tMax, 0)
  }

  /** The segments of the first i episodes are those of the first i - 1
      episodes followed by those of episode i - 1. */
  lemma AllSegmentsPrefix(episodes: seq<Episode>, tMax: nat, i: nat)
    requires tMax > 0 && forall k :: 0 <= k < |episodes| ==> Terminates(episodes[k])
    requires 0 < i <= |episodes|
    ensures AllSegments(episodes[..i], tMax) == AllSegments(episodes[..i - 1], tMax) + Segments(episodes[i - 1], tMax, 0)
  {
    assert episodes[..i][..i - 1] == episodes[..i - 1];
  }

  /** After episode i - 1 has been trained on, the segments trained since
      `base` are those of the first i episodes. */
  lemma AllSegmentsGrow(episodes: seq<Episode>, tMax: nat, i: nat, base: seq<Segment>,
                        before: seq<Segment>, after: seq<Segment>)
    requires tMax > 0 && forall k :: 0 <= k < |episodes| ==> Terminates(episodes[k])
    requires 0 < i <= |episodes| && Terminates(episodes[i - 1])
    requires before == base + AllSegments(episodes[..i - 1], tMax)
    requires after == before + Segments(episodes[i - 1], tMax, 0)
    ensures after == base + AllSegments(episodes[..i], tMax)
  {
    AllSegmentsPrefix(episodes, tMax, i);
  }

  /** Training the first remaining segment moves it from the segments
      still to come to the segments trained. */
  lemma SegmentsAdvance(e: Episode, tMax: nat, a: nat, base: seq<Segment>, before: seq<Segment>)
    requires WellFormed(e) && tMax > 0 && a < |e.actions|
    requires before + Segments(e, tMax, a) == base
    ensures var b := Min(a + tMax, |e.actions|);
      (before + [SegmentOf(e, a, b)]) + Segments(e, tMax, b) == base
  {
    var b := Min(a + tMax, |e.actions|);
    assert Segments(e, tMax, a) == [SegmentOf(e, a, b)] + Segments(e, tMax, b);
  }

  /** One step of the episode loop: if transition j closes the segment
      that began at a, that segment joins the trained ones and the next
      segment begins at j + 1; either way the segments trained plus the
      segments still to come stay the same, and the next segment still
      begins at a multiple of t_max. */
  lemma StepKeepsSegments(e: Episode, tMax: nat, a: nat, j: nat, a': nat,
                          before: seq<Segment>, after: seq<Segment>, goal: seq<Segment>)
    requires Terminates(e) && tMax > 0 && a % tMax == 0 && a <= j < Min(a + tMax, |e.actions|)
    requires a' == (if j + 1 == Min(a + tMax, |e.actions|) then j + 1 else a)
    requires after == before + (if a' == j + 1 then [SegmentOf(e, a, j + 1)] else [])
    requires before + Segments(e, tMax, a) == goal
    ensures a' <= j + 1 && after + Segments(e, tMax, a') == goal
    ensures j + 1 < |e.actions| ==> a' % tMax == 0 && j + 1 < Min(a' + tMax, |e.actions|)
    ensures j + 1 == |e.actions| ==> a' == j + 1
  {
    if a' == j + 1 {
      SegmentsAdvance(e, tMax, a, goal, before);
      if j + 1 < |e.actions| {
        assert j + 1 == a + tMax;
        assert (a + tMax) % tMax == 0 by { MultipleOnlyAtBlockEnd(a, tMax, a + tMax); }
      }
    }
  }

  function ConcatRewards(segs: seq<Segment>): (rs: seq<real>)
  {
    if segs == [] then [] else segs[0].rewards + ConcatRewards(segs[1..])
  }

  function ConcatActions(segs: seq<Segment>): (acts: seq<Action>)
  {
    if segs == [] then [] else segs[0].actions + ConcatActions(segs[1..])
  }

  /** Within a block of t_max steps that starts at a multiple of t_max,
      the counter is a multiple of t_max only at the block's last step. */
  lemma MultipleOnlyAtBlockEnd(a: nat, tMax: nat, m: nat)
    requires tMax > 0 && a % tMax == 0 && a < m <= a + tMax
    ensures m % tMax == 0 <==> m == a + tMax
  {
    var q := a / tMax;
    assert a == q * tMax;
    var r := m - a;
    assert 0 < r <= tMax;
    if r < tMax {
      assert m == q * tMax + r;
      assert m / tMax == q && m % tMax == r by {
        DivModUnique(m, tMax, q, r);
      }
    } else {
      assert m == (q + 1) * tMax;
      DivModUnique(m, tMax, q + 1, 0);
    }
  }

  lemma MulMono(x: int, y: int, d: int)
    requires x <= y && d > 0
    ensures x * d <= y * d
  {
    assert y * d == x * d + (y - x) * d;
  }

  lemma MulStep(x: int, y: int, d: int)
    requires x < y && d > 0
    ensures x * d + d <= y * d
  {
    MulMono(x + 1, y, d);
    assert (x + 1) * d == x * d + d;
  }

  lemma DivModUnique(m: int, d: int, q: int, r: int)
    requires d > 0 && 0 <= r < d && m == q * d + r
    ensures m / d == q && m % d == r
  {
    var q' := m / d;
    assert m == q' * d + m % d;
    if q' > q {
      MulStep(q, q', d);
    } else if q' < q {
      MulStep(q', q, d);
    }
  }

  /** The trigger `steps % t_max == 0 or done` fires at the transition j of
      a terminating episode exactly when j is the last transition of the
      segment that started at a multiple a of t_max. */
  lemma FiresExactlyAtSegmentEnd(e: Episode, tMax: nat, a: nat, j: nat)
    requires Terminates(e) && tMax > 0 && a % tMax == 0
    requires a <= j < Min(a + tMax, |e.actions|)
    ensures Fires(e, tMax, j) <==> j + 1 == Min(a + tMax, |e.actions|)
  {
    MultipleOnlyAtBlockEnd(a, tMax, j + 1);
  }

  /** Every segment train receives has between 1 and t_max transitions and
      one more state than it has rewards and actions. */
  lemma {:induction false} SegmentShape(e: Episode, tMax: nat, a: nat, k: nat)
    requires WellFormed(e) && tMax > 0 && a <= |e.actions| && k < |Segments(e, tMax, a)|
    ensures var s := Segments(e, tMax, a)[k];
      1 <= |s.rewards| <= tMax && |s.actions| == |s.rewards| && |s.states| == |s.rewards| + 1
    decreases k
  {
    var b := Min(a + tMax, |e.actions|);
    if k > 0 {
      SegmentShape(e, tMax, b, k - 1);
      assert Segments(e, tMax, a)[k] == Segments(e, tMax, b)[k - 1];
    }
  }

  /** The segments partition the episode: their rewards and actions, laid
      end to end, are those of the episode from transition a on. */
  lemma {:induction false} SegmentsCover(e: Episode, tMax: nat, a: nat)
    requires WellFormed(e) && tMax > 0 && a <= |e.actions|
    ensures ConcatRewards(Segments(e, tMax, a)) == e.rewards[a..]
    ensures ConcatActions(Segments(e, tMax, a)) == e.actions[a..]
    decreases |e.actions| - a
  {
    if a < |e.actions| {
      var b := Min(a + tMax, |e.actions|);
      SegmentsCover(e, tMax, b);
      var segs := Segments(e, tMax, a);
      assert segs[1..] == Segments(e, tMax, b);
      assert e.rewards[a..] == e.rewards[a..b] + e.rewards[b..];
      assert e.actions[a..] == e.actions[a..b] + e.actions[b..];
    }
  }

  /** Of the segments of a terminating episode only the last is trained
      with done set, so every other one bootstraps from its last state. */
  lemma {:induction false} OnlyLastSegmentDone(e: Episode, tMax: nat, a: nat, k: nat)
    requires Terminates(e) && tMax > 0 && a <= |e.actions| && k < |Segments(e, tMax, a)|
    ensures Segments(e, tMax, a)[k].done <==> k == |Segments(e, tMax, a)| - 1
    decreases k
  {
    var b := Min(a + tMax, |e.actions|);
    var rest := Segments(e, tMax, b);
    if k > 0 {
      OnlyLastSegmentDone(e, tMax, b, k - 1);
      assert Segments(e, tMax, a)[k] == rest[k - 1];
    } else {
      assert b == |e.actions| <==> rest == [];
    }
  }

  /** The bootstrap state of segment s is the first state of segment t. */
  predicate Chained(s: Segment, t: Segment)
  {
    |s.states| > 0 && |t.states| > 0 && s.states[|s.states| - 1] == t.states[0]
  }

  /** Consecutive segments overlap in one state: the state a segment
      bootstraps from is the state the next one starts in. */
  lemma {:induction false} SegmentsChain(e: Episode, tMax: nat, a: nat, k: nat)
    requires WellFormed(e) && tMax > 0 && a <= |e.actions| && 1 <= k < |Segments(e, tMax, a)|
    ensures Chained(Segments(e, tMax, a)[k - 1], Segments(e, tMax, a)[k])
    decreases k
  {
    var b := Min(a + tMax, |e.actions|);
    var segs := Segments(e, tMax, a);
    var rest := Segments(e, tMax, b);
    if k > 1 {
      SegmentsChain(e, tMax, b, k - 1);
      assert segs[k - 1] == rest[k - 2] && segs[k] == rest[k - 1];
    } else {
      assert b < |e.actions|;
      var c := Min(b + tMax, |e.actions|);
      var obs := e.observations;
      assert segs[0].states == obs[a..b + 1];
      assert segs[1] == rest[0] == SegmentOf(e, b, c);
      assert segs[1].states == obs[b..c + 1];
    }
  }
}
