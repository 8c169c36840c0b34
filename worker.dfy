/** One A3C worker (class Worker): it plays scripted episodes, records each
    transition in its rollout memory, and every t_max steps or at the end of
    an episode trains its local network on the recorded segment, hands the
    local gradients to the shared global network, lets the optimiser step
    it, and copies the global weights back. */
module A3C {
  import opened Rollout
  import opened Parameters
  import opened Returns
  import opened Loss
  import opened Segmenting

  /** train fixes the lambda of its lambda-returns to 1. */
  const Lamda: real := 1.0

  /** The network and autograd as functions of the weights: the value
      estimate of a state, the log-probability of an action in a state, the
      entropy term of a batch of states, and autograd's derivative of a
      scalar function of the weights, at weights w, with respect to
      element j of parameter i. */
  datatype ActorCritic = ActorCritic(
    value: (seq<Tensor>, Observation) -> real,
    logProb: (seq<Tensor>, Observation, Action) -> real,
    entropy: (seq<Tensor>, seq<Observation>) -> real,
    derivative: (seq<Tensor> --> real, seq<Tensor>, nat, nat) -> real)

  /** The critic's estimates of a batch of states: one forward pass. */
  function Values(net: ActorCritic, w: seq<Tensor>, states: seq<Observation>): (vs: seq<real>)
    ensures |vs| == |states|
    ensures forall i :: 0 <= i < |states| ==> vs[i] == net.value(w, states[i])
  {
    seq(|states|, i requires 0 <= i < |states| => net.value(w, states[i]))
  }

  /** The log-probabilities of the taken actions under the policy of the
      first k states (probs[:-1]). */
  function LogProbs(net: ActorCritic, w: seq<Tensor>, states: seq<Observation>, actions: seq<Action>): (lp: seq<real>)
    requires |states| == |actions| + 1
    ensures |lp| == |actions|
    ensures forall i :: 0 <= i < |actions| ==> lp[i] == net.logProb(w, states[i], actions[i])
  {
    seq(|actions|, i requires 0 <= i < |actions| => net.logProb(w, states[i], actions[i]))
  }

  /** A segment train can be called on: at least one transition, and one
      more state than rewards and actions. */
  predicate Trainable(seg: Segment)
  {
    |seg.rewards| > 0 && |seg.actions| == |seg.rewards| && |seg.states| == |seg.rewards| + 1
  }

  /** The total loss train computes on a segment with weights w. */
  function SegmentLoss(net: ActorCritic, w: seq<Tensor>, seg: Segment, gamma: real, entropyRegFactor: real): (l: real)
    requires Trainable(seg)
  {
    var values := Values(net, w, seg.states);
    TotalLoss(SegmentReturns(seg.rewards, values, seg.done, gamma),
              SegmentLambdaReturns(seg.rewards, values, seg.done, gamma, Lamda),
              values, LogProbs(net, w, seg.states, seg.actions),
              net.entropy(w, seg.states), entropyRegFactor)
  }

  /** Because lamda is 1, the critic of train regresses on the same plain
      returns that weight the actor: the loss is the mean squared error of
      the value estimates against the returns, plus the mean advantage-
      weighted negative log-probability, minus the entropy bonus. */
  lemma PlainReturnsLoss(rewards: seq<real>, values: seq<real>, done: bool, gamma: real,
                         logProbs: seq<real>, entropy: real, entropyRegFactor: real)
    requires |rewards| > 0 && |values| == |rewards| + 1 && |logProbs| == |rewards|
    ensures var rets := SegmentReturns(rewards, values, done, gamma);
      TotalLoss(rets, SegmentLambdaReturns(rewards, values, done, gamma, Lamda), values, logProbs, entropy, entropyRegFactor)
        == Mean(CriticLoss(rets, values)) + Mean(ActorLoss(logProbs, rets, values)) - entropy * entropyRegFactor
  {
    SegmentLambdaOneIsReturns(rewards, values, done, gamma);
  }

  /** total_loss as a function of the weights w, as backward
      differentiates it after a forward pass with weights w0: the returns
      and lambda-returns are copied out of the graph into fresh tensors, so
      they stay the constants computed from w0's value estimates, while the
      value estimates, log-probabilities and entropy vary with w. */
  function LossOf(net: ActorCritic, w0: seq<Tensor>, seg: Segment, gamma: real, entropyRegFactor: real): seq<Tensor> --> real
  {
    w requires Trainable(seg) =>
      var values0 := Values(net, w0, seg.states);
      TotalLoss(SegmentReturns(seg.rewards, values0, seg.done, gamma),
                SegmentLambdaReturns(seg.rewards, values0, seg.done, gamma, Lamda),
                Values(net, w, seg.states), LogProbs(net, w, seg.states, seg.actions),
                net.entropy(w, seg.states), entropyRegFactor)
  }

  /** At the forward-pass weights the differentiated function is the loss
      train computes; away from them only its targets stay fixed. */
  lemma LossOfAtForwardWeights(net: ActorCritic, w0: seq<Tensor>, w: seq<Tensor>, seg: Segment,
                               gamma: real, entropyRegFactor: real)
    requires Trainable(seg)
    ensures LossOf(net, w0, seg, gamma, entropyRegFactor)(w0) == SegmentLoss(net, w0, seg, gamma, entropyRegFactor)
    ensures var values0 := Values(net, w0, seg.states);
      LossOf(net, w0, seg, gamma, entropyRegFactor)(w)
        == Mean(CriticLoss(SegmentReturns(seg.rewards, values0, seg.done, gamma), Values(net, w, seg.states)))
           + Mean(ActorLoss(LogProbs(net, w, seg.states, seg.actions), SegmentReturns(seg.rewards, values0, seg.done, gamma),
                            Values(net, w, seg.states)))
           - net.entropy(w, seg.states) * entropyRegFactor
  {
    var values0 := Values(net, w0, seg.states);
    var rets, lams := SegmentReturns(seg.rewards, values0, seg.done, gamma),
                      SegmentLambdaReturns(seg.rewards, values0, seg.done, gamma, Lamda);
    var lp, entropy := LogProbs(net, w, seg.states, seg.actions), net.entropy(w, seg.states);
    assert LossOf(net, w0, seg, gamma, entropyRegFactor)(w)
      == TotalLoss(rets, lams, Values(net, w, seg.states), lp, entropy, entropyRegFactor);
    SegmentLambdaOneIsReturns(seg.rewards, values0, seg.done, gamma);
  }

  /** The derivative of the segment's total loss, with its returns held
      at the values the forward pass at w gives, at weights w with respect
      to element j of parameter i. */
  function Gradient(net: ActorCritic, w: seq<Tensor>, seg: Segment, gamma: real, entropyRegFactor: real,
                    i: nat, j: nat): real
  {
    net.derivative(LossOf(net, w, seg, gamma, entropyRegFactor), w, i, j)
  }

  /** The gradient backward computes for every weight element: the
      derivative of the segment's total loss at w, shaped like the
      weights. */
  function Gradients(net: ActorCritic, w: seq<Tensor>, seg: Segment, gamma: real, entropyRegFactor: real): (gs: seq<Tensor>)
    ensures |gs| == |w|
    ensures forall i :: 0 <= i < |w| ==> |gs[i]| == |w[i]|
  {
    seq(|w|, i requires 0 <= i < |w| =>
      seq(|w[i]|, j requires 0 <= j < |w[i]| => Gradient(net, w, seg, gamma, entropyRegFactor, i, j)))
  }

  /** The weights after one training step on a segment: backward fills
      every gradient slot, and the optimiser steps every parameter.  Each
      weight moves by the update rule applied to it and to the derivative
      of the segment's loss with respect to it. */
  function TrainStep(net: ActorCritic, w: seq<Tensor>, seg: Segment, gamma: real, entropyRegFactor: real,
                     rule: (real, real) -> real): (w': seq<Tensor>)
    ensures |w'| == |w|
    ensures forall i :: 0 <= i < |w| ==> |w'[i]| == |w[i]|
  {
    seq(|w|, i requires 0 <= i < |w| =>
      seq(|w[i]|, j requires 0 <= j < |w[i]| => rule(w[i][j], Gradient(net, w, seg, gamma, entropyRegFactor, i, j))))
  }

  /** The weights after training steps on the segments, in order. */
  function Replay(net: ActorCritic, w: seq<Tensor>, segs: seq<Segment>, gamma: real, entropyRegFactor: real,
                  rule: (real, real) -> real): (w': seq<Tensor>)
    ensures |w'| == |w|
    ensures forall i :: 0 <= i < |w| ==> |w'[i]| == |w[i]|
    decreases |segs|
  {
    if segs == [] then w
    else TrainStep(net, Replay(net, w, segs[..|segs| - 1], gamma, entropyRegFactor, rule), segs[|segs| - 1],
                   gamma, entropyRegFactor, rule)
  }

  /** Training on one more segment is one more training step. */
  lemma ReplaySnoc(net: ActorCritic, w: seq<Tensor>, segs: seq<Segment>, seg: Segment,
                   gamma: real, entropyRegFactor: real, rule: (real, real) -> real)
    ensures Replay(net, w, segs + [seg], gamma, entropyRegFactor, rule)
         == TrainStep(net, Replay(net, w, segs, gamma, entropyRegFactor, rule), seg, gamma, entropyRegFactor, rule)
  {
    assert (segs + [seg])[..|segs|] == segs;
  }

  /** Training on two lists of segments one after the other is training on
      their concatenation. */
  lemma {:induction false} ReplayAppend(net: ActorCritic, w: seq<Tensor>, a: seq<Segment>, b: seq<Segment>,
                                        gamma: real, entropyRegFactor: real, rule: (real, real) -> real)
    ensures Replay(net, w, a + b, gamma, entropyRegFactor, rule)
         == Replay(net, Replay(net, w, a, gamma, entropyRegFactor, rule), b, gamma, entropyRegFactor, rule)
    decreases |b|
  {
    if b == [] {
      assert a + b == a;
    } else {
      ReplayAppend(net, w, a, b[..|b| - 1], gamma, entropyRegFactor, rule);
      assert (a + b)[..|a + b| - 1] == a + b[..|b| - 1];
      assert (a + b)[|a + b| - 1] == b[|b| - 1];
    }
  }

  /** If the weights before were the origin trained on `before`, and the
      weights after are the origin trained on `before` then `segs`, the
      weights after are the weights before trained on `segs`. */
  lemma ReplayExtends(net: ActorCritic, origin: seq<Tensor>, before: seq<Segment>, segs: seq<Segment>,
                      after: seq<Segment>, wBefore: seq<Tensor>, wAfter: seq<Tensor>,
                      gamma: real, entropyRegFactor: real, rule: (real, real) -> real)
    requires wBefore == Replay(net, origin, before, gamma, entropyRegFactor, rule) && after == before + segs
    requires wAfter == Replay(net, origin, after, gamma, entropyRegFactor, rule)
    ensures wAfter == Replay(net, wBefore, segs, gamma, entropyRegFactor, rule)
  {
    ReplayAppend(net, origin, before, segs, gamma, entropyRegFactor, rule);
  }

  /** An optimiser step over parameters whose gradients are a segment's
      gradients yields the weights of a training step on that segment. */
  lemma StepIsTrainStep(net: ActorCritic, w: seq<Tensor>, seg: Segment, gamma: real, entropyRegFactor: real,
                        rule: (real, real) -> real, qs: seq<Parameter>)
    requires |qs| == |w|
    requires forall i :: 0 <= i < |w| ==> qs[i] == StepParameter(Parameter(w[i], Some(Gradients(net, w, seg, gamma, entropyRegFactor)[i])), rule)
    ensures Weights(qs) == TrainStep(net, w, seg, gamma, entropyRegFactor, rule)
  {
    var t := TrainStep(net, w, seg, gamma, entropyRegFactor, rule);
    forall i | 0 <= i < |w|
      ensures Weights(qs)[i] == t[i]
    {
      assert qs[i].data == t[i];
    }
  }

  /** The shared episode index (an mp.Value); the lock around its
      increment is not modelled. */
  class EpisodeCounter {
    var value: int

    constructor (initial: int)
      ensures value == initial
    {
      value := initial;
    }

    method Increment()
      modifies this
      ensures value == old(value) + 1
    {
      value := value + 1;
    }
  }

  class Worker {
    const net: ActorCritic
    const local: Network
    const global: Network
    const memory: Memory
    const episodeIdx: EpisodeCounter
    const maxEpisodes: nat
    const tMax: nat
    const entropyRegFactor: real
    const gamma: real
    /** The optimiser's elementwise update of a weight given its gradient. */
    const rule: (real, real) -> real

    /** The segments trained on so far, in order. */
    ghost var trained: seq<Segment>
    /** The global weights when the worker was created. */
    ghost const origin: seq<Tensor>

    /** The local and the global network are two networks of the same
        architecture holding the same weights: the constructor copies the
        global weights into the local network, and so does every
        update_global, while train changes only gradients. */
    ghost predicate Valid()
      reads this, local, global
    {
      local != global && local.Valid() && global.Valid()
      && Weights(local.params) == Weights(global.params)
    }

    /** The global weights are the weights the worker started from, trained
        on every segment trained so far, in order. */
    ghost predicate Replayed()
      reads this, global
    {
      Weights(global.params) == Replay(net, origin, trained, gamma, entropyRegFactor, rule)
    }

    constructor (net: ActorCritic, global: Network, episodeIdx: EpisodeCounter, initial: seq<Tensor>,
                 maxEpisodes: nat, tMax: nat, entropyRegFactor: real, gamma: real, rule: (real, real) -> real)
      requires global.Valid() && SameShape(global.params, seq(|initial|, i requires 0 <= i < |initial| => Parameter(initial[i], None)))
      ensures Valid() && Replayed() && memory.IsEmpty() && trained == []
      ensures fresh(local) && fresh(memory)
      ensures this.global == global && this.episodeIdx == episodeIdx && this.net == net
      ensures this.maxEpisodes == maxEpisodes && this.tMax == tMax
      ensures this.entropyRegFactor == entropyRegFactor && this.gamma == gamma && this.rule == rule
      ensures Weights(local.params) == Weights(global.params) == origin
      ensures forall i :: 0 <= i < |local.params| ==> local.params[i].grad.None?
    {
      this.net := net;
      this.global := global;
      this.episodeIdx := episodeIdx;
      this.maxEpisodes := maxEpisodes;
      this.tMax := tMax;
      this.entropyRegFactor := entropyRegFactor;
      this.gamma := gamma;
      this.rule := rule;
      var localNet := new Network(initial);
      this.local := localNet;
      this.memory := new Memory();
      this.trained := [];
      this.origin := Weights(global.params);
      new;
      local.LoadStateDict(global);
    }

    /** Worker.train: forward pass over the memory's states, returns and
        lambda-returns, the total loss, zero_grad on the optimiser, and
        backward into the local gradients.  The optimiser holds the global
        parameters, whose gradient slots are the local gradient tensors
        themselves once update_global has run; zeroing them in place
        therefore clears the local slots too, which the second ZeroGrad
        stands for.  No weight changes. */
    method Train(done: bool) returns (loss: real)
      requires Valid()
      requires |memory.rewards| > 0 && |memory.actions| == |memory.rewards|
      requires |memory.states| == |memory.rewards| + 1
      modifies local, global
      ensures Valid()
      ensures var seg := Segment(memory.states, memory.actions, memory.rewards, done);
        && loss == SegmentLoss(net, Weights(old(local.params)), seg, gamma, entropyRegFactor)
        && |local.params| == |old(local.params)|
        && forall i :: 0 <= i < |local.params| ==>
             local.params[i].grad == Some(Gradients(net, Weights(old(local.params)), seg, gamma, entropyRegFactor)[i])
      ensures Weights(local.params) == Weights(old(local.params))
      ensures Weights(global.params) == Weights(old(global.params))
      ensures forall i :: 0 <= i < |global.params| ==>
        global.params[i].grad == (if old(global.params[i].grad).Some? then Some(Zeros(|old(global.params[i].data)|)) else None)
    {
      var w := Weights(local.params);
      var values := Values(net, w, memory.states);
      var batchReturn, batchReturnLamda := BatchReturns(memory.rewards, values, done, gamma, Lamda);
      var logProbs := LogProbs(net, w, memory.states, memory.actions);
      var entropy := net.entropy(w, memory.states);
      loss := TotalLoss(batchReturn, batchReturnLamda, values, logProbs, entropy, entropyRegFactor);
      global.ZeroGrad();
      local.ZeroGrad();
      var seg := Segment(memory.states, memory.actions, memory.rewards, done);
      var gs := Gradients(net, w, seg, gamma, entropyRegFactor);
      ghost var cleared := local.params;
      local.Backward(gs);
      forall i | 0 <= i < |local.params|
        ensures local.params[i].grad == Some(gs[i])
      {
        AccumulatedOnCleared(cleared[i].grad, gs[i]);
      }
    }

    /** Worker.update_global: every local gradient is put into the slot of
        the matching global parameter, the optimiser steps the global
        parameters, and the local network loads the new global weights. */
    method UpdateGlobal()
      requires Valid()
      modifies local, global
      ensures Valid()
      ensures |global.params| == |old(global.params)|
      ensures forall i :: 0 <= i < |global.params| ==> global.params[i].grad == old(local.params[i].grad)
      ensures forall i :: 0 <= i < |global.params| ==>
        global.params[i] == StepParameter(Parameter(old(global.params[i].data), old(local.params[i].grad)), rule)
      ensures Weights(local.params) == Weights(global.params)
      ensures |local.params| == |old(local.params)|
      ensures forall i :: 0 <= i < |local.params| ==> local.params[i].grad == old(local.params[i].grad)
    {
      var i := 0;
      while i < |global.params|
        invariant 0 <= i <= |global.params| == |old(global.params)|
        invariant local.params == old(local.params)
        invariant forall k :: 0 <= k < i ==>
          global.params[k] == Parameter(old(global.params[k].data), local.params[k].grad)
        invariant forall k :: i <= k < |global.params| ==> global.params[k] == old(global.params[k])
      {
        global.params := global.params[i := global.params[i].(grad := local.params[i].grad)];
        i := i + 1;
      }
      assert forall k :: 0 <= k < |global.params| ==> global.params[k].data == local.params[k].data;
      global.Step(rule);
      local.LoadStateDict(global);
    }

    /** What run does when training fires (steps % t_max == 0 or done):
        append the bootstrap state to the memory, train on the memory,
        update the global network, and clear the memory.  The global
        parameters take one optimiser step with the segment's gradients, so
        the weights become those of a training step on the segment. */
    method FinishSegment(observation_: Observation, done: bool)
      requires Valid() && Replayed()
      requires |memory.rewards| > 0 && |memory.actions| == |memory.rewards|
      requires |memory.states| == |memory.rewards|
      modifies this, memory, local, global
      ensures Valid() && Replayed() && memory.IsEmpty()
      ensures var seg := Segment(old(memory.states) + [observation_], old(memory.actions), old(memory.rewards), done);
        && trained == old(trained) + [seg]
        && Weights(global.params) == TrainStep(net, Weights(old(global.params)), seg, gamma, entropyRegFactor, rule)
        && |global.params| == |old(global.params)|
        && forall i :: 0 <= i < |global.params| ==>
             global.params[i] == StepParameter(Parameter(old(global.params[i].data),
                                                         Some(Gradients(net, Weights(old(local.params)), seg, gamma, entropyRegFactor)[i])), rule)
    {
      memory.states := memory.states + [observation_];
      var seg := Segment(memory.states, memory.actions, memory.rewards, done);
      ghost var w := Weights(global.params);
      var _ := Train(done);
      UpdateGlobal();
      StepIsTrainStep(net, w, seg, gamma, entropyRegFactor, rule, global.params);
      ReplaySnoc(net, origin, trained, seg, gamma, entropyRegFactor, rule);
      trained := trained + [seg];
      memory.Clear();
    }

    /** The memory holds the transitions a .. j-1 of episode e: one
        observation, action, reward and value estimate for each. */
    ghost predicate Recorded(e: Episode, a: nat, j: nat)
      requires WellFormed(e) && a <= j <= |e.actions|
      reads this, memory
    {
      memory.states == e.observations[a..j] && memory.actions == e.actions[a..j]
      && memory.rewards == e.rewards[a..j] && |memory.values| == j - a
    }

    /** Acting in the observation of transition j: the critic's estimate of
        it, the scripted action, env.step's reward, next observation and
        done flag, and memory.add of the transition. */
    method Record(e: Episode, j: nat, observation: Observation, ghost a: nat)
      returns (done: bool, observation_: Observation)
      requires WellFormed(e) && a <= j < |e.actions|
      requires observation == e.observations[j] && Recorded(e, a, j)
      modifies memory
      ensures Recorded(e, a, j + 1) && memory.InLockstep()
      ensures done == e.dones[j] && observation_ == e.observations[j + 1]
    {
      var action := e.actions[j];
      var value := net.value(Weights(local.params), observation);
      var reward: real;
      observation_, reward, done := e.observations[j + 1], e.rewards[j], e.dones[j];
      memory.Add(observation, action, reward, value);
      SliceExtend(e.observations, a, j);
      SliceExtend(e.actions, a, j);
      SliceExtend(e.rewards, a, j);
    }

    /** One iteration of the `while not done` loop of Worker.run at
        transition j (the step counter is j + 1): act, record the
        transition, and train when steps % t_max == 0 or done.  Training
        happens exactly when transition j closes the segment that began at
        transition a, and it trains on that segment. */
    method Act(e: Episode, j: nat, steps: nat, observation: Observation, ghost a: nat)
      returns (done: bool, observation_: Observation, ghost a': nat)
      requires Valid() && Replayed() && tMax > 0 && Terminates(e)
      requires a % tMax == 0 && a <= j < Min(a + tMax, |e.actions|) && steps == j + 1
      requires observation == e.observations[j] && Recorded(e, a, j)
      modifies this, memory, local, global
      ensures Valid() && Replayed()
      ensures done <==> j + 1 == |e.actions|
      ensures observation_ == e.observations[j + 1]
      ensures a' == (if j + 1 == Min(a + tMax, |e.actions|) then j + 1 else a)
      ensures trained == old(trained) + (if a' == j + 1 then [SegmentOf(e, a, j + 1)] else [])
      ensures Recorded(e, a', j + 1)
    {
      done, observation_ := Record(e, j, observation, a);
      FiresExactlyAtSegmentEnd(e, tMax, a, j);
      if steps % tMax == 0 || done {
        ghost var before := trained;
        ghost var seg := Segment(memory.states + [observation_], memory.actions, memory.rewards, done);
        SegmentRecorded(e, a, j + 1, memory.states, memory.actions, memory.rewards);
        assert seg == SegmentOf(e, a, j + 1);
        FinishSegment(observation_, done);
        assert trained == before + [seg];
        a' := j + 1;
      } else {
        a' := a;
      }
    }

    /** The step loop inside one pass of the episode loop of Worker.run:
        reset, then act until done, training on every completed segment.
        The segments trained on are exactly the episode's t_max-segments. */
    method PlaySteps(e: Episode)
      requires Valid() && Replayed() && memory.IsEmpty() && tMax > 0 && Terminates(e)
      modifies this, memory, local, global
      ensures Valid() && Replayed() && memory.IsEmpty()
      ensures trained == old(trained) + Segments(e, tMax, 0)
    {
      var done := false;
      var observation := e.observations[0];
      var steps := 1;
      var j := 0;        // position of the scripted environment
      ghost var a := 0;  // first transition held in memory
      ghost var goal := trained + Segments(e, tMax, 0);
      while !done
        invariant Valid() && Replayed()
        invariant 0 <= a <= j <= |e.actions| && steps == j + 1
        invariant done <==> j == |e.actions|
        invariant observation == e.observations[j]
        invariant !done ==> a % tMax == 0 && j < Min(a + tMax, |e.actions|)
        invariant done ==> a == j
        invariant Recorded(e, a, j)
        invariant trained + Segments(e, tMax, a) == goal
        decreases |e.actions| - j
      {
        ghost var before, start := trained, a;
        done, observation, a := Act(e, j, steps, observation, a);
        StepKeepsSegments(e, tMax, start, j, a, before, trained, goal);
        steps := steps + 1;
        j := j + 1;
      }
    }

    /** One pass of the episode loop of Worker.run: the steps of the
        episode, then the shared episode counter goes up by one.  The
        global weights are those before the episode trained on each of the
        episode's t_max-segments in turn. */
    method PlayEpisode(e: Episode)
      requires Valid() && Replayed() && memory.IsEmpty() && tMax > 0 && Terminates(e)
      modifies this, memory, local, global, episodeIdx
      ensures Valid() && Replayed() && memory.IsEmpty()
      ensures trained == old(trained) + Segments(e, tMax, 0)
      ensures Weights(global.params)
        == Replay(net, Weights(old(global.params)), Segments(e, tMax, 0), gamma, entropyRegFactor, rule)
      ensures episodeIdx.value == old(episodeIdx.value) + 1
    {
      ghost var trained0, w0 := trained, Weights(global.params);
      PlaySteps(e);
      episodeIdx.Increment();
      ReplayExtends(net, origin, trained0, Segments(e, tMax, 0), trained, w0, Weights(global.params), gamma, entropyRegFactor, rule);
    }

    /** The episode loop of Worker.run: max_episodes episodes, one after
        the other, each training on its segments. */
    method PlayEpisodes(episodes: seq<Episode>)
      requires Valid() && Replayed() && memory.IsEmpty() && tMax > 0
      requires |episodes| == maxEpisodes
      requires forall i :: 0 <= i < |episodes| ==> Terminates(episodes[i])
      modifies this, memory, local, global, episodeIdx
      ensures Valid() && Replayed() && memory.IsEmpty()
      ensures trained == old(trained) + AllSegments(episodes, tMax)
      ensures episodeIdx.value == old(episodeIdx.value) + maxEpisodes
    {
      ghost var trained0 := trained;
      var i := 1;
      while i < maxEpisodes + 1
        invariant 1 <= i <= maxEpisodes + 1
        invariant Valid() && Replayed() && memory.IsEmpty()
        invariant trained == trained0 + AllSegments(episodes[..i - 1], tMax)
        invariant episodeIdx.value == old(episodeIdx.value) + (i - 1)
      {
        ghost var before := trained;
        PlayEpisode(episodes[i - 1]);
        AllSegmentsGrow(episodes, tMax, i, trained0, before, trained);
        i := i + 1;
      }
      assert episodes[..maxEpisodes] == episodes;
    }

    /** Worker.run: the global weights end as the weights before, trained
        on every segment of every episode in turn. */
    method Run(episodes: seq<Episode>)
      requires Valid() && Replayed() && memory.IsEmpty() && tMax > 0
      requires |episodes| == maxEpisodes
      requires forall i :: 0 <= i < |episodes| ==> Terminates(episodes[i])
      modifies this, memory, local, global, episodeIdx
      ensures Valid() && Replayed() && memory.IsEmpty()
      ensures trained == old(trained) + AllSegments(episodes, tMax)
      ensures Weights(global.params)
        == Replay(net, Weights(old(global.params)), AllSegments(episodes, tMax), gamma, entropyRegFactor, rule)
      ensures episodeIdx.value == old(episodeIdx.value) + maxEpisodes
    {
      ghost var trained0, w0 := trained, Weights(global.params);
      PlayEpisodes(episodes);
      ReplayExtends(net, origin, trained0, AllSegments(episodes, tMax), trained, w0, Weights(global.params),
                    gamma, entropyRegFactor, rule);
    }
  }

  /** The memory at a training step, with the bootstrap state appended,
      holds exactly the segment of the episode from transition a to
      transition b - 1. */
  lemma SegmentRecorded(e: Episode, a: nat, b: nat,
                        states: seq<Observation>, actions: seq<Action>, rewards: seq<real>)
    requires WellFormed(e) && a < b <= |e.actions|
    requires states == e.observations[a..b]
    requires actions == e.actions[a..b] && rewards == e.rewards[a..b]
    ensures Trainable(Segment(states + [e.observations[b]], actions, rewards, e.dones[b - 1]))
    ensures Segment(states + [e.observations[b]], actions, rewards, e.dones[b - 1]) == SegmentOf(e, a, b)
  {
    assert states + [e.observations[b]] == e.observations[a..b + 1];
  }

  lemma SliceExtend<T>(s: seq<T>, a: nat, j: nat)
    requires a <= j < |s|
    ensures s[a..j] + [s[j]] == s[a..j + 1]
  {
  }
}
