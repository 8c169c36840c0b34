/** The rollout memory of one worker (class Memory): four parallel lists of
    the observations seen, the actions taken, the rewards received and the
    value estimates made since the last training step. */
module Rollout {

  /** An environment observation, a vector of features. */
  type Observation = seq<real>

  /** An index into the discrete action space. */
  type Action = nat

  class Memory {
    var states: seq<Observation>
    var actions: seq<Action>
    var rewards: seq<real>
    var values: seq<real>

    /** Every add has extended all four lists by one. */
    ghost predicate InLockstep()
      reads this
    {
      |states| == |actions| == |rewards| == |values|
    }

    predicate IsEmpty()
      reads this
    {
      states == [] && actions == [] && rewards == [] && values == []
    }

    constructor ()
      ensures IsEmpty()
    {
      states := [];
      actions := [];
      rewards := [];
      values := [];
    }

    /** Record one transition: each list grows by exactly its own new
        element, so lists that were in lockstep stay in lockstep. */
    method Add(state: Observation, action: Action, reward: real, value: real)
      modifies this
      ensures states == old(states) + [state]
      ensures actions == old(actions) + [action]
      ensures rewards == old(rewards) + [reward]
      ensures values == old(values) + [value]
      ensures old(InLockstep()) ==> InLockstep()
    {
      states := states + [state];
      actions := actions + [action];
      rewards := rewards + [reward];
      values := values + [value];
    }

    method Clear()
      modifies this
      ensures IsEmpty() && InLockstep()
    {
      states := [];
      actions := [];
      rewards := [];
      values := [];
    }
  }
}
