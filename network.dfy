/** The parameters of an ActorCritic network as the worker sees them: a list
    of tensors, each with an optional gradient slot.  The layer arithmetic of
    the forward pass is not part of this module; only the bookkeeping that
    zero_grad, backward, optimizer.step and load_state_dict do on the
    parameter list is. */
module Parameters {

  datatype Option<T> = None | Some(value: T)

  /** A flattened parameter tensor. */
  type Tensor = seq<real>

  /** One parameter: its data and its .grad slot (None until a backward pass
      or an explicit assignment fills it). */
  datatype Parameter = Parameter(data: Tensor, grad: Option<Tensor>)

  /** A gradient, when present, has the shape of the data it belongs to. */
  ghost predicate WellShaped(ps: seq<Parameter>)
  {
    forall i :: 0 <= i < |ps| ==> ps[i].grad.Some? ==> |ps[i].grad.value| == |ps[i].data|
  }

  /** Two parameter lists of the same architecture: pairwise equal shapes. */
  ghost predicate SameShape(ps: seq<Parameter>, qs: seq<Parameter>)
  {
    |ps| == |qs| && forall i :: 0 <= i < |ps| ==> |ps[i].data| == |qs[i].data|
  }

  function Weights(ps: seq<Parameter>): (ws: seq<Tensor>)
    ensures |ws| == |ps|
    ensures forall i :: 0 <= i < |ps| ==> ws[i] == ps[i].data
  {
    seq(|ps|, i requires 0 <= i < |ps| => ps[i].data)
  }

  function Zeros(n: nat): (z: Tensor)
    ensures |z| == n && forall j :: 0 <= j < n ==> z[j] == 0.0
  {
    seq(n, j => 0.0)
  }

  /** What backward leaves in a gradient slot: the new gradient added onto
      the one already there, or the new gradient alone in an empty slot. */
  function Accumulated(slot: Option<Tensor>, g: Tensor): (r: Tensor)
    requires slot.Some? ==> |slot.value| == |g|
    ensures |r| == |g|
    ensures slot.None? ==> r == g
    ensures slot.Some? ==> forall j :: 0 <= j < |g| ==> r[j] == slot.value[j] + g[j]
  {
    match slot
    case None => g
    case Some(prev) => seq(|g|, j requires 0 <= j < |g| => prev[j] + g[j])
  }

  /** Accumulating onto a slot that zero_grad has cleared (zeroed, or never
      filled) leaves exactly the new gradient. */
  lemma AccumulatedOnCleared(slot: Option<Tensor>, g: Tensor)
    requires slot.None? || slot == Some(Zeros(|g|))
    ensures Accumulated(slot, g) == g
  {
    if slot.Some? {
      var r := Accumulated(slot, g);
      assert forall j :: 0 <= j < |g| ==> r[j] == 0.0 + g[j];
    }
  }

  /** One optimiser update of a single parameter.  The update is elementwise
      in the data and the gradient; a parameter without a gradient is
      skipped, as torch optimisers skip it. */
  function StepParameter(p: Parameter, rule: (real, real) -> real): (q: Parameter)
    requires p.grad.Some? ==> |p.grad.value| == |p.data|
    ensures q.grad == p.grad && |q.data| == |p.data|
    ensures p.grad.None? ==> q == p
    ensures p.grad.Some? ==> forall j :: 0 <= j < |p.data| ==> q.data[j] == rule(p.data[j], p.grad.value[j])
  {
    match p.grad
    case None => p
    case Some(g) => Parameter(seq(|p.data|, j requires 0 <= j < |p.data| => rule(p.data[j], g[j])), p.grad)
  }

  /** An nn.Module's parameter list, updated in place. */
  class Network {
    var params: seq<Parameter>

    ghost predicate Valid()
      reads this
    {
      WellShaped(params)
    }

    constructor (initial: seq<Tensor>)
      ensures Valid() && Weights(params) == initial
      ensures forall i :: 0 <= i < |params| ==> params[i].grad.None?
    {
      params := seq(|initial|, i requires 0 <= i < |initial| => Parameter(initial[i], None));
    }

    /** optimizer.zero_grad() in its zeroing form: every gradient that exists
        is filled with zeros in place; the data does not change. */
    method ZeroGrad()
      requires Valid()
      modifies this
      ensures Valid() && |params| == |old(params)|
      ensures Weights(params) == Weights(old(params))
      ensures forall i :: 0 <= i < |params| ==>
        params[i].grad == (if old(params[i].grad).Some? then Some(Zeros(|old(params[i].data)|)) else None)
    {
      var i := 0;
      while i < |params|
        invariant 0 <= i <= |params| == |old(params)|
        invariant forall k :: 0 <= k < |params| ==> params[k].data == old(params[k].data)
        invariant forall k :: 0 <= k < i ==>
          params[k].grad == (if old(params[k].grad).Some? then Some(Zeros(|old(params[k].data)|)) else None)
        invariant forall k :: i <= k < |params| ==> params[k] == old(params[k])
      {
        if params[i].grad.Some? {
          params := params[i := params[i].(grad := Some(Zeros(|params[i].data|)))];
        }
        i := i + 1;
      }
    }

    /** total_loss.backward(): the freshly computed gradient of each
        parameter is added onto its .grad, or becomes its .grad when the
        slot is empty. */
    method Backward(grads: seq<Tensor>)
      requires Valid() && |grads| == |params|
      requires forall i :: 0 <= i < |grads| ==> |grads[i]| == |params[i].data|
      modifies this
      ensures Valid() && |params| == |old(params)|
      ensures Weights(params) == Weights(old(params))
      ensures forall i :: 0 <= i < |params| ==> params[i].grad == Some(Accumulated(old(params[i].grad), grads[i]))
    {
      var ps := params;
      params := seq(|ps|, i requires 0 <= i < |ps| => ps[i].(grad := Some(Accumulated(ps[i].grad, grads[i]))));
    }

    /** optimizer.step() with an elementwise update rule. */
    method Step(rule: (real, real) -> real)
      requires Valid()
      modifies this
      ensures Valid() && |params| == |old(params)|
      ensures forall i :: 0 <= i < |params| ==> params[i] == StepParameter(old(params[i]), rule)
    {
      var ps := params;
      params := seq(|ps|, i requires 0 <= i < |ps| => StepParameter(ps[i], rule));
    }

    /** load_state_dict(source.state_dict()): the data of every parameter is
        copied from the source network, which must have the same
        architecture; gradients are not part of a state dict and stay. */
    method LoadStateDict(source: Network)
      requires Valid() && source.Valid() && SameShape(params, source.params)
      modifies this
      ensures Valid() && |params| == |old(params)|
      ensures Weights(params) == Weights(old(source.params))
      ensures forall i :: 0 <= i < |params| ==> params[i].grad == old(params[i].grad)
    {
      var src := source.params;  // the state dict
      var i := 0;
      while i < |params|
        invariant 0 <= i <= |params| == |old(params)| == |src|
        invariant source == this ==> params == src
        invariant source != this ==> source.params == src
        invariant forall k :: 0 <= k < |params| ==> params[k].grad == old(params[k].grad)
        invariant forall k :: 0 <= k < i ==> params[k].data == src[k].data
        invariant forall k :: i <= k < |params| ==> params[k].data == old(params[k].data)
        invariant forall k :: 0 <= k < |params| ==> |params[k].data| == |src[k].data|
      {
        params := params[i := params[i].(data := src[i].data)];
        i := i + 1;
      }
    }
  }
}
