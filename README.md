# A3C worker bookkeeping, modelled in Dafny

This project models the sequential bookkeeping of one worker in an
asynchronous advantage actor-critic (A3C) trainer (`A3C_lambda.py`).
The worker plays episodes of an environment and records every transition
in its rollout memory. Every `t_max` steps, and at the end of an episode,
it does three things:

- trains its local actor-critic network on the recorded segment;
- hands the local gradients to the shared global network and lets the
  optimiser step the global network;
- copies the global weights back into the local network.

Rewards, value estimates and losses are exact `real`s standing in for
float tensors.

The model is split by concern:

- `returns.dfy` (module `Returns`): train's returns and lambda-returns.
  - A bootstrap value is taken from the last state's estimate, or 0 when
    done. When done, the terminal value estimate is zeroed.
  - Two recursive specifications cover the plain returns and the
    lambda-returns. An independent closed form is given as the discounted
    sum of the rewards plus `gamma^k` times the bootstrap value.
  - The imperative backward loop (append, then reverse) is proved equal to
    the specifications.
- `loss.dfy` (module `Loss`): the critic loss `(Rλ_i − v_i)²`, the actor
  loss `−log p_i · (R_i − v_i)`, and the total loss. The total loss is the
  mean of their sum minus the entropy times the regularisation factor.
- `memory.dfy` (module `Rollout`): class `Memory` with four lists that are
  appended in lockstep and cleared together.
- `network.dfy` (module `Parameters`): a network as a list of parameters,
  each with data and an optional gradient slot. It models the parameter
  bookkeeping of `zero_grad`, `backward`, `optimizer.step` and
  `load_state_dict`.
- `segments.dfy` (module `Segmenting`):
  - a scripted episode;
  - the specification of the training segments `run` cuts it into
    (`t_max` transitions each, the last one cut short by the end of the
    episode);
  - lemmas about those segments: their shape, that they partition the
    episode, that only the last one is done, and that consecutive ones
    share a state.
- `worker.dfy` (module `A3C`): class `Worker` with `Train`, `UpdateGlobal`
  and the `run` loop split into one iteration (`Act`), the step loop of one
  episode (`PlaySteps`), one episode (`PlayEpisode`), the episode loop
  (`PlayEpisodes`) and all of `run` (`Run`).
  - A ghost field records the segments trained on. `PlayEpisode` is proved
    to train on exactly the episode's segments, in order, with the memory
    empty before and after.
  - The global weights are tied to that record: they are always the
    initial weights trained on every recorded segment in turn (`Replay`,
    one `TrainStep` per segment). So after an episode the global weights
    are the weights before it, trained on each of its segments in order.
  - The network's forward pass, log-probabilities, entropy and autograd
    are opaque functions of the weights (datatype `ActorCritic`). The
    derivative operator is opaque, but it is applied to the segment's own
    total loss as a function of the weights (`LossOf`, with γ and the
    entropy factor), so the weight update of a training step depends on
    the loss that train computes. The returns and lambda-returns are
    constants of that differentiation: train copies them into fresh
    tensors (A3C_lambda.py:197-200), so `LossOf` keeps them at the values
    of the forward pass and lets only the value estimates, the
    log-probabilities and the entropy vary with the weights. At the
    forward-pass weights it equals `SegmentLoss`.

`run` does not clear the memory when an episode starts
(A3C_lambda.py:76-83). The memory is empty then only because the last
step of every episode trains and clears it. `PlayEpisode` proves this:
it requires and ensures an empty memory.

## Model

| member | source | states |
|---|---|---|
| Returns.Bootstrap | A3C_lambda.py:170 | the starting value of R is 0 when done and the last state's value estimate otherwise |
| Returns.TerminalValues | A3C_lambda.py:176-178 | `values[-1] = 0` when done changes only the last estimate, and only when done |
| Returns.Returns | A3C_lambda.py:184-194 | one return per reward |
| Returns.LambdaReturns | A3C_lambda.py:184-194 | one lambda-return per reward |
| Returns.ReturnsSuffix | A3C_lambda.py:184-186 | the returns from step i on depend only on the rewards from step i on |
| Returns.LambdaReturnsSuffix | A3C_lambda.py:184-187 | the lambda-returns from step i on depend only on the rewards and values from step i on |
| Returns.ReturnsRecurrence | A3C_lambda.py:184-186 | R_i = r_i + γ·R_(i+1), with the bootstrap value after the last step |
| Returns.LambdaReturnsRecurrence | A3C_lambda.py:184-187 | Rλ_i = r_i + γ·(λ·Rλ_(i+1) + (1−λ)·v_(i+1)), with the bootstrap value after the last step |
| Returns.SegmentReturns | A3C_lambda.py:170-194 | train's returns of a segment: the plain returns of its rewards, bootstrapped from 0 when done and from the last state's estimate otherwise (its properties are the lemmas LastReturn, ReturnsClosedFormAt and TerminalValueIgnored) |
| Returns.SegmentLambdaReturns | A3C_lambda.py:170-194 | train's lambda-returns of a segment, over the estimates with the terminal one zeroed when done (related to SegmentReturns by SegmentLambdaOneIsReturns) |
| Returns.DiscountedSumFirst | A3C_lambda.py:184-186 | a discounted sum is its first reward plus γ times the discounted sum of the rest |
| Returns.ReturnsClosedForm | A3C_lambda.py:170-194 | the first return equals Σ γ^m·r_m + γ^k·bootstrap (independent reference definition) |
| Returns.ReturnsClosedFormAt | A3C_lambda.py:170-194 | every return R_i equals the discounted sum of the rewards from i on plus γ^(k−i)·bootstrap |
| Returns.LambdaOneIsReturns | A3C_lambda.py:174-187 | with λ = 1 the lambda-returns equal the plain returns, whatever the value estimates |
| Returns.SegmentLambdaOneIsReturns | A3C_lambda.py:170-187 | with the λ = 1 train fixes, its two return lists are identical, done or not |
| Returns.LastReturn | A3C_lambda.py:170-186 | the last return is the last reward when done, and the last reward plus γ·values[k] otherwise |
| Returns.LastLambdaReturnDone | A3C_lambda.py:170-187 | when done the last lambda-return is the last reward, for every λ |
| Returns.TerminalValueIgnored | A3C_lambda.py:170-187 | when done, the terminal state's value estimate changes neither return list |
| Returns.FourStepExample | A3C_lambda.py:170-194 | four unit rewards ending in done with γ = 0.9 give returns [3.439, 2.71, 1.9, 1.0] |
| Returns.Reverse | A3C_lambda.py:193-194 | list.reverse(); its meaning is given by ReverseIndex and ReverseReverse |
| Returns.ReverseIndex | A3C_lambda.py:193-194 | reversal keeps the length and moves the element at position i to position n − 1 − i |
| Returns.ReverseReverse | A3C_lambda.py:192-194 | reversing twice gives back the list |
| Returns.BatchReturns | A3C_lambda.py:170-200 | the backward loop with append and reverse yields exactly the segment returns and the segment lambda-returns (LoopStep and LoopDone carry its invariant) |
| Returns.LoopStep | A3C_lambda.py:184-189 | one iteration of the backward loop turns the invariant at i into the invariant at i − 1: the lists hold the returns of the rewards from i on, last first, and R and Rlamda the earliest of them |
| Returns.LoopDone | A3C_lambda.py:193-194 | after the loop, reversing the lists gives the returns in forward order |
| Loss.SquareFacts | A3C_lambda.py:204 | a square is non-negative and zero exactly at zero |
| Loss.Mean | A3C_lambda.py:219 | `.mean()`: the value that, counted once per element, adds up to the sum |
| Loss.CriticLoss | A3C_lambda.py:203-204 | per step (Rλ_i − v_i)² over the first k estimates; never negative, zero exactly when the estimate meets its target |
| Loss.ActorLoss | A3C_lambda.py:211-212 | per step −log p_i·(R_i − v_i); for log p_i < 0 positive iff the advantage is positive and zero iff it is zero; zero for a certain action |
| Loss.SumAdd | A3C_lambda.py:219 | the sum of an element-wise sum is the sum of the sums |
| Loss.MeanAdd | A3C_lambda.py:219 | the mean of an element-wise sum is the sum of the means |
| Loss.TotalLoss | A3C_lambda.py:219 | the total loss equals the mean critic loss plus the mean actor loss minus entropy·factor |
| Loss.CriticMeanNonNegative | A3C_lambda.py:204-219 | the mean critic loss is never negative |
| Loss.PerfectCriticLoss | A3C_lambda.py:203-219 | when every estimate meets its return and lambda-return, the total loss is −entropy·factor |
| Rollout.Memory.constructor | A3C_lambda.py:242-247 | a new memory is empty |
| Rollout.Memory.Add | A3C_lambda.py:249-254 | each list grows by exactly its own new element; lists in lockstep stay in lockstep |
| Rollout.Memory.Clear | A3C_lambda.py:256-261 | all four lists become empty |
| Parameters.StepParameter | A3C_lambda.py:233 | an optimiser step updates every element of a parameter with a gradient by the update rule, leaves one without a gradient unchanged, and keeps the gradient |
| Parameters.Accumulated | A3C_lambda.py:223 | what backward leaves in a slot: element by element the old gradient plus the new one, or the new one in an empty slot |
| Parameters.AccumulatedOnCleared | A3C_lambda.py:222-223 | after zero_grad (zeroed or never filled slot), accumulation leaves exactly the new gradient |
| Parameters.Network.constructor | A3C_lambda.py:46 | a new network holds the given weights and no gradients |
| Parameters.Network.ZeroGrad | A3C_lambda.py:222 | every existing gradient becomes zeros of its parameter's shape; weights unchanged |
| Parameters.Network.Backward | A3C_lambda.py:223 | every gradient slot receives the freshly computed gradient added onto what it held, or the gradient alone in an empty slot; weights unchanged |
| Parameters.Network.Step | A3C_lambda.py:233 | every parameter becomes its optimiser step |
| Parameters.Network.LoadStateDict | A3C_lambda.py:236-237 | the weights become the source's weights; gradients stay |
| Segmenting.SegmentsAdvance | A3C_lambda.py:105-116 | training the next segment moves it from the segments to come to the trained ones |
| Segmenting.Terminates | A3C_lambda.py:83 | the scripted episode is well formed, has at least one transition, and done holds at its last transition and at no other, so `while not done` ends there |
| Segmenting.Fires | A3C_lambda.py:105 | the training condition `steps % t_max == 0 or done` at transition j, whose step counter is j + 1 |
| Segmenting.Segments | A3C_lambda.py:99-119 | the t_max-segments of an episode from transition a on, each as the states, actions, rewards and done flag that train sees |
| Segmenting.SegmentCount | A3C_lambda.py:99-119 | an episode of n transitions from a on is cut into k segments with (k − 1)·t_max < n − a ≤ k·t_max, none when a = n |
| Segmenting.AllSegments | A3C_lambda.py:76-124 | the segments of a list of episodes, episode after episode, in order |
| Segmenting.AllSegmentsPrefix | A3C_lambda.py:76-124 | the segments of the first i episodes are those of the first i − 1 followed by those of episode i |
| Segmenting.AllSegmentsGrow | A3C_lambda.py:76-124 | a record that held the segments of the first i − 1 episodes and then gains episode i's segments holds those of the first i episodes |
| Segmenting.StepKeepsSegments | A3C_lambda.py:99-119 | one loop step keeps trained + remaining segments fixed, and the next segment still starts at a multiple of t_max |
| Segmenting.MultipleOnlyAtBlockEnd | A3C_lambda.py:105 | within a t_max block the step counter is a multiple of t_max only at the block's end |
| Segmenting.FiresExactlyAtSegmentEnd | A3C_lambda.py:105 | `steps % t_max == 0 or done` holds exactly at the last transition of the current segment |
| Segmenting.SegmentShape | A3C_lambda.py:99-110 | every segment trained on has 1 to t_max transitions, as many actions as rewards, and one more state |
| Segmenting.SegmentsCover | A3C_lambda.py:83-119 | the segments' rewards and actions laid end to end are those of the episode |
| Segmenting.OnlyLastSegmentDone | A3C_lambda.py:105-110 | only the last segment of an episode is trained with done set |
| Segmenting.SegmentsChain | A3C_lambda.py:105-120 | a segment's bootstrap state is the first state of the next segment |
| A3C.PlainReturnsLoss | A3C_lambda.py:170-219 | with λ = 1 the loss regresses the critic on the plain returns that weight the actor |
| A3C.SegmentLoss | A3C_lambda.py:166-219 | the total loss of a segment under weights w; by PlainReturnsLoss and Loss.TotalLoss it is the mean squared error against the plain returns plus the mean advantage-weighted negative log-probability minus the entropy bonus |
| A3C.TrainStep | A3C_lambda.py:222-233 | one training step on a segment keeps the shape of every weight tensor; its definition (each weight element moves by the update rule applied to it and to the derivative, at the current weights, of the segment's total loss `LossOf` with γ and the entropy factor, whose returns are held at the forward pass's values) is what StepIsTrainStep ties to the optimiser step |
| A3C.LossOfAtForwardWeights | A3C_lambda.py:197-219 | the function backward differentiates equals the segment's total loss at the forward-pass weights, and at any weights w it is the mean squared error of w's estimates against the forward pass's returns, plus the mean negative log-probability under w weighted by those fixed returns minus w's estimates, minus the entropy bonus under w |
| A3C.StepIsTrainStep | A3C_lambda.py:223-233 | an optimiser step over parameters whose gradient slots hold the segment's gradients yields exactly TrainStep's weights |
| A3C.Replay | A3C_lambda.py:76-124 | training on a list of segments in order keeps the shape of the weights |
| A3C.ReplaySnoc | A3C_lambda.py:105-116 | training on one more segment is one more TrainStep |
| A3C.ReplayAppend | A3C_lambda.py:76-124 | training on two lists one after the other is training on their concatenation |
| A3C.ReplayExtends | A3C_lambda.py:76-124 | if the weights before and after are the initial weights trained on `before` and on `before + segs`, the weights after are the weights before trained on `segs` |
| A3C.EpisodeCounter.constructor | A3C_lambda.py:408 | the shared episode index starts at the given value (0 in the source) |
| A3C.EpisodeCounter.Increment | A3C_lambda.py:123-124 | the shared episode index grows by one |
| A3C.SegmentRecorded | A3C_lambda.py:99-110 | the memory plus the appended next state is exactly the episode's segment and is trainable |
| A3C.Worker.Valid | A3C_lambda.py:39-65 | the local and global networks are distinct, well shaped and hold the same weights between training steps |
| A3C.Worker.Replayed | A3C_lambda.py:76-124 | the global weights are the initial weights trained on every recorded segment in turn |
| A3C.Worker.constructor | A3C_lambda.py:39-65 | the local network starts with the global weights, the memory is empty, nothing has been trained, and Replayed holds |
| A3C.Worker.Train | A3C_lambda.py:158-223 | the loss is the segment's total loss under the local weights; every local gradient slot holds exactly the segment's gradient (zero_grad cleared it before backward accumulated); the global gradients are zeroed; no weights change |
| A3C.Worker.UpdateGlobal | A3C_lambda.py:225-237 | each global gradient is the local gradient, each global parameter took an optimiser step, and the local weights equal the new global weights |
| A3C.Worker.FinishSegment | A3C_lambda.py:105-116 | appends the next state, and then every global parameter becomes the optimiser step of its old data with the segment's gradient under the old local weights; the weights are TrainStep of the old ones, the segment is recorded, Replayed is kept and the memory is empty |
| A3C.Worker.Record | A3C_lambda.py:84-99 | one step's transition is added to the memory, which then holds the transitions a..j with its four lists in lockstep |
| A3C.Worker.Act | A3C_lambda.py:84-120 | one loop iteration trains exactly when the transition closes the current segment, and then on that segment; with Replayed kept, by ReplaySnoc the global weights are one TrainStep on it, and unchanged otherwise |
| A3C.Worker.PlaySteps | A3C_lambda.py:77-120 | the step loop of an episode trains on exactly its t_max-segments in order, and starts and ends with an empty memory |
| A3C.Worker.PlayEpisode | A3C_lambda.py:77-124 | an episode trains on exactly its t_max-segments in order, the global weights become the old ones replayed over those segments, the memory starts and ends empty, and the episode is counted once |
| A3C.Worker.PlayEpisodes | A3C_lambda.py:76-124 | the episode loop of run: max_episodes episodes train on all their segments in order, Replayed is kept, the memory ends empty, and the episode index advances by max_episodes |
| A3C.Worker.Run | A3C_lambda.py:76-124 | max_episodes episodes train on all their segments in order, the global weights become the weights before run replayed over all of them (by ReplayExtends), and the episode index advances by max_episodes |

## Left out

- `ActorCritic.forward`, the softmax and the categorical distribution are not modelled. The value estimate, the log-probability of an action and the entropy term are opaque functions of the weights (`A3C.ActorCritic`). The entropy is taken over all k + 1 states, as in the source.
- Action sampling is random. The actions are part of the scripted episode.
- The gym environment is an external process. Each episode is scripted as its observations, actions, rewards and done flags, and must end with done exactly at its last step (`Segmenting.Terminates`). An episode that never ends is not modelled.
- Autograd is not modelled. `total_loss.backward()` is an opaque derivative operator (`ActorCritic.derivative`) applied to the segment's total loss as a function of the weights with the returns held constant (`A3C.LossOf`), one value per parameter element (`A3C.Gradients`); that this operator is the true derivative is not stated.
- `SharedAdam` and its shared first and second moments are not modelled. `optimizer.step()` is an elementwise rule of weight and gradient applied to every parameter that has a gradient. With Adam, the step also depends on the optimiser state (the step count and the two moments, A3C_lambda.py:18-34, 233), so the `Replay` fold would have to carry that state from one training step to the next.
- The multiprocessing is left out: concurrent workers, shared memory, the lock around the episode index, and process start and join. The model is one worker alone. That is why the local and global weights agree between training steps (`A3C.Worker.Valid`).
- A3C.Worker.Train: `global_param._grad = local_param.grad` makes each global gradient slot and the matching local one the same tensor, so `optimizer.zero_grad()` on the global parameters zeroes the local gradients in place too (the zeroing form of `zero_grad`). The model has value semantics without this aliasing; the explicit zeroing of the local network in `Train` stands for that in-place effect. Under a `zero_grad` that sets gradients to None, the local slots would not be cleared and backward would accumulate onto the previous segment's gradients.
- A3C.EpisodeCounter: `mp.Value('i', 0)` is a 32-bit C int that wraps around after 2^31 − 1 increments; the model's counter is an unbounded integer. The value is only read for printing.
- A3C.Worker.Act: the global weights are stated through `Replayed` and the record of trained segments rather than as a separate postcondition; `ReplaySnoc` turns the two into one `TrainStep`.
- `Memory.values` is recorded but never read by train, which recomputes the values with a forward pass. The model records them in the same way.
- `t_max` must be at least 1; with 0 the source divides by zero.
- `DataStorage`, `total_reward`, the printing and the file output are diagnostics only.
- Floating-point rounding, the float32 tensor conversion and the exp and log of the policy are not modelled; all arithmetic is exact over the reals.
- plot_A3C.py is not part of this model.
