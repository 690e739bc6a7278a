# Dimension C chorus: control logic in Dafny

This project models the control logic of the Dimension C browser chorus
(`DimensionChorus` in `src/main.ts`). The chorus sends its input through a
dry path and through four modulated delay voices. A row of five buttons
selects the mix. Button 0 is "off" and buttons 1 to 4 are presets of rising
intensity. The model covers:

- **Mode selection** (`ModeSelector`). The active modes live in a JavaScript
  `Set<number>`, which iterates in insertion order. The model keeps them as an
  insertion-ordered, duplicate-free `seq<int>`; `InsertionOrderedSet` models
  the set's `delete` and `add`, and `has` is sequence membership. `Toggle` follows `toggleMode` branch by
  branch:
  - mode 0 clears the set;
  - a member is deleted;
  - a non-member is added at the end, after evicting the first-inserted member
    when two are already active;
  - finally 0 is deleted.
  
  `Run` folds a sequence of toggles. `Reachable` is the set of states a run of
  button presses can reach from the initial state `[1]`.
- **Preset table and blend** (`ModeTable`, `Blender`). The table has five
  entries, as exact reals. `Blend` is the configuration `updateAudio` computes:
  - no mode gives entry 0;
  - one mode gives its own entry;
  - two modes give the elementwise mean of the two entries.
- **Voices** (`VoiceBank`). Voice `i` has base delay `0.005 + 0.002*i` s and
  oscillator rate `0.5 + 0.13*i` Hz, on a 0.1 s delay line. Each depth gain
  starts at 0.002. `SweepFits` states that the swept delay time
  `base ± depth` stays inside the line.
- **Glide targets** (`Smoother`). `updateAudio` asks the audio engine to glide
  three kinds of gain towards new values, each with time constant 0.01 s: the
  dry gain, the wet gain, and each voice's depth gain. `Targets` lists those
  requests.
- **One control step** (`Chorus`). `ToggleMode` is a toggle followed by
  `updateAudio`. `Construct` is the constructor's first `updateAudio` on the
  initial state. Four example runs are lemmas about it: 1 then 2; 1 and 2
  then 1; off; off then 3 then 4.

The model follows the code. Two of its behaviours are worth spelling out:

- **Toggling the same mode twice.** One might expect this to restore the
  previous state. The code does so only in two cases: the mode was absent
  and fewer than two modes were active, or the mode was the newest member.
  `DoubleToggleRestores` proves those two cases. `DoubleToggleReorders`
  proves what happens in the other two:
  - the older of two members moves to the end;
  - a mode toggled in while two were active evicts the older one, and that
    mode does not come back.
- **Out-of-range ids.** `toggleMode` has no range check. `Toggle` accepts
  any id, as the code does. `Blend` requires that the ids it reads be table
  indices; for any other id the code reads `undefined` and throws.
  `ToggleMode` takes only the ids the buttons pass, 0 to 4.

## Model

| member | source | states |
|---|---|---|
| InsertionOrderedSet.Delete | src/main.ts:61 | `set.delete(x)`: the result has exactly the old members other than `x`; it is shorter when `x` was present and unchanged otherwise; no duplicates appear; a last element other than `x` stays last |
| InsertionOrderedSet.Add | src/main.ts:67 | `set.add(x)`: members become the old ones plus `x`; an absent `x` goes to the end after the unchanged old order; a present `x` changes nothing |
| InsertionOrderedSet.DeleteAt | src/main.ts:64-65 | deleting the value at position `i` of a duplicate-free set closes the gap and keeps every other element in order (this is how the oldest mode is evicted) |
| ModeTable.Entry | src/main.ts:79-85 | every preset has wet and dry in [0,1] and four depths in [0, 0.0025]; entry 0 is wet 0, dry 1, all depths 0 |
| ModeTable.TableMonotone | src/main.ts:80-84 | from a lower mode to a higher one, wet rises strictly, dry falls strictly and no depth shrinks |
| ModeTable.ActiveVoices | src/main.ts:80-84 | mode `m` has a positive depth exactly on its first `m` voices |
| ModeSelector.Toggle | src/main.ts:56-70 | toggle 0 yields the empty state; otherwise 0 is absent afterwards, the mode's membership flips, nothing but the mode is added, a newly added mode is last, duplicates never appear and at most two modes remain |
| ModeSelector.ToggleKeepsInv | src/main.ts:56-70 | a toggle with id 0..4 keeps the state at most two distinct presets from 1..4 |
| ModeSelector.ToggleRemovesMember | src/main.ts:60-61 | toggling an active mode removes exactly that mode and leaves the other in its place |
| ModeSelector.ToggleAppends | src/main.ts:62-67 | toggling an inactive mode appends it; with two active, the first-inserted one is evicted whatever its id |
| ModeSelector.FifoEvictionExample | src/main.ts:63-67 | from empty, toggling 2, 4, 1 gives `[4, 1]`: eviction is by insertion order, not by id |
| ModeSelector.DoubleToggleRestores | src/main.ts:60-67 | toggling a mode twice restores the exact state when it was absent with fewer than two active, or was the newest member |
| ModeSelector.DoubleToggleReorders | src/main.ts:60-67 | in the two remaining cases the state is not restored: when the mode was the oldest of two, the same members return with it moved to the end; when it was absent with two active, the evicted mode stays lost |
| ModeSelector.RunKeepsInv | src/main.ts:56-70 | any run of button presses from a state that keeps the invariant keeps it |
| ModeSelector.RebuildFromOff | src/main.ts:56-70 | pressing off and then the modes of any invariant state in order rebuilds that state from the initial state |
| ModeSelector.ReachableHasInv | src/main.ts:12 | every state reachable from the initial `[1]` has at most two distinct presets from 1..4 |
| ModeSelector.InvIsReachable | src/main.ts:56-70 | every such state is reachable by button presses |
| ModeSelector.ReachableIffInv | src/main.ts:56-70 | reachable states are exactly the states with at most two distinct presets from 1..4 |
| Blender.Mean | src/main.ts:98-99 | the mean of two levels is equidistant from both |
| Blender.MeanDepths | src/main.ts:100 | the mean depth list is as long as the first list and each position is equidistant from the two inputs |
| Blender.Average | src/main.ts:97-101 | wet, dry and every depth of the result are midpoints of the two configurations' values |
| Blender.Blend | src/main.ts:87-102 | no mode gives entry 0, one mode gives its entry verbatim, two give the midpoint of both entries' wet, dry and every depth; always four depths |
| Blender.BlendSymmetric | src/main.ts:92-101 | the blend of two modes does not depend on their order |
| Blender.BlendDependsOnMembership | src/main.ts:87-102 | two reachable states with the same members blend to the same configuration |
| Blender.BlendWellFormed | src/main.ts:79-102 | every reachable state blends to wet and dry in [0,1] and four depths in [0, 0.0025] |
| VoiceBank.VoiceAt | src/main.ts:29-38 | voice `i` has base delay within [5 ms, 11 ms], oscillator rate within [0.5, 0.89] Hz, a sine waveform and a 0.1 s delay line |
| VoiceBank.Voices | src/main.ts:29-48 | the bank has one voice per index, four in all, in construction order |
| VoiceBank.VoicesStaggered | src/main.ts:31-37 | later voices have strictly longer base delays and strictly faster oscillators |
| VoiceBank.SweepFitsUpToMaxDepth | src/main.ts:30-41 | with any depth in [0, 0.0025] each voice's delay sweep stays strictly inside (0, 0.1 s) |
| VoiceBank.InitialSweepFits | src/main.ts:30-34 | the starting depth 0.002 lies within [0, 0.0025], so each voice's first sweep stays inside its 0.1 s line |
| Smoother.Targets | src/main.ts:104-123 | one glide per gain, no gain twice, every glide with time constant 0.01 and the value the configuration prescribes; depths without a voice are skipped |
| Smoother.TargetsCoverEveryGain | src/main.ts:115-123 | with four depths, the dry gain, the wet gain and each voice's depth gain all receive their prescribed value |
| Chorus.Apply | src/main.ts:75-124 | applying a reachable state yields a well-formed configuration, six glides at 0.01 s, and sweeps that fit every delay line |
| Chorus.Construct | src/main.ts:12-24 | a new chorus has mode 1 active and applies preset 1 |
| Chorus.ToggleMode | src/main.ts:56-73 | a button press keeps the invariant; off yields the empty state with preset 0; otherwise the mode's membership flips; the applied configuration is well formed and every voice's sweep fits its delay line |
| Chorus.ScenarioAddSecond | src/main.ts:92-101 | from `[1]`, pressing 2 gives `[1, 2]` with wet 0.35, dry 0.825, depths `[0.00125, 0.0006, 0, 0]` |
| Chorus.ScenarioRemoveFirst | src/main.ts:60-61 | from `[1, 2]`, pressing 1 gives `[2]` with preset 2 verbatim |
| Chorus.ScenarioOff | src/main.ts:57-58 | pressing off from any reachable state applies wet 0, dry 1, depths all 0 |
| Chorus.ScenarioPressThree | src/main.ts:62-67 | from off, pressing 3 gives `[3]` |
| Chorus.ScenarioPressFour | src/main.ts:62-67 | from `[3]`, pressing 4 gives `[3, 4]` with no eviction, and the mean of presets 3 and 4 |
| Chorus.ScenarioThreeFour | src/main.ts:62-67 | from off, pressing 3 then 4 gives `[3, 4]`, with wet 0.55, dry 0.725 and depths `[0.00225, 0.0019, 0.00165, 0.00075]` |

## Left out

- The Web Audio graph is not modelled. That covers creating and connecting
  gain, delay and oscillator nodes, starting the oscillators, `connect` and
  `getContext` (src/main.ts:14-22, 26-54, 126-133). These are calls into an
  audio engine whose code is not visible. Only their numeric constants are
  kept, in `VoiceBank`.
- The glide curve of `setTargetAtTime` is not modelled. It is a
  continuous-time exponential computed inside the audio engine. `Smoother`
  records only the targets and the 0.01 s time constant. A first-order glide
  reaches about 63% of the way at one time constant and never overshoots.
  That is a property of the engine and is not proved here.
- Microphone capture, page rendering, button wiring, the start button and the
  button highlighting (src/main.ts:140-211) are not modelled. They are I/O and
  user-interface code.
- `getActiveModes` (src/main.ts:135-137) is not modelled. It returns the live
  set itself rather than a copy, and that aliasing does not affect the control
  logic.
- Floating-point rounding is not modelled. Levels, depths, base delays and
  rates are exact reals, so `0.005 + i * 0.002` and the `/ 2` averages carry
  no rounding error.
- Ids outside 0..4 are not modelled past `Toggle`. `Blend` requires the ids it
  reads to be table indices, because the code throws on `undefined` otherwise
  (src/main.ts:90-91, 104-105). `ToggleMode` takes only the button indices
  0..4 (src/main.ts:157-159).
- Callers other than the buttons are not modelled. `ToggleMode` requires the
  current state to keep the invariant. That stands in for the facts that the
  state is private and starts at `[1]`. `ReachableIffInv` proves that this
  covers every reachable state.
