# Verification of the Karabiner-Elements input pipeline

Karabiner-Elements turns HID reports into queue entries, sends the entries
through a chain of event queues, and keeps track of which modifiers and buttons
are pressed on the way. This project models that engine and some neighbouring
protocols and data structures in Dafny, and proves what they keep over whole
runs. `dafny verify dfyconfig.toml` checks everything.

## How the model is laid out

| file | models |
|---|---|
| `types.dfy`, `sequences.dfy` | shared values, and lemmas about filtering sequences |
| `active_modifier_flag.dfy`, `modifier_flag_list.dfy`, `modifier_flag_manager.dfy`, `erase_pairs_theorems.dfy` | the list of signed modifier entries, and the counters it stands for |
| `scoped_modifier_flags.dfy`, `scoped_modifier_flags_theorems.dfy` | the scope that forces an exact set of modifiers |
| `pointing_button_manager.dfy` | the list of pressed pointing buttons |
| `event_queue_entry.dfy`, `event_queue_sort.dfy`, `event_queue.dfy`, `event_queue_meaning.dfy` | entries, the reordering of entries with one timestamp, the queue object, and what each kind of entry does to the counters and buttons |
| `manipulator_manager.dfy`, `manipulator_step_theorems.dfy`, `manipulator_managers_connector.dfy`, `manipulator_pipeline_theorems.dfy` | one step of a stage, draining a stage, a pass over a chain of stages |
| `set_variables_from_stdin.dfy`, `set_variables_protocol.dfy`, `set_variables_history.dfy` | delivery of variables read from standard input, as objects and as a transition system, and what the event history says about sends, failures and aborts |
| `keyboard_fallback_loop_guard.dfy`, `keyboard_fallback_reference.dfy`, `keyboard_suppression.dfy` | the rate limiter, a reference for its answers, and the queue of expiring entries |
| `json_merge_patch.dfy` | the patch maker of the settings window against section 2 of RFC 7396 |
| `hid_value_entries.dfy`, `hid_switch_theorems.dfy`, `motion_coalescing_theorems.dfy`, `device_keys_released.dfy` | HID values to entries, what the entries say about the values, and the event inserted when the last key is released |
| `delta_stream.dfy`, `hat_switch_convert.dfy`, `elecom_trackball.dfy` | two decoders that report only what changed |
| `string_marshalling.dfy` | multi-line strings in the configuration file |
| `duktape_heap.dfy` | the accounting of the capped script allocator |

Objects whose methods update fields are classes. Every such method is proved to
compute a function of the old state, and the theorems are about that function:
about every list, every run of operations, or every interleaving.

Some members are easier to read with these definitions in mind.

- `Canonical` (`modifier_flag_list.dfy`) is the invariant of the flag list: no
  two entries are opposite, lock entries occur once, and the only LED entry is
  the one that switches on, on device 0. `Counter` is the signed number of
  entries of one kind, flag and device; `StepCounter` is what an operation means
  for one such counter, and looks at no other one.
- `Sort` (`event_queue_sort.dfy`) inserts the entries one after the other from
  the right. It is the reference that the in-place loop is compared with; the
  relation `NeedsSwap` is not transitive, so no order is available.
- `Replay` (`event_queue.dfy`) is the modifier and button state after a list of
  entries was pushed to a queue.
- `Next` (`set_variables_protocol.dfy`) is one atomic step. The input thread can
  act between any two critical sections of a dispatcher task, replies can arrive
  at any time, and the components manager can be destroyed and created again.
- `Marks` and `IsOn` (`set_variables_history.dfy`) label every event of a run as
  setting a flag, clearing it or neither; the flag is on if some event set it and
  none cleared it since.
- `PastOf` (`keyboard_fallback_reference.dfy`) lists the calls that counted since the last
  suspension and the time of that suspension, and never purges.
- `PartIn` (`manipulator_step_theorems.dfy`) is the table of event kinds: the manipulators
  decide about the entry, only hear of it, or miss it.
- `Ledger` (`keyboard_suppression.dfy`) keeps every entry with its expiry and
  never purges; it is what purging from the front is compared with.

## Where a property fails

Each item names the exact condition first, and then an input.

- A scope is transparent, and forces exactly the requested set, if there is at
  most one lock entry per flag. With several lock entries on different devices
  it is not, because lock entries on device 0 saturate: `ScopeForces` and
  `ScopeTransparentIff`; `TwoLocksDefeatScope`.
- Erasing pairs can leave a pair on an arbitrary list, because the entry that
  moves to the front after an erasure there is skipped: `ErasePairsOnAnyList`;
  `SecondPairStays`. It never happens on a list the manager holds
  (`ErasePairsAfterAppend`, `RunRefines`).
- Reordering puts presses before and releases after the keys of their run, unless
  a run mixes a key with a release that precedes a press:
  `SortPrioritizesModifiersIff`; `ReleaseKeyPressStaysInverted`.
- The rate bound needs a suspension at least as long as the window:
  `RateBoundIff`; `ShortSuspensionBreaksBound`, for every shorter one.
- Purging from the front is not exact without a time to live: `ExactIff`;
  `BornDead`, for every such configuration.
- A multi-line string that ends in a newline loses exactly one newline when it
  is saved and loaded: `RoundTripIff`; `TrailingNewlineIsLost`. An array of lines
  survives loading and saving exactly if it has two lines or more, none of them
  holding a newline and the last one not empty: `ReloadIff`; `ShortArraysChange`.
- Making and applying a merge patch fails exactly if a key disappears or a null
  is written into an object: `PatchRoundTripIff`; `LostKeyStays`, `NewNullIsLost`.
- A scaled motion value changes its sign exactly if the multiplier is negative
  and the product reaches one: `SignKeptIff`; `NegativeMultiplierFlips`.
- The allocator adds a header to each request in 64 bits. Its count is wrong
  exactly if that addition wraps and the count wraps with it, to a value within
  the limit: `AllocAccountedIff`, `ReallocAccountedIff`; `WrappedHeaderMiscounts`.

## Model

| member | source | states |
|---|---|---|
| ActiveModifierFlags.MakeActiveFlag | src/share/modifier_flag_manager/active_modifier_flag.hpp:16-42 | an LED lock entry always gets device 0, every other entry keeps its device |
| ActiveModifierFlags.PairedIffOpposite | src/share/modifier_flag_manager/active_modifier_flag.hpp:56-147 | two entries are paired exactly if they belong to one counter and have opposite signs |
| ModifierFlagManagers.ModifierFlagManager.PushBack | src/share/modifier_flag_manager.hpp:20-55 | a push keeps the list canonical and moves every counter as specified, its own and no other |
| ModifierFlagManagers.ModifierFlagManager.EraseAllPairs | src/share/modifier_flag_manager.hpp:208-221 | the nested in-place loops end and compute the recursive cancellation |
| ModifierFlagManagers.ModifierFlagManager.Erase | src/share/modifier_flag_manager.hpp:57-95 | the erasing operations keep the list canonical and zero exactly the counters they name |
| ModifierFlagManagers.ModifierFlagManager.IsPressed | src/share/modifier_flag_manager.hpp:97-121 | the counting loop decides by the non-LED entries, and by the LED entries only if there are no others |
| ModifierFlagLists.ErasePairsAfterAppend | src/share/modifier_flag_manager.hpp:208-221 | on a pair-free list with one entry appended, the loops remove the oldest opposite entry and the new one, or nothing |
| ModifierFlagLists.ApplyRefines | src/share/modifier_flag_manager.hpp:20-95 | every operation keeps the list canonical and refines the step of every counter |
| ModifierFlagLists.RunRefines | src/share/modifier_flag_manager.hpp:20-95 | over every run of pushes and erases the list is canonical and stands for the counters of the run |
| ModifierFlagLists.CountersDetermineList | src/share/modifier_flag_manager.hpp:20-95 | two canonical lists with equal counters hold the same entries |
| ModifierFlagLists.CanonicalAt | src/share/modifier_flag_manager.hpp:20-55 | in a canonical list lock counters are in [-1, 1], LED counters are 0 or 1 and on device 0, and multiplicities follow the counters |
| ModifierFlagLists.PressedIsCounterFormula | src/share/modifier_flag_manager.hpp:97-121 | after any run a flag is pressed exactly if the sum of its counters is positive, or all are zero and its LED counter is on |
| ModifierFlagLists.ErasedEntries | src/share/modifier_flag_manager.hpp:57-95 | which entries each erasing operation drops, by entry type, flag and device |
| ErasePairsTheorems.ErasePairsOnAnyList | src/share/modifier_flag_manager.hpp:208-221 | on every list cancelling moves no counter, and leaves a pair exactly if the entry that moved to the front faces opposite ones |
| ErasePairsTheorems.SecondPairStays | src/share/modifier_flag_manager.hpp:208-221 | on a list of two pairs the loops erase the first pair and leave the second one |
| ScopedModifierFlags.ScopedModifierFlags.constructor | src/share/modifier_flag_manager/scoped_modifier_flags.hpp:5-39 | the constructor ends, and what it pushed and remembered is the specified list of entries, over the flags that `ScopedFlagsAreAll` fixes |
| ScopedModifierFlags.ScopedModifierFlags.ForceOn | src/share/modifier_flag_manager/scoped_modifier_flags.hpp:20-25 | the while loop ends for every state of the flag, pushing increases until it counts as pressed |
| ScopedModifierFlags.ScopedModifierFlags.ForceOff | src/share/modifier_flag_manager/scoped_modifier_flags.hpp:26-37 | pushes the inverse of every entry of a copy of the list, on device 0 |
| ScopedModifierFlags.ScopedModifierFlags.InverseActiveFlags | src/share/modifier_flag_manager/scoped_modifier_flags.hpp:51-59 | the inverses of the remembered entries, in the order they were pushed |
| ScopedModifierFlags.ScopedModifierFlags.Destroy | src/share/modifier_flag_manager/scoped_modifier_flags.hpp:41-45 | the destructor pushes those inverses |
| ScopeTheorems.ScopeForces | src/share/modifier_flag_manager/scoped_modifier_flags.hpp:8-38 | once constructed, a controlled flag is pressed exactly if it was asked for, or was pressed with lock entries that outlast their inverses |
| ScopeTheorems.ScopeTransparentIff | src/share/modifier_flag_manager/scoped_modifier_flags.hpp:5-59 | construct, run any plain or sticky pushes on any devices, and locks or erasures of hardware devices, destroy: the entries equal those without the scope exactly if the locks of every flag forced off survive saturation |
| ScopeTheorems.OneLockSuffices | src/share/modifier_flag_manager/scoped_modifier_flags.hpp:26-45 | one lock entry, on any device, is undone and restored exactly |
| ScopeTheorems.ScopeWithOneLock | src/share/modifier_flag_manager/scoped_modifier_flags.hpp:5-59 | with at most one lock entry per flag the scope forces exactly the requested set and leaves no trace |
| ScopeTheorems.ConstructUseDestroy | src/share/modifier_flag_manager/scoped_modifier_flags.hpp:5-59 | on the objects, with at most one lock entry per flag: while the scope lives every flag but the two sentinels is pressed exactly if it is wanted, and after it only what was done meanwhile has left a trace |
| ScopeTheorems.ScopedFlagsAreAll | src/share/modifier_flag_manager/scoped_modifier_flags.hpp:8-19 | the scope controls every flag but the two sentinels, each listed once |
| ScopeTheorems.TwoLocksDefeatScope | src/share/modifier_flag_manager/scoped_modifier_flags.hpp:5-45 | after two pushes of a lock on two devices, a scope that asks for nothing leaves the flag pressed, and once destroyed has changed the entries |
| PointingButtonManagers.PointingButtonManager.PushBack | src/share/pointing_button_manager.hpp:68-88 | a press is appended, a release removes every press of that button, undefined usages are ignored |
| PointingButtonManagers.PointingButtonManager.IsPressed | src/share/pointing_button_manager.hpp:107-117 | the counting loop against the signed count |
| PointingButtonManagers.PressedIffHeld | src/share/pointing_button_manager.hpp:107-117 | a button is pressed exactly if an entry for it is in the list |
| PointingButtonManagers.ReleaseClears | src/share/pointing_button_manager.hpp:68-88 | one release ends every press of that button on all devices, and touches no other button |
| EventQueueSort.NeedsSwapShape | src/share/event_queue/queue.hpp:280-357 | a swap is needed exactly for a key before a press, or a release before a key, with one timestamp; never both ways |
| EventQueueSort.NeedsSwapTable | src/share/event_queue/queue.hpp:280-357 | for every pair of event types, when a key and a shift swap, in either order; two keys and two modifiers never do |
| EventQueues.Queue.SortEvents | src/share/event_queue/queue.hpp:263-278 | the loop that steps back ends, and its result is the fold of insertions |
| EventQueueSort.SwapRemovesOneInversion | src/share/event_queue/queue.hpp:263-278 | every swap of the loop removes exactly one inversion |
| EventQueueSort.SwapKeepsSort | src/share/event_queue/queue.hpp:263-278 | a swap of the loop does not change what the queue sorts to |
| EventQueueSort.SortStable | src/share/event_queue/queue.hpp:263-278 | no two neighbours of the result need a swap |
| EventQueueSort.SortKeeps | src/share/event_queue/queue.hpp:263-357 | a permutation with timestamps fixed index by index, other events fixed in place, and modifiers among themselves and keys among themselves in order |
| EventQueueSort.SortIdempotent | src/share/event_queue/queue.hpp:263-278 | sorting twice is sorting once |
| EventQueueSort.SortIncremental | src/share/event_queue/queue.hpp:263-278 | sorting after every push equals one sort of all entries |
| EventQueueSort.SortPrioritizesModifiersIff | src/share/event_queue/queue.hpp:280-357 | after sorting every press precedes the keys of its run and every release follows them, exactly if no run mixes a key with a release ahead of a press |
| EventQueueSort.ReleaseKeyPressStaysInverted | src/share/event_queue/queue.hpp:263-357 | a release, a key and a press with one timestamp sort to key, release, press: the key still precedes the press |
| EventQueues.UpdateCanonical | src/share/event_queue/queue.hpp:45-102 | following an entry keeps the modifier list canonical |
| EventQueues.NeededSwapCommutes | src/share/event_queue/queue.hpp:45-69 | two entries that need a swap can be followed in either order, with exactly the same lists |
| EventQueues.SortPreservesMeaning | src/share/event_queue/queue.hpp:45-69 | from any reachable state, replaying the sorted queue gives exactly the modifier and button lists of the original one |
| EventQueueMeaning.FlagRoundTrip | src/share/types/momentary_switch_event.hpp:40-132 | a flag made into a switch is read back as that flag, except caps lock and the two sentinels, and only fn has a second switch |
| EventQueueMeaning.ModifierFollows | src/share/event_queue/queue.hpp:45-53 | a modifier entry moves the plain counter of its flag and device, by one up exactly on a key_down and by one down otherwise, and no other counter |
| EventQueueMeaning.KeyFollows | src/share/event_queue/queue.hpp:64-69 | any other switch zeroes the sticky counters exactly on a valid key_down, and moves no other counter |
| EventQueueMeaning.StickyFollows | src/share/event_queue/queue.hpp:71-91 | a sticky event moves one sticky counter: up when on, down when off, and when toggled down exactly if the flag has a sticky counter that is not zero |
| EventQueueMeaning.LedFollows | src/share/event_queue/queue.hpp:93-102 | the caps lock LED sets the LED counter of caps lock on device 0, to one exactly for a nonzero value, and no other counter |
| EventQueueMeaning.ButtonFollows | src/share/pointing_button_manager.hpp:68-117 | a pointing button is pressed after a key_down of its switch, not pressed after any other entry of its switch, and as before after every other entry |
| EventQueueMeaning.ButtonEntries | src/share/pointing_button_manager.hpp:68-88 | a press is kept for its button and device, a release drops every press of its button, and any other switch keeps all |
| EventQueueMeaning.ReplayIsBalance | src/share/event_queue/queue.hpp:45-102 | replaying any queue adds to a plain counter the presses less the releases of its flag on its device, whatever else the queue holds |
| EventQueues.Queue.EmplaceBackEntry | src/share/event_queue/queue.hpp:19-102 | appends the entry with the delay added to its timestamp, and follows it in both managers, which the rows of `EventQueueMeaning` put in terms of counters and buttons |
| EventQueues.Queue.EraseFrontEvent | src/share/event_queue/queue.hpp:204-209 | drops the front entry, and resets the delay exactly if the queue is empty then |
| EventQueues.Queue.StickySize | src/share/modifier_flag_manager.hpp:139-145 | counts the sticky entries of a flag |
| ManipulatorManagers.ManipulatorManager.Manipulate | src/share/manipulator/manipulator_manager.hpp:45-173 | one step with arbitrary manipulator answers: both queues, the answer and the manipulator list afterwards; `StepByKind` says what that means for every kind |
| ManipulatorManagers.ManipulatorManager.Ask | src/share/manipulator/manipulator_manager.hpp:54-152 | the switch over the kind of the front event, with its early exits; which kinds go where is fixed by `StepByKind` |
| ManipulatorManagers.ManipulatorManager.RemoveInvalidManipulators | src/share/manipulator/manipulator_manager.hpp:204-214 | keeps what is valid or still active |
| ManipulatorManagers.StepConserves | src/share/manipulator/manipulator_manager.hpp:45-173 | a step goes on exactly if no manipulator that is asked waits, and then takes exactly the front entry; the output gains exactly what was posted, and the entry itself exactly if it is still valid |
| ManipulatorManagers.JudgeMeans | src/share/manipulator/manipulator_manager.hpp:54-152 | for the kinds that `StepByKind` lists, the switch amounts to: who is asked up to the first that waits, what they do in turn, and the validity they leave |
| ManipulatorStepTheorems.StepByKind | src/share/manipulator/manipulator_manager.hpp:54-164 | by kind, in a table of all constructors: who can hold the entry back or stop it, and exactly what the output gains |
| ManipulatorStepTheorems.OnlyDecidedKindsAreStopped | src/share/manipulator/manipulator_manager.hpp:54-164 | a manipulator that invalidates what it is asked about stops a valid entry exactly if the table lets it decide about the kind |
| ManipulatorStepTheorems.AnswerReplaces | src/share/manipulator/manipulator_manager.hpp:104-164 | a manipulator that invalidates an entry it is asked about and posts others replaces it by them, each with the delay in force at its turn |
| ManipulatorStepTheorems.LastValidityIff | src/share/manipulator/manipulator_manager.hpp:133-147 | the last manipulator that sets the validity decides it, and without one it stays |
| ManipulatorStepTheorems.StepErasesByKind | src/share/manipulator/manipulator_manager.hpp:55-89 | which counters and which buttons of which device a step clears, for every kind |
| ManipulatorStepTheorems.StepKeepsInputDelay | src/share/manipulator/manipulator_manager.hpp:154-164 | the delay of the input queue survives unless the queue is empty then |
| ManipulatorManagers.ConsultStops | src/share/manipulator/manipulator_manager.hpp:133-147 | after a manipulator that waits nobody else is asked |
| ManipulatorManagersConnectors.Connection.Manipulate | src/share/manipulator/manipulator_managers_connector.hpp:30-43 | the endless loop ends for arbitrary manipulators, and drains as specified |
| ManipulatorManagersConnectors.Connector.EmplaceBackChained | src/share/manipulator/manipulator_managers_connector.hpp:94-105 | an error without a stage before it, otherwise the new stage reads what the last one writes, and a chain stays a chain |
| ManipulatorManagersConnectors.Connector.Manipulate | src/share/manipulator/manipulator_managers_connector.hpp:107-115 | one pass drains the stages in order, every queue object ending in the specified state |
| PipelineTheorems.DrainConserves | src/share/manipulator/manipulator_managers_connector.hpp:30-43 | as many steps as entries taken; the output is, as a multiset, what it held, everything that was posted and exactly the forwarded entries; the input ends empty if nobody waits |
| PipelineTheorems.PassEmpties | src/share/manipulator/manipulator_managers_connector.hpp:107-115 | a pass in which nobody waits leaves every queue but the last empty |
| PipelineTheorems.QuietChain | src/share/manipulator/manipulator_managers_connector.hpp:107-115 | a chain of any length of stages that do nothing ends with exactly one sort of the valid input entries in its last queue |
| PipelineTheorems.ReorderingIsInvisibleToManagers | src/share/manipulator/manipulator_manager.hpp:154-164 | reordering changes no modifier or button state of any queue of such a chain, if no valid entry carries a switch under a kind on which a stage erases |
| PipelineTheorems.ErasingSwitchIsSeen | src/share/manipulator/manipulator_manager.hpp:54-73 | a switch under a kind on which a stage erases, and a press that reordering moves ahead of it: the state differs |
| SetVariablesFromStdin.Runner.GetPendingVariables | src/bin/cli/src/set_variables_from_stdin.hpp:182-191 | the front, unless it is missing or the end marker |
| SetVariablesFromStdin.Runner.CompletePendingVariables | src/bin/cli/src/set_variables_from_stdin.hpp:205-211 | pops the front if there is one |
| SetVariablesFromStdin.Runner.CompleteInputIfFront | src/bin/cli/src/set_variables_from_stdin.hpp:213-230 | pops and notifies exactly if the end marker is in front |
| SetVariablesFromStdin.Runner.AbortPendingVariablesIfInputComplete | src/bin/cli/src/set_variables_from_stdin.hpp:232-251 | clears and notifies exactly if the end marker is at the back |
| SetVariablesFromStdin.ComponentsManager.ProcessPendingTask | src/bin/cli/src/set_variables_from_stdin.hpp:96-161 | one run of the pending task with all its early returns, and what it sends; `SendsNeedAConnection`, `FailedIff` and `AbortsExactly` say when over whole runs |
| SetVariablesFromStdin.ComponentsManager.OnReply | src/bin/cli/src/set_variables_from_stdin.hpp:139-160 | the completion handler for success and error |
| SetVariablesProtocol.NextInv | src/bin/cli/src/set_variables_from_stdin.hpp:47-251 | every atomic step of either thread keeps the invariant |
| SetVariablesProtocol.RunInv | src/bin/cli/src/set_variables_from_stdin.hpp:47-251 | the invariant holds after every interleaving |
| SetVariablesProtocol.RequestIsFront | src/bin/cli/src/set_variables_from_stdin.hpp:113-127 | in every interleaving a stored request equals the front of the queue |
| SetVariablesProtocol.DeliveredInOrder | src/bin/cli/src/set_variables_from_stdin.hpp:96-161 | what was popped is a prefix of the input, and what was sent walks through the input with repeats but no skip |
| SetVariablesProtocol.ReplyPopsWhatItAcknowledged | src/bin/cli/src/set_variables_from_stdin.hpp:139-148 | a successful reply pops exactly the variables it acknowledges, or nothing after an abort |
| SetVariablesProtocol.LateReplyIgnored | src/bin/cli/src/set_variables_from_stdin.hpp:71-81 | whatever happens after a manager was destroyed, in any number of steps and with any later managers, a reply for one of its handlers changes nothing |
| SetVariablesProtocol.CompletionIsSound | src/bin/cli/src/set_variables_from_stdin.hpp:213-251 | at most one notice; through the marker only with everything acknowledged and popped, through an abort only after end of input and a failure in the history |
| SetVariablesHistory.ConnectedIff | src/bin/cli/src/set_variables_from_stdin.hpp:45-81 | in every interleaving the manager is connected exactly if a connection was made and neither lost nor given up since |
| SetVariablesHistory.SendsNeedAConnection | src/bin/cli/src/set_variables_from_stdin.hpp:96-130 | in every interleaving a send starts alive, connected and with nothing in flight, and the last connection event before it made the connection |
| SetVariablesHistory.FailedIff | src/bin/cli/src/set_variables_from_stdin.hpp:45-161 | in every interleaving the failure flag is set exactly if a lost connection or an error was not wiped out since |
| SetVariablesHistory.AbortsExactly | src/bin/cli/src/set_variables_from_stdin.hpp:96-161 | in every interleaving the wait is aborted exactly when the end of the input is queued and a task finds a failure, or an error arrives |
| SetVariablesHistory.RetriesAfterError | src/bin/cli/src/set_variables_from_stdin.hpp:96-161 | after an error the next task of a connected manager sends the same value again, and nothing is popped |
| SetVariablesProtocol.TaskIsItsSteps | src/bin/cli/src/set_variables_from_stdin.hpp:96-161 | undisturbed, the atomic steps of a task add up to the method |
| SetVariablesProtocol.HealthyDelivers | src/bin/cli/src/set_variables_from_stdin.hpp:96-161 | from any healthy reachable state some schedule of tasks and acknowledgements delivers the whole input and completes |
| KeyboardFallbackLoopGuards.KeyboardFallbackLoopGuard.ShouldSuspend | src/share/keyboard_fallback_loop_guard.hpp:23-57 | the answer and the new state of one call |
| KeyboardFallbackLoopGuards.KeyboardFallbackLoopGuard.PurgeExpired | src/share/keyboard_fallback_loop_guard.hpp:62-68 | the purging loop |
| KeyboardFallbackReference.GuardAnswersAsReference | src/share/keyboard_fallback_loop_guard.hpp:23-68 | for every configuration and every run on a clock that never runs back: suspended exactly during a suspension, or when the window already holds as many calls of the key as the threshold allows |
| KeyboardFallbackLoopGuards.RateBoundHolds | src/share/keyboard_fallback_loop_guard.hpp:23-68 | with a clock that never runs back and a suspension no shorter than the window, no window of any run lets more than the threshold through for a key |
| KeyboardFallbackLoopGuards.ShortSuspensionBreaksBound | src/share/keyboard_fallback_loop_guard.hpp:23-57 | a burst and one call after a shorter suspension break the bound |
| KeyboardFallbackLoopGuards.RateBoundIff | src/share/keyboard_fallback_loop_guard.hpp:23-68 | the bound holds over all runs exactly if the suspension is no shorter than the window, or there is nothing to bound |
| KeyboardSuppressions.KeyboardSuppression.EnqueueEvent | src/share/keyboard_suppression.hpp:52-73 | one enqueue, with ignored events and overflow |
| KeyboardSuppressions.KeyboardSuppression.ConsumeEvent | src/share/keyboard_suppression.hpp:75-94 | one consume, erasing in the middle |
| KeyboardSuppressions.KeyboardSuppression.Purge | src/share/keyboard_suppression.hpp:103-116 | the purging loop |
| KeyboardSuppressions.PurgingIsExact | src/share/keyboard_suppression.hpp:52-116 | in every run the deque is the ledger filtered by expiry, a consume succeeds exactly if the ledger has a live match, and the size stays within the maximum |
| KeyboardSuppressions.IgnoredLeaveNoTrace | src/share/keyboard_suppression.hpp:52-60 | enqueueing an undefined switch or a pointing button changes nothing |
| KeyboardSuppressions.AcceptedIsAnswered | src/share/keyboard_suppression.hpp:52-94 | an event with any other switch is answered if it comes back before its time to live is over, whatever the queue held |
| KeyboardSuppressions.AnsweredOnceAndInTime | src/share/keyboard_suppression.hpp:75-94 | on an empty queue one enqueue answers one consume of the same switch and type before it expires, and no second one |
| KeyboardSuppressions.ExactIff | src/share/keyboard_suppression.hpp:52-116 | the deque is exact over all runs exactly if the time to live is positive or there is no room for an entry |
| KeyboardSuppressions.BornDead | src/share/keyboard_suppression.hpp:52-73 | with room but no time to live, the first enqueue already breaks exactness |
| KeyboardSuppressions.NoRoomNoEntries | src/share/keyboard_suppression.hpp:70-72 | with a maximum of zero nothing is ever kept |
| KeyboardSuppressions.AnswersAreBacked | src/share/keyboard_suppression.hpp:52-94 | in any run at all a key is answered at most as often as it was accepted |
| JsonMergePatch.MakeJSONMergePatch | src/apps/SettingsWindow/src/Settings.swift:567-596 | the recursive maker with its loop over the dictionary, in any order of keys |
| JsonMergePatch.PatchRoundTripIff | src/apps/SettingsWindow/src/Settings.swift:541-596 | applying the patch gives the new value exactly if no key disappears and no null is written into an object |
| JsonMergePatch.LostKeyStays | src/apps/SettingsWindow/src/Settings.swift:567-596 | a key that is gone from the new object stays, and there is no patch |
| JsonMergePatch.NewNullIsLost | src/apps/SettingsWindow/src/Settings.swift:567-596 | a null that is new in an object is in the patch, and applying it gives the old object |
| JsonMergePatch.NilIffCovered | src/apps/SettingsWindow/src/Settings.swift:567-596 | there is no patch exactly if the new value says nothing that the old one does not say |
| JsonMergePatch.PatchIsExact | src/apps/SettingsWindow/src/Settings.swift:541-596 | without nulls and with all old keys surviving: the round trip holds, no patch exactly if nothing changed, and only changed members are named |
| JsonMergePatch.PatchNamesChangesOnly | src/apps/SettingsWindow/src/Settings.swift:567-596 | for all objects, a member the patch names is new or different |
| HidValueEntries.AdjustedRange | src/share/event_queue/utility.hpp:11-27 | a scaled value is within [-127, 127], and zero exactly for zero |
| HidValueEntries.SignKeptIff | src/share/event_queue/utility.hpp:11-27 | the sign is kept exactly unless a negative multiplier scales to one or more |
| HidValueEntries.NegativeMultiplierFlips | src/share/event_queue/utility.hpp:11-27 | 1 scaled by -1 is -1 |
| HidValueEntries.AdjustMonotone | src/share/event_queue/utility.hpp:11-27 | a larger movement is never scaled to a smaller one |
| HidValueEntries.EmplaceBackPointingMotionEvent | src/share/event_queue/utility.hpp:48-72 | flushes the optional values that are held back, and clears them |
| HidValueEntries.TakeMotion | src/share/event_queue/utility.hpp:98-134 | a value on an axis that is pending flushes first |
| HidValueEntries.MakeEntries | src/share/event_queue/utility.hpp:34-174 | the loop over the values, with switches, LED, hat switch and motion; the rows of `HidSwitchTheorems` say which entries that makes |
| HidSwitchTheorems.SwitchValuesAreEntries | src/share/event_queue/utility.hpp:84-96 | the entries of a switch of the table are exactly its values in the report, one each and in order, with its page, usage, time, device and number, down for every value but zero |
| HidSwitchTheorems.HeldAfterReport | src/share/event_queue/utility.hpp:84-96 | after a report a switch of the table is held exactly if its last value is not zero, or it has no value there and was held before |
| HidSwitchTheorems.LedValuesAreEntries | src/share/event_queue/utility.hpp:136-147 | every value of the caps lock LED becomes one entry that carries it, and no other value does |
| HidSwitchTheorems.HatValueIsEntries | src/share/event_queue/utility.hpp:149-168 | a hat value of a game pad becomes the entries of the changed pad buttons, and the new direction is remembered for that device |
| HidSwitchTheorems.DpadEntriesAre | src/share/event_queue/utility.hpp:155-166 | each pad event becomes one entry of the device, at the time of the hat value |
| HidSwitchTheorems.AdjustMeans | src/share/event_queue/utility.hpp:11-27 | scaling truncates toward zero, moves by at least one, and stops at 127 on both sides |
| MotionCoalescingTheorems.CoalescingIsGrouping | src/share/event_queue/utility.hpp:34-174 | the motions emitted are exactly the groups of the motion values, and every other entry is kept in order |
| MotionCoalescingTheorems.GroupsAreGreedy | src/share/event_queue/utility.hpp:98-134 | the groups are the values in order, each axis at most once in a group, and no group could have taken one more |
| MotionCoalescingTheorems.MotionOfGroup | src/share/event_queue/utility.hpp:48-72 | the motion of a group moves by its values and by nothing else, at the time of its last value, and every other field of the entry |
| MotionCoalescingTheorems.MotionIsConserved | src/share/event_queue/utility.hpp:34-174 | along every axis the motions add up to the scaled values |
| HidSwitchTheorems.MotionByUsage | src/share/event_queue/utility.hpp:98-134 | along every axis the motions add up to the values of that usage in HID numbers, scaled by the multiplier of the axis; the first two axes of a game pad add nothing |
| HidSwitchTheorems.ComponentFields | src/share/event_queue/utility.hpp:48-72 | which field of a motion moves along which axis |
| HidSwitchTheorems.ContributionTimes | src/share/event_queue/utility.hpp:98-134 | the contributions are the motion values in order, each with its own time |
| DeviceKeysReleased.InsertDeviceKeysAndPointingButtonsAreReleasedEvent | src/share/event_queue/utility.hpp:176-212 | every entry in order, with a marker right after exactly those that end the last hold of the device; the set kept is what is held |
| DeviceKeysReleased.PressedIffHeld | src/share/event_queue/utility.hpp:184-207 | a switch is in the set exactly if it was pressed, or held at first, and not released since |
| DeviceKeysReleased.MarkerIs | src/share/event_queue/utility.hpp:195-204 | the marker: its device, the time and delay of the entry it follows, and no switch |
| DeltaStreams.RunReplays | src/share/hid_report_only_events/elecom/trackball.hpp:197-227 | over any run of rows and resets, the changes replay to the last row, and every change changes something |
| DeltaStreams.RunAlternates | src/share/hid_report_only_events/elecom/trackball.hpp:197-227 | the values of one position strictly alternate from a press |
| HatSwitchConverters.DirectionsAreACompass | src/share/hat_switch_convert.hpp:45-71 | opposite values are opposite directions, odd values hold what their neighbours hold, any other value holds nothing |
| HatSwitchConverters.HatSwitchConverter.ToDpadEvents | src/share/hat_switch_convert.hpp:35-95 | sends the changes from the last direction of the device, and remembers the new one for that device alone |
| HatSwitchConverters.DpadReplays | src/share/hat_switch_convert.hpp:27-95 | in any run over several devices, what was sent for a device since it was forgotten replays to its last direction, each pad button alternating |
| HidSwitchTheorems.DpadButtonFollowsHat | src/share/hat_switch_convert.hpp:27-95 | in any run over several devices, the events of a pad button since its device was forgotten alternate from a press, and the last is a press exactly if the last direction holds the button |
| ElecomTrackballs.FindConfiguration | src/share/hid_report_only_events/elecom/trackball.hpp:77-173 | the layout of the first field pair that passes, nothing exactly if none passes |
| ElecomTrackballs.FieldPairIff | src/share/hid_report_only_events/elecom/trackball.hpp:99-129 | which pairs of fields are a button field and its padding, in HID usage numbers |
| ElecomTrackballs.LayoutExact | src/share/hid_report_only_events/elecom/trackball.hpp:131-169 | the layout of a pair, or nothing exactly if a number of it does not fit, stated on unbounded integers |
| ElecomTrackballs.LayoutIsSound | src/share/hid_report_only_events/elecom/trackball.hpp:131-169 | every layout has button numbers up to 255 and positions within 64 bits, and the division guard refuses every product that would wrap |
| ElecomTrackballs.AcceptedReadsInBounds | src/share/hid_report_only_events/elecom/trackball.hpp:182-206 | every bit read from an accepted report is inside it, at a position that does not wrap |
| ElecomTrackballs.ButtonIsReportBit | src/share/hid_report_only_events/elecom/trackball.hpp:203-206 | a button is the bit of the whole report, read as one little-endian number, at the offset of the layout plus its index |
| ElecomTrackballs.ButtonNumbersAreExact | src/share/hid_report_only_events/elecom/trackball.hpp:208-217 | for a layout that was found the cast to a byte never changes a button number |
| ElecomTrackballs.Handler.ShouldAcceptReport | src/share/hid_report_only_events/elecom/trackball.hpp:182-195 | accepts exactly the reports with the id of the layout that hold a bit for every button, at positions that fit 64 bits |
| ElecomTrackballs.Handler.Handle | src/share/hid_report_only_events/elecom/trackball.hpp:197-223 | emits the changed buttons in order, and remembers the bits of the report |
| ElecomTrackballs.Handler.Reset | src/share/hid_report_only_events/elecom/trackball.hpp:225-227 | all buttons up |
| ElecomTrackballs.ReportsReplay | src/share/hid_report_only_events/elecom/trackball.hpp:197-227 | over any run of accepted reports and resets, the values returned for the usage of a button since the last reset are 1, 0, 1 and so on, and the last of them is its bit in the last report |
| ElecomTrackballs.ReturnedIsEmitted | src/share/hid_report_only_events/elecom/trackball.hpp:203-220 | picking one usage from the values returned gives exactly the changes of that button |
| StringMarshalling.MarshalString | src/share/json_utility.hpp:91-103 | the getline loop: a string without a newline stays as it is, any other one becomes its lines |
| StringMarshalling.UnmarshalString | src/share/json_utility.hpp:59-88 | joins the lines and drops the last newline; an error exactly for values that are neither a string nor an array of strings |
| StringMarshalling.RoundTrip | src/share/json_utility.hpp:59-103 | saving and loading loses one trailing newline and nothing else |
| StringMarshalling.RoundTripIff | src/share/json_utility.hpp:59-103 | the round trip is exact exactly if the string does not end in a newline |
| StringMarshalling.ReloadIff | src/share/json_utility.hpp:59-103 | exactly which values survive loading and saving |
| StringMarshalling.TrailingNewlineIsLost | src/share/json_utility.hpp:59-103 | a line and a newline loads as the line |
| StringMarshalling.ShortArraysChange | src/share/json_utility.hpp:59-103 | an array of one line is saved as a string, and an empty last line disappears |
| DuktapeHeaps.Alloc | src/share/duktape_utility.hpp:57-78 | the allocation, with every refusal |
| DuktapeHeaps.Realloc | src/share/duktape_utility.hpp:80-114 | the reallocation; a refused one leaves all blocks and the count alone |
| DuktapeHeaps.Free | src/share/duktape_utility.hpp:116-127 | the release |
| DuktapeHeaps.DoAccounted | src/share/duktape_utility.hpp:57-127 | one call whose header addition does not wrap keeps the count equal to the live bytes and within the limit |
| DuktapeHeaps.DoGuarded | src/share/duktape_utility.hpp:57-114 | one call whose sum does not wrap reports and refuses exactly what is over the limit, and a refusal changes nothing else |
| DuktapeHeaps.RunAccounted | src/share/duktape_utility.hpp:57-127 | over every run of requests whose header addition does not wrap, the count is the sum of the live blocks and never over the limit |
| DuktapeHeaps.RunReportsLimit | src/share/duktape_utility.hpp:65-102 | over every run of requests whose sums do not wrap either, the limit is reported exactly if a request went over it |
| DuktapeHeaps.AllocAccountedIff | src/share/duktape_utility.hpp:65-77 | an allocation that memory can grant keeps the accounting exactly unless adding the header wraps and the count wraps with it, to a value within the limit |
| DuktapeHeaps.ReallocAccountedIff | src/share/duktape_utility.hpp:98-113 | the same for a reallocation |
| DuktapeHeaps.WrappedHeaderMiscounts | src/share/duktape_utility.hpp:65-77 | two granted allocations from an empty heap after which 8 bytes are counted, and the headers of the live blocks add up to far more |

## Left out

- Mutexes, weak and shared pointers: a locked method is one atomic step; the callback token of the stdin delivery is a liveness flag. The transport is taken to call a completion handler at most once.
- Scheduling: the dispatcher may run a task of the stdin delivery at any time, so debouncing and the retry interval are not modelled; no fairness is claimed, `HealthyDelivers` gives one schedule.
- The termination signal of the command line tool, and reading and parsing its input lines.
- The manipulator environment that queue entries update: it does not touch the order of entries, the modifiers or the buttons.
- Concrete manipulators: their answers, and what they post to the output queue, are inputs; they do not touch the input queue.
- PipelineTheorems.ReorderingIsInvisibleToManagers: a sufficient condition on the entries, together with an input outside it; it is not an equivalence, as whether a stage's erasing shows depends on the state it meets.
- ScopeTheorems.ScopeTransparentIff: no lock on device 0, LED change or erasure of device 0 while the scope lives; those meet the scope's own entries.
- ModifierFlagLists.PressedIsCounterFormula: the sum ranges over a finite listing of counters, as a list has only finitely many devices.
- Timestamps and delays are unbounded integers; sizes in the report decoder and the allocator are 64-bit.
- Multipliers are real numbers: floating-point rounding is not modelled, nor a product outside the range of a C `int`, for which the conversion has no defined result.
- The tables of key, consumer and button usages that decide which values are switches: a parameter.
- Game pad sticks, which are converted elsewhere.
- HidSwitchTheorems.SwitchValuesAreEntries: not for the four pad buttons of a game pad, whose entries can also come from its hat switch; `HatValueIsEntries` and `DpadButtonFollowsHat` cover those. The same holds for `HidSwitchTheorems.HeldAfterReport`.
- KeyboardFallbackReference.GuardAnswersAsReference: on a clock that never runs back, which the steady clock of the source promises.
- The HID report descriptor parser, whose fields are inputs, and report values other than their number, page, usage and time.
- The kept JSON values are compared structurally, not by the numeric coercion of `NSNumber`; the key path bookkeeping and the file access of the settings window.
- Whether the underlying allocation of a script block succeeds, and where the block is placed, is an input, as far as addresses for its bytes are left; the contents of blocks are not modelled.
- Bulk helpers around the managers: making HID reports, counting LED entries, invalidating manipulators.
- Logging, file and permission helpers, user interface, sockets, event taps, expressions and conditions: plumbing, or foreign code.
