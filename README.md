# Dining philosophers — a verified model

This project models the core of a Java simulation of the dining philosophers. A
coordinator (`SimulationState`) seats `N` philosophers at a round table with one fork
between each pair of neighbours. Philosopher `i` always reaches for fork `i` on its right
first, then for fork `(i - 1 + N) % N` on its left. Every philosopher runs the cycle
THINKING → HUNGRY → GOT_RIGHT_FORK → EATING → THINKING and writes one log line per state
change. When everyone holds exactly their right fork, the table is deadlocked. The
coordinator detects that state and can interrupt every thread and restart.

The model is a single-threaded interleaving. The state is the coordinator's arrays of
philosophers and forks. One step lets one chosen philosopher run from one state change to
the next, or up to the point where it would wait for a fork.

- `states.dfy` (module `States`): the five states and `getName()`. The label is built the
  way the source builds it: underscores replaced by spaces, then lower-cased. Lemmas give
  the five labels and their shape.
- `names.dfy` (module `Names`): the name provider. `NextName` is a class method with the
  source's post-increment. `NameOfCall(k)` is the name handed out by the `k`-th call.
- `entities.dfy` (module `Entities`):
  - `Fork` is a class with a `taken` flag.
  - `Philosopher` is a class whose `Step` runs the thread to its next state change or
    blocking point.
  - `NextMove` is that step as a value, and it is what `Step` is proved against.
- `ring.dfy` (module `Ring`):
  - The whole table as a value (`Table`), with one philosopher's step (`Step`) and runs of
    a schedule (`Run`).
  - The fork-ownership invariant: a fork is taken exactly when one neighbour holds it.
  - The deadlock lemmas: deadlock implies every fork is taken and no step is possible, and
    conversely. The deadlock is also reachable at every table size.
- `simulation.dfy` (module `Simulation`): the coordinator as a class. Its methods are
  proved against `Ring`. The two key equations are `Snapshot() == Initial(...)` after
  `Start` and `Transition(Snapshot(), result) == Ring.Step(old(Snapshot()), i)` after
  `Step`.

Threads are modelled as follows:

- Each thread sits at one of three points: before the first announcement (`Starting`),
  inside its loop (`Looping`), or after the loop has been left (`Terminated`).
- `Thread.interrupt` sets the philosopher's `interrupted` flag.
- Every `sleep` observes that flag. So does a `get` that has to wait for a taken fork:
  `Object.wait` is interruptible, so even a deadlocked philosopher ends after `stop()`.
- A `get` on a free fork takes it without looking at the flag.

## Model

| member | source | states |
|---|---|---|
| `States.Values` | src/pac/dining_philosophers/model/states/PhilosopherState.java:11 | exactly five constants, in the order THINKING, HUNGRY, GOT_RIGHT_FORK, GOT_LEFT_FORK, EATING, pairwise distinct |
| `States.ValuesComplete` | src/pac/dining_philosophers/model/states/PhilosopherState.java:11 | every state is one of those constants |
| `States.Replace` | src/pac/dining_philosophers/model/states/PhilosopherState.java:20 | `replace('_', ' ')` on a text; its meaning is stated by `States.ReplaceAt` |
| `States.ToLowerCase` | src/pac/dining_philosophers/model/states/PhilosopherState.java:20 | `toLowerCase()` on a text; its meaning is stated by `States.ToLowerCaseAt` |
| `States.GetName` | src/pac/dining_philosophers/model/states/PhilosopherState.java:18-21 | `getName()`: the constant's name with underscores replaced by spaces, then lower-cased; `States.GetNameShape`, the five `States.GetName…` lemmas and `States.GetNameInjective` state what it gives |
| `States.ReplaceAt` | src/pac/dining_philosophers/model/states/PhilosopherState.java:20 | `replace(from, to)` keeps the length and changes exactly the occurrences of `from` |
| `States.ToLowerCaseAt` | src/pac/dining_philosophers/model/states/PhilosopherState.java:20 | `toLowerCase()` keeps the length and maps each character on its own |
| `States.ReadableShape` | src/pac/dining_philosophers/model/states/PhilosopherState.java:20 | replace-then-lower-case keeps the length and leaves no `_` and no upper-case letter, for any text |
| `States.GetNameShape` | src/pac/dining_philosophers/model/states/PhilosopherState.java:18-21 | `getName()` is as long as the constant's name, contains no `_` and is all lower-case |
| `States.ReadableOf` | src/pac/dining_philosophers/model/states/PhilosopherState.java:20 | the readable form of a text is the text mapped character by character |
| `States.GetNameThinking` | src/pac/dining_philosophers/model/states/PhilosopherState.java:11-21 | `getName(THINKING) == "thinking"` |
| `States.GetNameHungry` | src/pac/dining_philosophers/model/states/PhilosopherState.java:11-21 | `getName(HUNGRY) == "hungry"` |
| `States.GetNameGotRightFork` | src/pac/dining_philosophers/model/states/PhilosopherState.java:11-21 | `getName(GOT_RIGHT_FORK) == "got right fork"` |
| `States.GetNameGotLeftFork` | src/pac/dining_philosophers/model/states/PhilosopherState.java:11-21 | `getName(GOT_LEFT_FORK) == "got left fork"` |
| `States.GetNameEating` | src/pac/dining_philosophers/model/states/PhilosopherState.java:11-21 | `getName(EATING) == "eating"` |
| `States.GetNameValues` | src/pac/dining_philosophers/model/states/PhilosopherState.java:11-21 | `getName` equals the written-out label for every state |
| `States.GetNameInjective` | src/pac/dining_philosophers/model/states/PhilosopherState.java:11-21 | distinct states get distinct labels |
| `Names.Decimal` | src/pac/dining_philosophers/model/utils/PhilosopherNameProvider.java:31 | `Integer.toString` of a non-negative number is at least one character long and all decimal digits |
| `Names.DecimalRoundTrip` | src/pac/dining_philosophers/model/utils/PhilosopherNameProvider.java:31 | reading the digits back gives the number |
| `Names.DecimalInjective` | src/pac/dining_philosophers/model/utils/PhilosopherNameProvider.java:31 | different numbers are written differently |
| `Names.NameOfCall` | src/pac/dining_philosophers/model/utils/PhilosopherNameProvider.java:29-32 | the name of the `k`-th call: a preset for `k <= 5`, otherwise `#` and the decimal `k`; `Names.PresetCalls`, `Names.SixthCall` and `Names.NamesDistinct` state its properties, and `NextName` is proved against it |
| `Names.PresetCalls` | src/pac/dining_philosophers/model/utils/PhilosopherNameProvider.java:19-32 | calls 1 to 5 return the preset names in order, from "Herr mymuesli" to "Herr Kölln" |
| `Names.SixthCall` | src/pac/dining_philosophers/model/utils/PhilosopherNameProvider.java:29-32 | the sixth call returns "#6" |
| `Names.PresetsDistinct` | src/pac/dining_philosophers/model/utils/PhilosopherNameProvider.java:19-22 | no two preset names are equal |
| `Names.NamesDistinct` | src/pac/dining_philosophers/model/utils/PhilosopherNameProvider.java:19-32 | two different calls of one provider never return the same name |
| `Names.PhilosopherNameProvider.constructor` | src/pac/dining_philosophers/model/utils/PhilosopherNameProvider.java:14 | a fresh provider's cursor is -1 |
| `Names.PhilosopherNameProvider.NextName` | src/pac/dining_philosophers/model/utils/PhilosopherNameProvider.java:29-32 | the cursor rises by exactly one, and the name is that of call number cursor + 1. The preset array is indexed only below its length: the guard tests the cursor before the increment |
| `Entities.Fork.constructor` | src/pac/dining_philosophers/model/entities/Fork.java:14 | a new fork is not taken |
| `Entities.Fork.Put` | src/pac/dining_philosophers/model/entities/Fork.java:19-23 | afterwards the fork is free whatever it was before, so `get` followed by `put` leaves a free fork |
| `Entities.Fork.Get` | src/pac/dining_philosophers/model/entities/Fork.java:31-38 | succeeds exactly when the fork was free and leaves it taken; on a taken fork it reports waiting and changes nothing |
| `Entities.Fork.IsTaken` | src/pac/dining_philosophers/model/entities/Fork.java:45-48 | returns the flag and changes nothing |
| `Entities.Successor` | src/pac/dining_philosophers/model/entities/Philosopher.java:65-86 | the loop's next state is never GOT_LEFT_FORK |
| `Entities.CycleOfFour` | src/pac/dining_philosophers/model/entities/Philosopher.java:65-86 | four transitions return to the start and pass through exactly THINKING, HUNGRY, GOT_RIGHT_FORK, EATING |
| `Entities.NextMove` | src/pac/dining_philosophers/model/entities/Philosopher.java:61-89 | one pass of the thread's `run()` loop up to its next state change or blocking point; `Entities.NextMoveCases` states what it does |
| `Entities.NextMoveCases` | src/pac/dining_philosophers/model/entities/Philosopher.java:61-89 | the step never enters GOT_LEFT_FORK. A logging step moves one place along the cycle and its entry is `name + ": " + label + "\n"`. It blocks exactly when an uninterrupted thread needs a taken fork. It ends exactly when the thread sees its interruption. The right fork is taken on the way into GOT_RIGHT_FORK, the left fork on the way into EATING, and both are released on the way back to THINKING |
| `Entities.Philosopher.constructor` | src/pac/dining_philosophers/model/entities/Philosopher.java:34-53 | keeps the name and the two forks; the philosopher starts in THINKING |
| `Entities.Philosopher.SetPhilosopherState` | src/pac/dining_philosophers/model/entities/Philosopher.java:96-102 | sets the state and gives the one log line `name + ": " + getName() + "\n"` |
| `Entities.Philosopher.Interrupt` | src/pac/dining_philosophers/model/states/SimulationState.java:96 | sets the thread's interruption flag |
| `Entities.Philosopher.ToString` | src/pac/dining_philosophers/model/entities/Philosopher.java:120-123 | returns the name given at construction |
| `Entities.Philosopher.Step` | src/pac/dining_philosophers/model/entities/Philosopher.java:61-89 | the new state, the thread's point and the two fork flags are those `NextMove` gives, including the case of one fork serving as both |
| `Ring.LeftOf` | src/pac/dining_philosophers/model/states/SimulationState.java:79 | `(i - 1 + n) % n` is `n - 1` for seat 0 and `i - 1` otherwise |
| `Ring.LeftUser` | src/pac/dining_philosophers/model/states/SimulationState.java:79-80 | the seat whose left fork is fork `j` is `(j + 1) % n` |
| `Ring.LeftOfLeftUser` | src/pac/dining_philosophers/model/states/SimulationState.java:79-80 | fork `j` is the left fork of philosopher `i` if and only if `i == (j + 1) % n` |
| `Ring.ForkOwned` | src/pac/dining_philosophers/model/entities/Philosopher.java:74-85 | fork `j` is taken exactly when its right user is in GOT_RIGHT_FORK or EATING, or its left user is in EATING, and never by both; kept by `Ring.StepPreservesInvariant` |
| `Ring.Invariant` | src/pac/dining_philosophers/model/entities/Philosopher.java:61-89 | every thread at a point its loop can be at, and every fork owned as `Ring.ForkOwned` says; established by `Ring.InitialInvariant` and kept by `Ring.RunPreservesInvariant` |
| `Ring.Initial` | src/pac/dining_philosophers/model/states/SimulationState.java:61-87 | the freshly started table has one seat per name; seat `j` is named `names[j]`, uninterrupted, in THINKING and about to announce it, and fork `j` is free |
| `Ring.InitialInvariant` | src/pac/dining_philosophers/model/states/SimulationState.java:69-86 | the fresh table satisfies the fork-ownership invariant |
| `Ring.Step` | src/pac/dining_philosophers/model/entities/Philosopher.java:61-89 | one philosopher's step touches only that philosopher and its two forks and keeps its name and interruption flag |
| `Ring.BlockedChangesNothing` | src/pac/dining_philosophers/model/entities/Fork.java:31-36 | a step that waits for a fork changes nothing |
| `Ring.StepKeepsShape` | src/pac/dining_philosophers/model/entities/Philosopher.java:65-86 | after any step, every thread is at a point its loop can be at |
| `Ring.StepPreservesInvariant` | src/pac/dining_philosophers/model/entities/Philosopher.java:74-85 | every step keeps each fork taken exactly when one of its two neighbours holds it |
| `Ring.InterruptAll` | src/pac/dining_philosophers/model/states/SimulationState.java:92-98 | `stop()` sets every interruption flag and changes nothing else |
| `Ring.InterruptAllPreservesInvariant` | src/pac/dining_philosophers/model/states/SimulationState.java:92-98 | interrupting keeps the fork-ownership invariant |
| `Ring.InterruptedNeverWaits` | src/pac/dining_philosophers/model/entities/Philosopher.java:63-88 | an interrupted thread never waits. Its only further log lines are the first announcement and a right fork that happens to be free |
| `Ring.Deadlocked` | src/pac/dining_philosophers/model/states/SimulationState.java:206-214 | every philosopher is in GOT_RIGHT_FORK; `Ring.DeadlockTakesEveryFork`, `Ring.DeadlockIsStuck` and `Ring.StuckIsDeadlock` state what that means, and `IsDeadlocked` is proved against it |
| `Ring.DeadlockTakesEveryFork` | src/pac/dining_philosophers/model/states/SimulationState.java:201-214 | when every philosopher is in GOT_RIGHT_FORK, every fork is taken |
| `Ring.DeadlockIsStuck` | src/pac/dining_philosophers/model/states/SimulationState.java:201-214 | in that state no running, uninterrupted philosopher can move: its left `get` waits |
| `Ring.StuckIsDeadlock` | src/pac/dining_philosophers/model/states/SimulationState.java:201-214 | conversely, when no philosopher can move, everyone is in GOT_RIGHT_FORK |
| `Ring.Run` | src/pac/dining_philosophers/model/states/SimulationState.java:77-86 | any interleaving of the started threads keeps every thread at a point of its loop and keeps the number of seats |
| `Ring.RunPreservesInvariant` | src/pac/dining_philosophers/model/entities/Philosopher.java:61-89 | the fork-ownership invariant holds after any interleaving |
| `Ring.RunAppend` | src/pac/dining_philosophers/model/states/SimulationState.java:221-224 | running two schedules in turn is running their concatenation, and their log lines are joined in order |
| `Ring.StepAnnounce` | src/pac/dining_philosophers/model/entities/Philosopher.java:69 | a started thread first announces THINKING and takes no fork |
| `Ring.StepToHungry` | src/pac/dining_philosophers/model/entities/Philosopher.java:69-73 | after thinking comes HUNGRY, with no fork touched |
| `Ring.StepToGotRightFork` | src/pac/dining_philosophers/model/entities/Philosopher.java:73-77 | a hungry philosopher with a free right fork takes it and announces GOT_RIGHT_FORK |
| `Ring.StepToEating` | src/pac/dining_philosophers/model/entities/Philosopher.java:77-82 | with a free left fork it takes it and announces EATING |
| `Ring.StepToThinking` | src/pac/dining_philosophers/model/entities/Philosopher.java:82-86 | after eating it puts down the right and the left fork and announces THINKING |
| `Ring.OneRound` | src/pac/dining_philosophers/model/entities/Philosopher.java:65-86 | with two free forks and at least two seats, four steps log hungry, got right fork, eating and thinking, and leave the table as it was |
| `Ring.SeatNext` | src/pac/dining_philosophers/model/entities/Philosopher.java:69-77 | the next philosopher in line announces thinking and hungry, then takes its right fork, which nobody holds yet |
| `Ring.ThreeEachSeats` | src/pac/dining_philosophers/model/states/SimulationState.java:77-86 | after philosophers `0 .. k-1` have each run three steps, exactly those hold their right fork |
| `Ring.DeadlockReachable` | src/pac/dining_philosophers/model/entities/Fork.java:24-38 | from a fresh start, at every table size (one philosopher included), some interleaving reaches the deadlock with every fork taken |
| `Simulation.Concat` | src/pac/dining_philosophers/model/states/SimulationState.java:231-240 | the log entries joined oldest first; `Simulation.ConcatAppend` states how it splits, and `GetLog` is proved against it |
| `Simulation.ConcatAppend` | src/pac/dining_philosophers/model/states/SimulationState.java:221-240 | draining entries appended after others gives the earlier text followed by the later one |
| `Simulation.StartNamesDistinct` | src/pac/dining_philosophers/model/states/SimulationState.java:64-81 | the philosophers of one start have pairwise different names |
| `Simulation.SimulationState.constructor` | src/pac/dining_philosophers/model/states/SimulationState.java:26-56 | defaults: speed 50, not frozen, five philosophers, an empty log |
| `Simulation.SimulationState.Start` | src/pac/dining_philosophers/model/states/SimulationState.java:61-87 | both arrays are new and have length `philosophersCount`. The wiring is the ring, and the table is `Initial` of the names of one fresh provider. A negative count fails and changes nothing |
| `Simulation.SimulationState.NewForks` | src/pac/dining_philosophers/model/states/SimulationState.java:69-74 | `count` new, distinct, free forks |
| `Simulation.SimulationState.NewPhilosophers` | src/pac/dining_philosophers/model/states/SimulationState.java:76-86 | philosopher `k` is new, sits between fork `k` (right) and fork `(k - 1 + count) % count` (left), and is named by call `k + 1` |
| `Simulation.SimulationState.Stop` | src/pac/dining_philosophers/model/states/SimulationState.java:92-98 | the table becomes `InterruptAll` of what it was, and the invariant is kept |
| `Simulation.SimulationState.InterruptThreads` | src/pac/dining_philosophers/model/states/SimulationState.java:94-97 | every thread is interrupted and no state changes |
| `Simulation.SimulationState.ChangeNumberOfPhilosophers` | src/pac/dining_philosophers/model/states/SimulationState.java:247-252 | the count becomes `n`. For `n >= 0` the table is restarted with `n` philosophers. For a negative `n` the old, now interrupted, table stays |
| `Simulation.SimulationState.Step` | src/pac/dining_philosophers/model/entities/Philosopher.java:61-102 | the objects move exactly as `Ring.Step` says, and the log grows by the step's one line, or by none |
| `Simulation.SimulationState.Advance` | src/pac/dining_philosophers/model/entities/Philosopher.java:61-89 | the philosopher's part of a step, tied to `Ring.Step` |
| `Simulation.SimulationState.IsDeadlocked` | src/pac/dining_philosophers/model/states/SimulationState.java:206-214 | true exactly when every philosopher is in GOT_RIGHT_FORK, so true for an empty table |
| `Simulation.SimulationState.Log` | src/pac/dining_philosophers/model/states/SimulationState.java:221-224 | appends the entry at the tail |
| `Simulation.SimulationState.GetLog` | src/pac/dining_philosophers/model/states/SimulationState.java:231-240 | returns every entry joined oldest first and leaves the queue empty, so an immediate second call returns "" |
| `Simulation.SimulationState.SetSpeed` | src/pac/dining_philosophers/model/states/SimulationState.java:135-138 | sets the speed and nothing else |
| `Simulation.SimulationState.Freeze` | src/pac/dining_philosophers/model/states/SimulationState.java:143-146 | sets the frozen flag and nothing else |
| `Simulation.SimulationState.Thaw` | src/pac/dining_philosophers/model/states/SimulationState.java:151-155 | clears the frozen flag and nothing else |
| `Simulation.SimulationState.FolkGapTime` | src/pac/dining_philosophers/model/states/SimulationState.java:125-128 | always 500 |

## Left out

- Threads and scheduling. Real threads, `synchronized`, `wait`/`notify`/`notifyAll` and
  `Thread.start` are replaced by the explicit interleaving `Step(i)`. The scheduler's
  choice is a parameter (the index, or the schedule of `Run`).
- Sleeping and randomness. `Thread.sleep` takes no time. `sleepTime()` and `eatTime()`
  (random, floating point) are not modelled, and `SetSpeed` affects no step. In the model
  a sleep is only a point where an interruption is seen.
- A negative speed. `setSpeed` (SimulationState.java:135-138) stores any `int`. A
  negative speed makes `sleepTime()` and `eatTime()` (:107, :117) negative whenever their
  random factor is not zero. Then `Thread.sleep` (Philosopher.java:70, :83) throws
  `IllegalArgumentException`. The `catch` at :88 takes only `InterruptedException`, so
  the thread dies, either in THINKING holding no fork or in EATING holding both forks for
  good. The model does not have this failure. The user interface's slider only produces
  speeds from 0 to 100 (src/pac/dining_philosophers/view/MainForm.java:61-68).
- Observer notifications. `setChanged`/`notifyObservers` and `update` are callbacks to
  the user interface and are not modelled. The UI classes (`MainForm`,
  `DinersDrawingSurface`, `Application`) are not part of this model.
- The frozen flag. It is stored and set, but nothing reads it, as in the source.
- Arrays before the first start. The source's arrays are `null` until `start()`, and
  `stop()` or `isDeadlocked()` would throw before then. The model starts with empty arrays
  instead. The user interface always calls `start()` first.
- Separate thread objects. `philosopherThreads` is merged into `Philosopher`: the
  `phase` and `interrupted` fields are that philosopher's thread.
- Old threads after a restart. A restart drops the old population. The source's old
  threads still run until they see their interruption. They only touch the old forks and
  the shared log, and the model does not follow them.
- Logging is not atomic in the source. `setPhilosopherState` logs, then sets the field,
  without a lock. Here the log line, the state change and the fork changes of one step
  happen together. The coordinator's `Step` appends the line that the philosopher's
  `Step` returns, instead of the philosopher calling `log` itself.
- The getters. `getPhilosopher`, `getPhilosophers`, `getForks` and
  `getPhilosopherState` only return fields. The model reads those fields directly.
- A `null` argument to `changeNumberOfPhilosphers`. It would throw when unboxed. `n` is
  an `int` here.
- Names.PhilosopherNameProvider.NextName: does not model the 32-bit wrap-around of
  `currentIndex` after 2^31 calls. The cursor is an unbounded integer.
- States.ToLowerChar: lower-cases ASCII letters only. Locale-dependent
  `String.toLowerCase` is not modelled, and the constants are ASCII.
- Population size. The source does not check the count. Zero gives an empty table,
  which `isDeadlocked()` reports as deadlocked. A negative count is stored first, and
  then `start()` fails before any array is replaced. `Start` and
  `ChangeNumberOfPhilosophers` model both cases.
- Interrupting a waiting thread. A thread blocked in `Fork.get` ends when interrupted,
  because `wait()` (Fork.java:35) throws `InterruptedException`. So a deadlocked
  philosopher ends after `stop()`, and the model does the same.
