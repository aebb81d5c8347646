# StrideJIT: a model of its runtime behaviour and compiler passes

StrideJIT compiles Stride programs to LLVM IR. This project models what the
emitted code does when it runs (which cells it loads, compares and stores) and
the compiler's own small algorithms, and proves what they promise over every
input and every run. LLVM itself is not modelled.

| modules | what they model |
|---|---|
| `BufferSpecs`, `RingBuffers` | `buffer` declarations; pushing into, viewing and copying from a ring, proved against the plain sequence of samples |
| `RateSchedules`, `Resampling` | the choice of a phase arithmetic for two rates, and the down- and upsampling code of every domain tick: exact run counts, periods, no drift |
| `Machines`, `MachineStep`, `MachineCode`, `MachineGraph`, `MachineOrder` | state trees, their flattening, the block graph emitted for them, the proof that the graph always ends and is one step of a reference semantics, and what that step does in which order, over the tree |
| `TriggerLatches` | rising-edge latches against the history of assignments, other writes and clears |
| `LoadOnce` | the atomic guard that loads a program once, for any number of threads |
| `NameMangling` | symbol encoding, injectivity, and the registry |
| `StringTokens`, `StringArena`, `StringFormat` | the string runtime: tokenizer, result buffers, format parser |
| `EarlyTermination` | leaving reactions and loops, tested only after statements that report a write, with writes nested in expressions or made through properties |
| `ConstantFills`, `FilledPrograms`, `FillExactness`, `FillExamples` | evaluating streams at compile time and folding reads, what that does to the whole program, which collects its streams in one order and runs them in another, and when exactly it changes nothing; calls read and write blocks inside, and keep state |
| `Arith`, `Wrappers` | division lemmas, 32-bit wrapping, `Option` |

Code that changes state in place is written as classes and methods with loops;
each is tied by its contract to a function, and the properties are proved about
that function. Most operations therefore come in pairs: the method, and the
lemmas about what it computes.
Inductive lemmas turn Dafny's automatic induction off, so each proof is the one
written in its body.

The model follows the code, also where its documentation or a reader's
expectation differs:

- `include/stride/stridejit/namemangler.hpp` says `resolveUnique` prefers a
  symbol registered under its plain name; the code returns a name only when
  there is exactly one variant.
- `doc/multirate_compilation.md` describes an accumulator that counts up to a
  threshold and a counter taken modulo the factor; the code runs when a phase
  is at most 0, and wraps its counter by comparison.
- Entries and exits of a state machine do not balance: the code enters every
  ancestor of the default leaf, exited or not, and follows the default leaf even
  when history decides where the machine resumes. The reference step does the
  same.

Properties that do not hold of the code as it stands are stated with the exact
condition, and with inputs that show the failure:

- a view of an unmirrored ring with a single block is torn between block ends
  (`RingBuffers.FrameIsLastBlockExactly`);
- the layout of a buffer with frame size and hop 0 takes a remainder by zero
  after the error is recorded, for the declarations
  `BufferSpecs.TakesModuloByZero` describes (`BufferSpecs.FromDeclaration`,
  `ModuloByZeroIsReached`);
- an integer factor of 2^31 or more is lost in the cast to 32 bits: the counter
  then keeps another period and the fixed-count loop another count, at 2^31 every
  tick and none (`Resampling.CounterPeriodExactly`, `UpCountExactly`, `LargeFactorsFail`);
- `token_count` stops at 1 when the text starts with the delimiter
  (`StringTokens.CountAgreesExactly`);
- tokenizing undoes joining only for tokens that each end at the first delimiter
  after their start, and never gives back a single empty token
  (`StringTokens.TokenizeUndoesJoinExactly`);
- a write of the termination switch nested in another statement, as in
  `on >> Done >> Out`, or made through a property of a call, as in
  `Check(found: Done)`, is not reported, so the statements after it still run
  (`EarlyTermination.RightExactlyWhenHarmless`, `ChainHidesWrite`,
  `PropertyHidesWrite`); nor is a switch that is already on at entry seen
  (`RightExactlyWhenOff`);
- a generator transition whose step does not divide 2^32 tests its argument
  wrongly when its range is longer than a bound near 2^31
  (`MachineOrder.StepTestExactly`);
- a switch that rises by a write that is no assignment, through a call or inside
  a reaction or loop, is not latched, and the next assignment finds it on
  (`TriggerLatches.LatchTellsRiseExactly`, `StoreHidesRise`);
- moving a fill to compile time changes what the program computes when a constant
  is used before the stream that fills it has run, as in an onLoad stream that
  reads a constant filled at top level; when a call in the fill reads, inside, a
  block that is neither given nor filled before, or writes another block, since
  the compiler looks at what a stream shows only; and when a fill that runs on
  every tick keeps state (`FillExactness.AgreesExactlyInOrder`,
  `FillExamples.LoadReadsTooEarly`, `SumBaseReadsAhead`, `AccumulateRunsAgain`);
- plain names that decode as mangled ones, scopes whose name starts with a digit
  and types with the fallback code are not told apart
  (`NameMangling.PlainCollidesExactly`, `SymbolUniqueExactly`,
  `ComponentUniqueExactly`, `OneACollides`, `TypesUniqueExactly`).

## Model

| member | source | states |
|---|---|---|
| `BufferSpecs.EvalInt` | src/bufferspec.cpp:79-91 | an integer property is taken exactly when it is constant, truncated to 32 bits; a non-constant one adds one error and leaves the target alone |
| `BufferSpecs.HopOf` | src/bufferspec.cpp:155-186 | the hop each trigger mode selects; the three sizes are free of errors if and only if the mode divides the capacity, agrees with a declared hop, and capacity >= frameSize >= hop > 0 |
| `BufferSpecs.EntityOf` | src/bufferspec.cpp:188-200 | the trigger entity is recorded, and is free of errors exactly when it is absent or a declared switch |
| `BufferSpecs.SizesOf` | src/bufferspec.cpp:137-186 | hop, trigger and frame size in the order they are evaluated; free of errors if and only if the sizes are accepted; an unknown trigger mode stops |
| `BufferSpecs.FromDeclaration` | src/bufferspec.cpp:61-210 | a spec is valid if and only if the language accepts the declaration; each size is the declared one, or the trigger mode's share of the ring, all of it for a plain buffer; the complaints about a declaration, in order; the storage is mirrored exactly when a frame can cross the end of the ring; the remainder by zero is taken for exactly the declarations described |
| `BufferSpecs.ModuloByZeroIsReached` | src/bufferspec.cpp:205-207 | every capacity has such a declaration, and without a declared hop a quarter of fewer than four samples is one |
| `BufferSpecs.ModuloByZeroIsRejected` | src/bufferspec.cpp:181-207 | all of them are rejected declarations |
| `RingBuffers.BlockBounds` | src/binaryexprast.cpp:1474-1486 | the last whole block of a push history lies inside it and ends at its last multiple of the hop |
| `RingBuffers.RingBuffer.constructor` | src/bufferspec.cpp:61-210 | a fresh ring holds no samples and satisfies the invariant that ties index, count and storage to the sample sequence |
| `RingBuffers.RingBuffer.Reset` | src/stridegenerator.cpp:431-455 | init empties the buffer, whatever samples stay in the storage |
| `RingBuffers.RingBuffer.Write` | src/binaryexprast.cpp:1392-1400 | storing one sample, in both copies when mirrored, makes the newest `capacity` samples sit at their positions modulo the capacity, and keeps the copies equal |
| `RingBuffers.RingBuffer.Advance` | src/binaryexprast.cpp:1402-1410 | the wrapped index is the push count modulo the capacity, the capped count its minimum with the capacity |
| `RingBuffers.RingBuffer.Raise` | src/binaryexprast.cpp:1412-1436 | readiness, the `since` counter and the pending flush after a push, with and without a trigger switch |
| `RingBuffers.RingBuffer.PushSample` | src/binaryexprast.cpp:1382-1438 | a push, deferred flush included, refines appending to the sample sequence, with its readiness, `since` counter and pending flush |
| `RingBuffers.RingBuffer.EndOfTick` | src/stridegenerator.cpp:289-319 | the end of the tick turns `ready` off and touches nothing else |
| `RingBuffers.RingBuffer.View` | src/binaryexprast.cpp:1466-1490 | in every reachable state the frame-sized window lies in the storage, and its first min(count, frameSize) cells are the frame of the sample sequence, oldest first |
| `RingBuffers.RingBuffer.CopyFrame` | src/binaryexprast.cpp:1499-1522 | copying a whole frame reads inside the storage in every state, gives the frame's valid samples and consumes nothing |
| `RingBuffers.StoreHolds` | src/binaryexprast.cpp:1392-1400 | overwriting the oldest cell keeps every other one of the newest `capacity` samples in place |
| `RingBuffers.MirroredWindow` | src/binaryexprast.cpp:1470-1473 | with mirroring the newest n samples are contiguous at index + capacity - n, for every push count |
| `RingBuffers.BlockWindow` | src/binaryexprast.cpp:1474-1486 | without mirroring the start is the last whole block, or 0 for a partial one, wrapped into the storage |
| `RingBuffers.BlockCell` | src/binaryexprast.cpp:1474-1486 | which sample each cell of the viewed block holds, including the one-block ring whose beginning is already overwritten |
| `RingBuffers.SinceStep` | src/binaryexprast.cpp:1412-1432 | "enough samples and a hop since the last frame" is equivalent to the push count being frameSize plus a multiple of hop |
| `RingBuffers.PushKeepsSince` | src/binaryexprast.cpp:1412-1436 | every push keeps the counter equal to that function of the push count, and raises `ready` exactly at a frame end or a fired trigger |
| `RingBuffers.RunKeepsSince` | src/binaryexprast.cpp:1382-1436 | the same over every run of pushes, ticks and inits |
| `RingBuffers.ReadyExactly` | src/binaryexprast.cpp:1412-1436 | after any run, a push raises `ready` if and only if the trigger fires or the samples since the last flush end a frame |
| `RingBuffers.ReadyIsSticky` | src/binaryexprast.cpp:1433-1436 | no later push of the same tick turns `ready` off |
| `RingBuffers.SamplesSinceFlush` | src/binaryexprast.cpp:1385-1390 | after any run the samples are the values pushed since the push after the last fired trigger (or init), a final fired trigger keeping its partial frame readable |
| `RingBuffers.ReadyFrameIsWindow` | src/binaryexprast.cpp:1466-1490 | in both layouts a frame that ends with a push is samples k*hop up to k*hop + frameSize |
| `RingBuffers.ReadyFramesAreAllWindows` | src/binaryexprast.cpp:1402-1436 | for every input, the frames shown on ready ticks are all the sliding windows, in order, none skipped or repeated |
| `RingBuffers.FrameIsLastBlockExactly` | src/binaryexprast.cpp:1474-1486 | an unmirrored view is the last whole block for every content if and only if capacity >= 2*hop or the push count ends a block |
| `RateSchedules.GcdDivides` | src/binaryexprast.cpp:945-947 | the gcd divides both scaled rates |
| `RateSchedules.CommonDivisorDividesGcd` | src/binaryexprast.cpp:945-947 | every common divisor divides the gcd |
| `RateSchedules.ReducedAreCoprime` | src/binaryexprast.cpp:945-947 | both quotients are positive, multiply back, and share no divisor above 1 |
| `RateSchedules.ReducedAt` | src/binaryexprast.cpp:935-950 | one scale is taken if and only if both scaled rates are below 1e12, round to positive integers and are within 1e-6 of them; the steps are then coprime and in the ratio of the rounded rates |
| `RateSchedules.ScaledSteps` | src/binaryexprast.cpp:930-952 | the scale taken is the smallest one that fits, and failure means none does |
| `RateSchedules.Build` | src/binaryexprast.cpp:902-962 | which of the four forms a pair of rates gets, and the steps or factor of each |
| `RateSchedules.RoundsHalvesAway` | src/binaryexprast.cpp:912-940 | rounding is the same on both sides of 0 and takes halves away from it |
| `RateSchedules.PhaseIsKeptExactly` | include/stride/stridejit/numberexprast.hpp:161-173 | a schedule is slower, faster or neither by its rates alone, and keeps a phase exactly if the rates differ, unless the chain is faster by a whole factor |
| `RateSchedules.StepsAreSmall` | src/binaryexprast.cpp:930-957 | reduced steps are positive and at most 1e12 |
| `Resampling.Downsampler.constructor` | src/binaryexprast.cpp:1070-1084 | phase 0 satisfies the invariant of each of the three forms |
| `Resampling.Downsampler.Tick` | src/binaryexprast.cpp:1070-1100 | after n ticks the body has run exactly the number of times the closed form says, in the counter and in the integer form |
| `Resampling.Downsampler.CounterTick` | src/binaryexprast.cpp:989-1000 | the counter keeps runs*period - ticks in step with its value |
| `Resampling.Downsampler.PhasedTick` | src/binaryexprast.cpp:1001-1021 | phase = runs*stepD - ticks*stepC, and it stays in (-stepC, stepD - stepC] |
| `Resampling.Downsampler.RealTick` | src/binaryexprast.cpp:1022-1040 | the same for the floating-point form, in real arithmetic with its 1e-9 threshold |
| `Resampling.CounterRuns` | src/binaryexprast.cpp:989-1000 | the counter form has run ceil(n / factor) times and its counter is n modulo the factor |
| `Resampling.DownPhaseRuns` | src/binaryexprast.cpp:1001-1021 | the integer form has run exactly floor((n-1)*stepC/stepD) + 1 times after n ticks |
| `Resampling.DownRunsPeriodic` | src/binaryexprast.cpp:1001-1021 | any stepD consecutive ticks hold exactly stepC runs |
| `Resampling.PhaseReturns` | src/binaryexprast.cpp:1001-1021 | after every stepD ticks the phase is 0 again |
| `Resampling.UnitStepIsCounter` | src/binaryexprast.cpp:989-1021 | with stepC = 1 the integer form fires on the same ticks as the counter, those divisible by the factor |
| `Resampling.CounterPeriodExactly` | src/binaryexprast.cpp:993-1000 | the counter runs every intFactor ticks for ever if and only if the factor is below 2^31 |
| `Resampling.UpCountExactly` | src/binaryexprast.cpp:1155-1180 | the fixed-count loop runs intFactor times in each tick if and only if the factor is below 2^31 |
| `Resampling.IntegerRatesGiveFactor` | src/binaryexprast.cpp:917-928 | every factor of at least 2 is built from some pair of rates |
| `Resampling.LargeFactorsFail` | src/binaryexprast.cpp:917-928 | at rates 2147483648 and 1 the downsampled body runs on every tick, and the upsampled one never |
| `Resampling.Upsampler.constructor` | src/binaryexprast.cpp:1155-1196 | phase 0 satisfies the invariant of each form |
| `Resampling.Upsampler.Tick` | src/binaryexprast.cpp:1155-1253 | each tick's loop ends; after n ticks the body has run exactly ceil(n*stepC/stepD) times; each tick runs the floor or the ceiling of stepC/stepD; stepD = 1 is the fixed count |
| `Resampling.Upsampler.FixedTick` | src/binaryexprast.cpp:1155-1180 | the stateless loop runs its i32 count, none if that is negative |
| `Resampling.Upsampler.PhasedTick` | src/binaryexprast.cpp:1193-1220 | the loop terminates and the stored remainder stays in [0, stepD) |
| `Resampling.Upsampler.RealTick` | src/binaryexprast.cpp:1221-1253 | the loop terminates in real arithmetic for every positive domain rate, and keeps the remainder in range |
| `Resampling.FloorOrCeiling` | src/binaryexprast.cpp:1193-1220 | a count that keeps the remainder in range is the floor or the ceiling of the ratio |
| `Resampling.UpPhaseRuns` | src/binaryexprast.cpp:1193-1220 | the invariant alone fixes the total at ceil(n*stepC/stepD) |
| `Resampling.DownWithinOneStep` | src/binaryexprast.cpp:1001-1021 | runs and ticks stay within one step of the ideal, and there are no more runs than ticks |
| `Resampling.ReducedFollowsRates` | src/binaryexprast.cpp:930-957 | steps scaled back up are the scaled rates to within 1e-6, exactly when the rates are exact |
| `Resampling.ScaledPhaseError` | src/binaryexprast.cpp:902-962 | down- and upsampling with the integer phase follow n*chainRate/domainRate to within one run plus the tolerance per tick and run; within one run when the rates are exact |
| `Resampling.CounterError` | src/binaryexprast.cpp:917-928 | the same bound for the counter form, from the 1e-9 factor tolerance |
| `Resampling.FixedUpsamplingError` | src/binaryexprast.cpp:917-928 | the same for the fixed-count loop |
| `Resampling.NearlyEqualError` | src/binaryexprast.cpp:910-915 | rates within 1e-9 of each other run once per tick, with at most that error per tick |
| `Resampling.RealPhaseError` | src/binaryexprast.cpp:1022-1040 | in real arithmetic the floating-point form stays within one run (and its threshold) for ever |
| `Resampling.RealUpsamplingError` | src/binaryexprast.cpp:1221-1253 | the same for upsampling, within one run or the threshold, whichever is larger |
| `Resampling.BuiltCanDownsample` | src/binaryexprast.cpp:902-962 | every schedule built for a slower chain meets what the downsampling code needs |
| `Resampling.BuiltCanUpsample` | src/binaryexprast.cpp:902-962 | every schedule built for a faster chain meets what the upsampling code needs |
| `Resampling.PhasesFit64Bits` | src/binaryexprast.cpp:930-957 | in every run the integer phase, before and after adding a step, stays far inside 64 bits |
| `Machines.StateMachine.Flatten` | src/statemachine.cpp:103-159 | the recursive walk with its shared counter yields each subtree in pre-order with consecutive ids |
| `Machines.FlattenedIsFlat` | src/statemachine.cpp:103-159 | ids follow the list and every parent has a smaller id than its children |
| `Machines.TreeHasChildren` | src/statemachine.cpp:147-158 | every declared child is flattened, under the right parent |
| `Machines.FindState` | src/statemachine.cpp:407-416 | the search by id finds the state that has it, or there is none |
| `Machines.IdOf` | src/statemachine.cpp:368-375 | the search by name finds the first such state, or there is none |
| `Machines.WithinTransitive` | src/statemachine.cpp:456-470 | being a descendant-or-self is transitive |
| `Machines.ResolveLeaf` | src/statemachine.cpp:24-56 | the walk over initial states ends, even on cycles, at an existing state |
| `Machines.ResolvesToLeaf` | src/statemachine.cpp:24-56 | in a well-named machine it ends inside the state it starts from, at a state without an initial state, and never meets a cycle |
| `Machines.ResolvesAlongNames` | src/statemachine.cpp:24-56 | for every list of states, resolving goes from each state to the first state its initialState names, until there is none or a state is met again |
| `Machines.FlatInitialIsChild` | src/statemachine.cpp:103-159 | a tree whose initial states name own children flattens to a list where they still do |
| `Machines.Loaded` | src/statemachine.cpp:185-304 | transitions without an existing target are skipped; the others are numbered consecutively |
| `Machines.LoadTransitions` | src/statemachine.cpp:185-304 | the loop over one state's transitions computes that list and the next id: the declared transitions whose target names a state, in order, each with the first such state |
| `Machines.AddTransitions` | src/statemachine.cpp:185-304 | every state has exactly the transitions declared for it whose target names a state, in order; ids run 1, 2, 3, ... through the states in order |
| `Machines.NamedInitial` | src/statemachine.cpp:306-318 | the initial state is the first state with the declared name, or the root if there is none |
| `Machines.Process` | src/statemachine.cpp:161-326 | every machine built is well formed and has the declared states and transitions; it starts where the initial states lead from the named state; with unique names and initial states that name children that is a leaf inside it |
| `MachineStep.FirstEnabled` | src/statemachine.cpp:520-662 | the chosen transition is enabled and no earlier candidate is; none is chosen only if none is enabled |
| `MachineStep.HistoryValue` | src/statemachine.cpp:692-712 | exiting writes the active state into the history of exactly the resuming states that are exited or parents of an exited one |
| `MachineStep.HistoryStaysInside` | src/statemachine.cpp:692-712 | those writes keep every history unset or inside its state |
| `MachineStep.FireKeepsInv` | src/statemachine.cpp:663-776 | a fired transition, with or without history, leaves the active state inside its target and keeps the invariant |
| `MachineStep.StepKeepsInv` | src/statemachine.cpp:365-882 | one evaluation keeps the invariant, and initial entry runs only if it had not |
| `MachineStep.RunKeepsInv` | src/statemachine.cpp:365-882 | over every run of evaluations, outside code and inits the active id is a state and each history is 0 or inside its state |
| `MachineStep.MovesOnlyByFiring` | src/statemachine.cpp:538-830 | without an enabled transition neither the active state nor history nor the request changes (but by process code); with one the machine ends inside its target |
| `MachineStep.EnteredUntilInit` | src/statemachine.cpp:383-438 | initial entry code runs at most once between inits |
| `MachineStep.OneFiringPerEdge` | src/statemachine.cpp:552-562 | over every run, between two firings of a transition with a latch code outside the machine turned the latch on anew, unless code that the second evaluation runs before its tests did |
| `MachineStep.OffUntilTurnedOn` | src/statemachine.cpp:863-879 | neither an evaluation nor an init turns on a latch of the machine: only code outside it does |
| `MachineCode.Walk` | src/statemachine.cpp:456-470 | the loop over parent ids collects the state and its ancestors, and ends |
| `MachineCode.TransitionsOf` | src/statemachine.cpp:532-534 | a state's transitions are candidates in declaration order |
| `MachineCode.Collect` | src/statemachine.cpp:520-537 | candidates come innermost owner first |
| `MachineCode.Exited` | src/statemachine.cpp:663-683 | the exited states run from the active one up to and including the owner |
| `MachineCode.EmitExits` | src/statemachine.cpp:684-713 | exit code and history stores of the exited states, leaf to owner |
| `MachineCode.EmitFire` | src/statemachine.cpp:660-827 | the fire block: exits, transition code, the active store, clearing the request, guard updates and entries top-down |
| `MachineCode.EmitPlan` | src/statemachine.cpp:449-858 | one state's guard updates, loaded request, tests and fire code of every candidate, and process code |
| `MachineCode.EmitTests` | src/statemachine.cpp:551-649 | the conjuncts of a transition's condition: latch, or request unless it asks for none, range and step of a generator, last guard expression |
| `MachineCode.EmitChain` | src/statemachine.cpp:538-858 | test, fire and fall-through blocks at their labels |
| `MachineCode.EmitStates` | src/statemachine.cpp:442-861 | the loop over the states lays their blocks out in order, with a switch case for each |
| `MachineCode.ClearsOf` | src/statemachine.cpp:863-879 | the end block clears every latch of the machine |
| `MachineCode.Emit` | src/statemachine.cpp:365-882 | the whole graph is the laid-out program that the execution lemmas are about |
| `MachineGraph.ExecExits` | src/statemachine.cpp:684-713 | running the emitted exits is running the exit code and updating the history as the reference does |
| `MachineGraph.ExecFire` | src/statemachine.cpp:660-827 | a fire block has the effect of the reference's fired transition |
| `MachineGraph.TestsAreEnabled` | src/statemachine.cpp:551-649 | the emitted conjuncts, signed remainder included, hold exactly when the reference enables the transition |
| `MachineGraph.ExecAllClears` | src/statemachine.cpp:863-879 | the end block clears exactly the machine's latches |
| `MachineGraph.ExecChain` | src/statemachine.cpp:538-832 | execution enters the fire block of the first test that holds, or the process block, and reaches the end |
| `MachineGraph.ChainIsReference` | src/statemachine.cpp:538-832 | that is the reference's choice among the candidates, with its effect |
| `MachineGraph.ExecGraph` | src/statemachine.cpp:365-882 | from the entry block the graph reaches its end block, for any layout of states |
| `MachineGraph.GraphIsStep` | src/statemachine.cpp:365-882 | for every machine, world and register content, the emitted graph ends and leaves exactly the world of one reference step |
| `MachineOrder.TopDownDescends` | src/statemachine.cpp:456-471 | what is updated and entered runs from the root, each state a child of the one before, down to the state |
| `MachineOrder.ExitedClimbs` | src/statemachine.cpp:663-683 | what is left starts at the active state, climbs by parents, and ends at and includes the owner, met only there |
| `MachineOrder.RunsInTurn` | src/statemachine.cpp:471-480 | the update, entry and exit code of every state on the way runs once, in that order, piece by piece |
| `MachineOrder.InitialEntryDescends` | src/statemachine.cpp:383-438 | the first evaluation runs entry code from the root down to the initial state |
| `MachineOrder.SelectsFirst` | src/statemachine.cpp:520-662 | the transition found is enabled, and none is that belongs to a state nearer to the active one or is declared before it in the same state |
| `MachineOrder.FiresInOrder` | src/statemachine.cpp:663-827 | a firing runs the exits up to the owner, the transition's code, and, with the request used up, updates and then entries from the root to the target's leaf; the active state is the target's history or that leaf; histories change for exactly the resuming states left or with a child left |
| `MachineOrder.ProcessInTurn` | src/statemachine.cpp:830-858 | without a transition to fire the state's process code runs, and in a parallel state that of all its children, by id |
| `MachineOrder.StepInOrder` | src/statemachine.cpp:365-882 | a whole evaluation, for every machine and world: initial entry, guard updates, selection, firing or processing, clearing of latches |
| `MachineOrder.InitStartsOver` | src/stridegenerator.cpp:405-417 | after an init, wherever the machine was, the next evaluation enters it from the root again and goes on from the initial state; histories and variables stay |
| `MachineOrder.GraphInOrder` | src/statemachine.cpp:365-882 | the emitted graph ends and does all that in that order |
| `MachineOrder.NoRequestNoFiring` | src/statemachine.cpp:562-566 | without a request only latched transitions and those that ask for none fire |
| `MachineOrder.StepTestExactly` | src/statemachine.cpp:569-583 | the test of a generator's argument accepts exactly the arguments on its steps if and only if the step divides 2^32 or the range is shorter than a bound near 2^31 |
| `TriggerLatches.Domain.constructor` | src/binaryexprast.cpp:185-207 | nothing is latched before the first write |
| `TriggerLatches.Domain.Write` | src/binaryexprast.cpp:185-313 | an assignment stores the value and latches a rising edge, so that each latch stays equal to "an edge is pending" in the history |
| `TriggerLatches.Domain.StoreOnly` | src/stridegenerator.cpp:1657-1662 | a write through a call, or in a body that is its own function, stores the value and changes no latch |
| `TriggerLatches.Domain.ClearLatch` | src/statemachine.cpp:863-879 | clearing a latch consumes its pending edges and no other latch's |
| `TriggerLatches.Domain.Test` | src/statemachine.cpp:552-562 | a guard reads on if and only if an edge of its switch, a rise by assignment, is pending |
| `TriggerLatches.PendingAfterAssign` | src/binaryexprast.cpp:302-313 | an assignment adds a pending edge exactly when it turns that switch from off to on |
| `TriggerLatches.PendingAfterStore` | src/functionast.cpp:297-301 | any other write adds none and takes none away |
| `TriggerLatches.PendingAfterClear` | src/statemachine.cpp:863-879 | a clear removes the pending edges of its own latch only |
| `TriggerLatches.OnSinceLastClear` | src/statemachine.cpp:863-879 | a latch is on exactly if an edge came after its last clear, however the switch changed afterwards |
| `TriggerLatches.LatchTellsRiseExactly` | src/binaryexprast.cpp:185-207 | a latch tells at every moment of a history whether its switch rose since the last clear, if and only if each rise that no unconsumed rise precedes was an assignment |
| `TriggerLatches.StoreHidesRise` | src/stridegenerator.cpp:1657-1662 | a call turns a switch on and an assignment repeats it: the switch rose, and its latch is off |
| `TriggerLatches.OneEdgeOneEvaluation` | src/statemachine.cpp:863-879 | a guard that finds the latch on after an earlier evaluation has ended owes it to an edge of its own, wherever the two guards are tested |
| `TriggerLatches.InitCanLatch` | src/stridegenerator.cpp:420-429 | init clears before it assigns defaults: a switch that was off and starts on is latched, and only that |
| `LoadOnce.StepKeepsInv` | src/stridegenerator.cpp:756-790 | every atomic step of any thread keeps one loader, nobody past an unpublished load, and the guard at its value or one higher |
| `LoadOnce.RunKeepsInv` | src/stridegenerator.cpp:750-798 | the same over every interleaving |
| `LoadOnce.LoadsOnceBeforeAnyInit` | src/stridegenerator.cpp:750-798 | for any number of threads the body is started at most once, every init body runs after one thread started and ended it, and a thread in an init body or in the load has that on record |
| `LoadOnce.GuardOnlyRises` | src/stridegenerator.cpp:756-790 | the guard never decreases, and stays 2 once it is 2 |
| `LoadOnce.WaiterReturns` | src/stridegenerator.cpp:784-789 | after 2 a waiter returns at its next load, whatever ran in between |
| `LoadOnce.CallersCanReturn` | src/stridegenerator.cpp:768-794 | no deadlock: from every reachable state every thread can still call init and see it return |
| `LoadOnce.FinishLoading` | src/stridegenerator.cpp:775-782 | the loader can always publish, moving nobody else |
| `NameMangling.ParseComponentOf` | src/namemangler.cpp:33-35 | reading a length-prefixed component gives it back and stops behind it, unless it starts with a digit |
| `NameMangling.ParseKeyOf` | src/namemangler.cpp:39-46 | reading a key gives scope and name back, whatever follows |
| `NameMangling.ParseTypeOf` | src/namemangler.cpp:50-97 | reading a type's code gives the type back and stops behind it, nested arrays and structs included |
| `NameMangling.ParseTypesOf` | src/namemangler.cpp:88-112 | the same for a sequence of codes closed by E |
| `NameMangling.DecodeOfEncode` | src/namemangler.cpp:99-114 | decoding undoes encoding for every well-formed mangled symbol |
| `NameMangling.VariantsExtend` | src/namemangler.cpp:99-114 | the mangled name of a symbol without types is the beginning of the names of its variants, which go on with their types |
| `NameMangling.AbsEncodes` | include/stride/stridejit/namemangler.hpp:53-54 | Abs on two 32-bit integers is _S3Abs_TiiE, on two doubles _S3Abs_TddE |
| `NameMangling.EncodeInjective` | src/namemangler.cpp:99-114 | well-formed symbols with the same mangled name are the same symbol; a plain name only has to not decode, a mangled one may have any name without a leading digit |
| `NameMangling.PlainCollidesExactly` | src/namemangler.cpp:102-104 | a plain name equals some mangled one if and only if it decodes, and then it starts with _S |
| `NameMangling.KeyUnique` | src/namemangler.cpp:39-46 | a key and what follows it determine the components |
| `NameMangling.TypeCodeUnique` | src/namemangler.cpp:50-97 | no type code is a prefix of another: type and remainder are determined |
| `NameMangling.SymbolUniqueExactly` | src/namemangler.cpp:99-114 | any symbol, well-formed or not, shares its mangled name with no well-formed mangled one but itself if and only if the name decodes to nothing or to the symbol |
| `NameMangling.ComponentUniqueExactly` | src/namemangler.cpp:33-46 | the symbols inside a scope are told apart from all well-formed ones if and only if the scope's name starts with no digit |
| `NameMangling.DigitFirstCollides` | src/namemangler.cpp:33-46 | for every scope name that starts with a digit, a symbol in it and a well-formed symbol without scope that have the same mangled name |
| `NameMangling.OneACollides` | src/namemangler.cpp:33-46 | the scope 1a before any name of 18 characters that starts with n reads as one name of 21 |
| `NameMangling.TypesUniqueExactly` | src/namemangler.cpp:50-114 | a symbol is told apart from every other well-formed one if and only if none of its types has the fallback code, at any depth |
| `NameMangling.NameMangler.constructor` | src/namemangler.cpp:166-169 | an empty registry is consistent |
| `NameMangling.NameMangler.Mangle` | src/namemangler.cpp:116-125 | a new symbol is registered once, at the end of its overloads; for well-formed symbols resolving the result gives the symbol back |
| `NameMangling.NameMangler.Lookup` | src/namemangler.cpp:127-136 | a name is found if and only if the symbol was registered |
| `NameMangling.NameMangler.Resolve` | src/namemangler.cpp:138-141 | a resolved symbol was registered and encodes to the name; none is missed |
| `NameMangling.NameMangler.Overloads` | src/namemangler.cpp:143-154 | each variant of a name in a scope, once, in registration order, and nothing else |
| `NameMangling.NameMangler.ResolveUnique` | src/namemangler.cpp:156-164 | a name comes back exactly when it has one variant |
| `NameMangling.NameMangler.Clear` | src/namemangler.cpp:166-169 | clearing forgets every symbol |
| `NameMangling.KeyTellsNames` | src/namemangler.cpp:39-46 | symbols whose components start with no digit share a key only if they share name and scope |
| `StringTokens.FirstFrom` | src/strideruntime_string.cpp:78-97 | the first occurrence at or after the start, or -1 only if there is none |
| `StringTokens.Find` | src/strideruntime_string.cpp:78-97 | the scan finds that occurrence; null views and empty needles give -1; a negative start counts as 0 |
| `StringTokens.NextToken` | src/strideruntime_string.cpp:210-216 | one turn of the loops: the next token, and where the rest begins |
| `StringTokens.Tokenize` | src/strideruntime_string.cpp:197-236 | it terminates, counts all tokens, writes exactly those with a slot, leaves the other slots alone, and reports overflow exactly when there are more tokens than slots |
| `StringTokens.TokenAt` | src/strideruntime_string.cpp:238-266 | the i-th token, or null outside their number |
| `StringTokens.TokenCount` | src/strideruntime_string.cpp:268-290 | null and empty texts count 0, others what the loop counts |
| `StringTokens.CountTokens` | src/strideruntime_string.cpp:275-289 | the number of tokens, or 1 as soon as a delimiter is found at position 0 |
| `StringTokens.CountAgreesExactly` | src/strideruntime_string.cpp:268-290 | the count is the tokenizer's if and only if the text does not start with the delimiter |
| `StringTokens.NoTokenHasDelimiter` | src/strideruntime_string.cpp:197-236 | no token contains the delimiter |
| `StringTokens.JoinOfTokens` | src/strideruntime_string.cpp:197-236 | joining all tokens with the delimiter gives the text back |
| `StringTokens.TokensOfJoinExactly` | src/strideruntime_string.cpp:197-236 | for every non-empty delimiter and list of tokens, the pieces of the joined text are the tokens if and only if each token ends at the first delimiter after its start |
| `StringTokens.OneByteSeparates` | src/strideruntime_string.cpp:197-236 | for a one-byte delimiter those are exactly the tokens without it |
| `StringTokens.TokenizeUndoesJoinExactly` | src/strideruntime_string.cpp:197-236 | the tokenizer gives the tokens back exactly for such lists, a single empty token excepted, for which it returns none |
| `StringArena.Arena.constructor` | src/strideruntime_string.cpp:539-541 | an arena starts with no live results |
| `StringArena.Arena.CopyTo` | src/strideruntime_string.cpp:545-552 | one input lands at its place, unchanged by what was copied before it, and nothing else is written |
| `StringArena.Arena.Concat` | src/strideruntime_string.cpp:520-556 | the result is the inputs in order, earlier results included; the offset stays in the buffer; nothing but the result and its terminator is written; results since the last restart stay disjoint and keep their text |
| `StringArena.FitsExactly` | src/strideruntime_string.cpp:539-555 | a result and its terminator stay inside the buffer if and only if the total is below 65536, wherever the offset is |
| `StringArena.Arena.CopyNext` | src/strideruntime_string.cpp:545-552 | one more input, appended to what has been written |
| `StringArena.Arena.Place` | src/strideruntime_string.cpp:539-555 | the concatenation of what the inputs held, terminated and kept as a live result |
| `StringArena.Arena.PlaceRepeated` | src/strideruntime_string.cpp:305-315 | the copies, terminated, in the space reserved for them |
| `StringArena.Arena.Publish` | src/strideruntime_string.cpp:542-555 | terminating a result and reserving its space keeps all live results |
| `StringArena.Arena.WriteAll` | src/strideruntime_string.cpp:545-552 | the copy loop writes the concatenation of what the inputs held before the call |
| `StringArena.Arena.WriteRepeated` | src/strideruntime_string.cpp:309-313 | the copy loop writes that many copies and nothing else |
| `StringArena.Arena.Repeat` | src/strideruntime_string.cpp:292-316 | byte by byte whole copies of the text, as many as asked for if they fit and as many as fit otherwise, with the same offset, write and liveness guarantees |
| `StringArena.Clamp` | src/strideruntime_string.cpp:297-301 | the space reserved and the copies kept: all that were asked for if they stay below the buffer size, the largest number that does otherwise |
| `StringArena.NewResult` | src/strideruntime_string.cpp:539-555 | a result above the kept ones disturbs none of them |
| `StringArena.LiveInputsAreClear` | src/strideruntime_string.cpp:520-556 | a live result can be an input of the next call exactly while the buffer does not restart or if it lies behind the new result |
| `StringFormat.CloseBrace` | src/strideruntime_string.cpp:609-612 | the first closing brace at or after a position |
| `StringFormat.FormatArena.constructor` | src/strideruntime_string.cpp:581-582 | a fresh buffer starts at offset 0 |
| `StringFormat.FormatArena.Append` | src/strideruntime_string.cpp:591-597 | appends as much of a text as fits, and never past it |
| `StringFormat.FormatArena.Parse` | src/strideruntime_string.cpp:603-733 | the piece at a position: doubled brace, hole, or plain character, in the parser's order of tests |
| `StringFormat.FormatArena.Write` | src/strideruntime_string.cpp:603-736 | the parse loop writes the expansion of the format, cut to the room |
| `StringFormat.FormatArena.Format` | src/strideruntime_string.cpp:570-742 | for every starting offset: at least 4096 bytes of room, the result is the expansion cut to it, and no other byte of the buffer changes |
| `StringFormat.EscapedLiteral` | src/strideruntime_string.cpp:603-618 | anywhere in a format, a text with doubled braces stands for itself |
| `StringFormat.FilledHole` | src/strideruntime_string.cpp:609-726 | a hole is replaced by the next argument's text and uses it; with no argument left it is empty |
| `StringFormat.LoneCharacter` | src/strideruntime_string.cpp:603-733 | a closing brace alone, an opening brace that nothing closes and every other character stand for themselves |
| `StringFormat.FormatFillsTemplate` | src/strideruntime_string.cpp:603-736 | formatting a printed template fills its holes in order and restores its literals |
| `StringFormat.EscapedTextIsItself` | src/strideruntime_string.cpp:603-618 | doubling every brace of a text makes it format to itself, for every text and argument list |
| `EarlyTermination.ArgsInTurn` | src/functionast.cpp:1760-1770 | operands are evaluated in order, each in the store the ones before it left |
| `EarlyTermination.TimesAdd` | src/binaryexprast.cpp:1155-1253 | a rate block's body repeated a and then b times is the body repeated a + b times |
| `EarlyTermination.OutsideIsUnchanged` | src/binaryexprast.cpp:79-320 | whatever a statement computes, nested expressions included, it changes nothing outside the variables it may write |
| `EarlyTermination.UnreportedIsUnchanged` | src/functionast.cpp:2641-2655 | a statement that neither reports a variable nor hides a write of it, nested or through a call's property, leaves it as it was |
| `EarlyTermination.EmitBody` | src/functionast.cpp:772-829 | tests follow the reporting statements, except a loop's last one |
| `EarlyTermination.TestsFollowReports` | src/functionast.cpp:772-829 | the code is the statements in order, a test behind each that reports the switch, the last of a loop excepted, and nothing else |
| `EarlyTermination.AssignIsTested` | src/binaryexprast.cpp:885-892 | after Done = on the test leaves, and Out = 3 does not run |
| `EarlyTermination.ReportsOnlyWrites` | src/binaryexprast.cpp:885-900 | nothing is reported that is never written |
| `EarlyTermination.PlainStatementsAreDirect` | src/binaryexprast.cpp:885-900 | assignments, pushes, frame copies, calls and commands of values that write nothing are such statements, alone, under a condition and at a rate |
| `EarlyTermination.DirectReports` | src/binaryexprast.cpp:885-900 | a statement that writes at its own target only, blocks and loops of such statements included, reports every write of the switch |
| `EarlyTermination.ReactionTerminates` | src/functionast.cpp:772-829 | with the switch off at entry and hidden writes harmless, testing only after reported writes ends with the store that testing after every statement leaves |
| `EarlyTermination.IterationTerminates` | src/functionast.cpp:772-911 | the same for one iteration, which also leaves exactly when the fully tested one does: the test of the back edge covers the last statement |
| `EarlyTermination.LoopTerminates` | src/functionast.cpp:831-911 | the whole loop takes the same iterations to the same store, and runs for ever exactly when the fully tested one does |
| `EarlyTermination.DirectBodiesTerminate` | src/functionast.cpp:772-911 | bodies of statements that write at their own targets only are right with the switch off at entry, as reactions, as iterations and as whole loops, whatever they mean |
| `EarlyTermination.WritesAll` | src/binaryexprast.cpp:885-900 | every variable a statement may write is written under some meaning, so the set is no overestimate |
| `EarlyTermination.RightExactlyWhenHarmless` | src/functionast.cpp:772-911 | for reactions and for loop iterations, testing after reported writes is right under every meaning of the statements and every store with the switch off if and only if nothing is written between a hidden write of the switch and the next test |
| `EarlyTermination.HarmShows` | src/functionast.cpp:772-829 | otherwise there are meanings under which the final stores differ |
| `EarlyTermination.RightExactlyWhenOff` | src/functionast.cpp:772-829 | harmless bodies are all right if and only if the switch is off at entry |
| `EarlyTermination.ChainHidesWrite` | src/stridegenerator.cpp:2432-2434 | the chain on >> Done >> Out hides its write of Done, and the statement after it still runs |
| `EarlyTermination.PropertyHidesWrite` | src/functionast.cpp:2641-2655 | the call Check(found: Done) writes Done through its property and reports nothing, and the statement after it still runs |
| `ConstantFills.Collect` | src/strideenvironment.cpp:939-984 | the streams collected, in order, each against the constants filled before it |
| `ConstantFills.EvalAgrees` | src/strideenvironment.cpp:590-643 | an expression has the same value, and leaves the same behind, in two stores that agree on what it and its calls read, in the compiler as in the program if it calls pure code |
| `ConstantFills.FeedAgrees` | src/strideenvironment.cpp:590-643 | a stream passes the same value on and keeps such stores in agreement, its destination included |
| `ConstantFills.ShowsOnlyKnown` | src/strideenvironment.cpp:590-643 | no runtime read is reported if and only if every block the stream shows is a given constant or one filled before; what its calls read inside is not looked at |
| `ConstantFills.CallsOnlyPureExactly` | src/strideenvironment.cpp:651-720 | a stream calls only pure code if and only if every function it names is pure |
| `ConstantFills.OneElementWritten` | src/strideenvironment.cpp:1027-1061 | what flows into an indexed block becomes that element, if there is one, and changes nothing else |
| `ConstantFills.WritesOnly` | src/strideenvironment.cpp:579-586 | evaluating changes only property outputs, what called bodies write and the blocks a nested stream flows into |
| `ConstantFills.FeedWritesOnly` | src/strideenvironment.cpp:579-586 | a value that flows on changes only the blocks it flows into and what the calls on its way write |
| `ConstantFills.FoldKeepsValue` | src/strideenvironment.cpp:730-815 | folding preserves the value of every expression, and what it leaves behind |
| `ConstantFills.FoldKeepsFeed` | src/strideenvironment.cpp:730-815 | folding preserves what every node does with the value that flows into it |
| `ConstantFills.FoldKeepsStream` | src/strideenvironment.cpp:730-815 | a folded stream does what the stream did, in every store that holds the filled values |
| `ConstantFills.FoldWritesNoMore` | src/strideenvironment.cpp:730-815 | a folded node writes nothing it did not write before |
| `ConstantFills.DestinationIsKept` | src/strideenvironment.cpp:730-815 | a stream's final destination is never replaced by a value |
| `ConstantFills.FoldIsIdempotent` | src/strideenvironment.cpp:767-776 | visiting a folded node again changes nothing |
| `ConstantFills.FoldIsComplete` | src/strideenvironment.cpp:730-815 | no source, property, list member or index is left that reads a filled constant at a literal index inside it, or any block at a negative one |
| `ConstantFills.FoldTouchesOnlyKnown` | src/strideenvironment.cpp:730-815 | a tree without such a read stays as it is |
| `ConstantFills.ReadFolds` | src/strideenvironment.cpp:730-745 | a read becomes the element at its folded index, off below 0, and keeps its place when that is unknown |
| `ConstantFills.TableReadFolds` | src/strideenvironment.cpp:730-815 | Table[4] >> Out becomes 12 >> Out, and Empty[Squares[4]] >> Out becomes 0 >> Out |
| `FilledPrograms.FillAgrees` | src/strideenvironment.cpp:939-984 | a collected, contained stream, run where what it and its calls read has its computed value and its state is fresh, gives its constant the computed value |
| `FilledPrograms.ComputedStays` | src/strideenvironment.cpp:1027-1061 | what no later collected stream writes keeps its value for the rest of the compiler's run |
| `FilledPrograms.KnownStays` | src/strideenvironment.cpp:1027-1061 | so do constants that are given or filled by then |
| `FilledPrograms.StayingSettles` | src/strideenvironment.cpp:1064-1111 | a stream that stays, folded, does in the transformed program what it does in the original, with all it reads and writes inside its calls |
| `FilledPrograms.CollectedSettles` | src/strideenvironment.cpp:1064-1111 | a collected, contained stream brings the original program up to what was computed |
| `FilledPrograms.RunSettles` | src/strideenvironment.cpp:1064-1111 | over every schedule in order, the two programs differ only in constants whose stream has not run and in the state of removed calls |
| `FilledPrograms.TransformedProgramAgrees` | src/strideenvironment.cpp:924-1111 | at every moment of such a schedule the program without its collected streams, with constants preset and reads folded, agrees with the original |
| `FilledPrograms.CompileTimeAgrees` | src/strideenvironment.cpp:939-1061 | each constant has, once its stream has run in the program, the value the compiler computed |
| `FilledPrograms.PendingExactly` | src/strideenvironment.cpp:939-984 | a constant is pending exactly while the stream that fills it has not run |
| `FilledPrograms.CollectsExactly` | src/strideenvironment.cpp:939-984 | a stream is collected if and only if it ends in an unfilled constant that no earlier collected stream fills, shows otherwise only given constants and ones such streams fill, and calls pure functions only |
| `FilledPrograms.DomainInOrderExactly` | src/stridegenerator.cpp:735-797 | a domain's runs, onLoad once and then its top-level streams on every tick, are in order if and only if the collected streams are contained, no onLoad stream uses a constant filled at top level or later in onLoad, no top-level stream one filled later at top level, and, from the second tick on, no collected top-level stream reads state it changes |
| `FilledPrograms.DomainAgrees` | src/stridegenerator.cpp:735-797 | such a domain leaves every block the same in both programs after any number of ticks |
| `FillExactness.EarlyUseShows` | src/strideenvironment.cpp:1064-1111 | an early use whose value reaches the end of its stream, staying or collected, makes the programs differ for some functions and stores |
| `FillExactness.AheadShows` | src/strideenvironment.cpp:590-643 | so does a read inside a collected call of a block that is neither given nor filled before |
| `FillExactness.AsideShows` | src/strideenvironment.cpp:939-984 | so does a write inside a collected call, or to one of its property outputs, of a block that no other stream writes |
| `FillExactness.AgainShows` | src/stridegenerator.cpp:735-797 | so does a collected stream that runs a second time and reads state it changed |
| `FillExactness.ComputedIgnoresMark` | src/strideenvironment.cpp:939-1061 | what the compiler computes does not depend on what calls leave in their state, when each fill reads before it writes |
| `FillExactness.AgreesExactlyInOrder` | src/strideenvironment.cpp:924-1111 | for a run of all streams in which disorder, if there is any, shows somewhere, the two programs agree throughout, for all functions and stores, if and only if the run is in order |
| `FillExamples.LoadedTableIsInOrder` | src/strideenvironment.cpp:939-984 | a table filled in onLoad and read at top level is in order |
| `FillExamples.LoadReadsTooEarly` | src/stridegenerator.cpp:735-797 | an onLoad stream that reads a constant filled at top level: the compiler computes 5, the program 0 |
| `FillExamples.SumBaseReadsAhead` | src/strideenvironment.cpp:590-643 | HostFill() >> Base; SumBase() >> Total, where SumBase reads Base inside: only the second is collected, the compiler computes 0 and the program 7 |
| `FillExamples.AccumulateRunsAgain` | src/strideenvironment.cpp:939-984 | 1 >> Accumulate() >> T with a module that adds to what it keeps: computed once it is 1, in the program it is 2 on the second tick |

## Left out

- LLVM: building IR, types and casts of the values, optimization, the JIT, object files, debug information.
- IEEE rounding: rates and floating-point phases are real numbers.
- Widths: ring sizes with 2*capacity beyond 2^31, rounding of ratios beyond 64 bits and lengths beyond 32 bits are unbounded here, except where the table says otherwise.
- The fallbacks of the rate blocks when their phase field is missing.
- `RingBuffers`: a push or view without its storage, and the conversion of the pushed value to the element type.
- Buffer modes other than sliding are rejected by StrideJIT too; the properties `public` and `ready` as declared ports are only counted as read-only errors.
- `LoadOnce`: atomic accesses are steps of one sequentially consistent order; an onLoad body that calls the load function itself is not modelled.
- `Machines`: states and transitions are given as finite trees; resolving names to declarations, and declarations that contain themselves, are not modelled.
- `MachineCode`: all of a machine's variables are assumed to have storage; guards have no side effects; state code cannot reach the active, entered and history variables; the loop variable of a generator transition reads the request argument as a variable.
- `NameMangling`: LLVM types are values, so the identity of two struct types with the same name is their name.
- `StringTokens`: tokens are texts, not spans into the source.
- `StringArena.Arena.Concat`: requires a total below 65536, without which a write leaves the buffer (`FitsExactly`), and inputs that do not overlap the new result, for which a memory copy is not defined.
- `StringArena.Arena.Repeat`: requires an input that does not overlap the space reserved.
- `StringFormat.FormatArena.Format`: the text an argument gives for a specification is opaque (number formatting is the C library's); a format or argument that overlaps the new result is excluded.
- `EarlyTermination`: loops over an iterator, and a termination switch that does not exist.
- `TriggerLatches`: an assignment through an index does not latch either; switches are scalars here.
- `ConstantFills`: trees are values, so folding returns a new tree; a literal inside a stream passes its input on; what the bodies of calls read, write and keep is listed with the call, in place of the bodies; the search for impure calls is a predicate on names; each name has one declaration; every collected stream's evaluation succeeds.
- `FilledPrograms`: an onLoad list that uses a block of its domain, which is reported and not run; programs in which two streams write a filled constant or share the state of a call.
- `FillExactness.AgreesExactlyInOrder`: where the only disorder is a use in an index, at a negative or computed index, or of a value that a later block of the stream discards, a write that another stream makes too, or state reread in a program where some fill reads what it wrote in the same run, it is not shown to matter; there order is sufficient only.
- The generation of calls and their argument plumbing, instance state access, C headers, caches, dynamic libraries, the parser and name resolution, string trimming, substrings and number parsing, and the testing harness.
