# Verification of the neurosymbolic runtime

The Go engine is a 50 Hz robot runtime. This project models the parts of it whose correctness is not visible in any one
function, and proves what they promise.

- **The tick engine** (`Engine.dfy`, `EngineLifetimes.dfy`, `EnginePoses.dfy`, `Arbitration.dfy`, `Behavior.dfy`,
  `Trajectory.dfy`). A class holds the live behaviors in an array that removals compact in place. Admission may evict,
  ids are minted in a loop, commands keep arriving while the inbox is drained, one owner per channel is chosen among
  those that contribute, and a run loop counts consecutive sink failures. A run is proved tied edge to edge, with one
  complete pose handed over per tick, and over a whole run a behavior with a bound is asked for its offer only so many
  times and then never again.
- **The rule evaluator and the registry** (`RuleState.dfy`, `RuleHistory.dfy`, `Streak.dfy`, `SuppressionLedger.dfy`,
  `Registry.dfy`, `Admission.dfy`, `Evaluator.dfy`, `EvaluatorRuns.dfy`, `EvaluatorSeam.dfy`). A rule's constant-size
  state is proved to stand for its whole history; the published ledger and the logged streak tell the same story; and
  each tick is proved to leave the engine clean of everything inhibited and every unblocked goal standing or refused.
  Over any run of ticks the fires of a rule, its state and its ledger are those of what it met, at most one live
  behavior of a name was admitted by a rule, and with the evaluator as the engine's seam each of them is asked only a
  bounded number of times.
- **The stream session** (`Session.dfy`, `SessionProofs.dfy`, `SessionLate.dfy`, `SessionEnds.dfy`, `Framing.dfy`). A
  step system with one program counter per goroutine, split at every atomic, lock and channel operation and inside every
  write. The guarantees hold of every interleaving; where they stop, a concrete run or an exact condition says so.
- **The layered rules** (`RulesLayers.dfy`, `RulesLoad.dfy`, `RulesFiles.dfy`). Folding layers is proved equal to a
  reading in which the highest layer that mentions an id has the last word, with the one order of the survivors fixed by
  where their current live span began.
- **The text formats** (`Migrate.dfy`, `MigrateLimits.dfy`, `MigrateWitnesses.dfy`, `SenseLog.dfy`) and **the
  heartbeat** (`Heartbeat.dfy`).

`Common.dfy`, `Text.dfy`, `RealArithmetic.dfy` and `RuleTypes.dfy` hold what several of these share. Time is a real
number of seconds, except in the heartbeat, which works in integer nanoseconds as the source does; pose values are
reals and text is a sequence of characters.

Where the source's comments and its code differ, the code is modelled:

- `internal/stream/session.go:91-170` says nothing follows the end frame. A tick goroutine still inside `enqueue` when
  the flush passes can put one frame after it (`SessionProofs.LateFrame`); it is exactly that one frame, and none when
  no enqueue is under way (`SessionProofs.ShutdownDelivers`). When the counter test passes, some continuation puts a
  frame there if and only if the frame being enqueued encodes and can still pass the gate, session and connection are
  open, and the queue has room at all (`SessionLate.LateFrameIff`).
- `internal/stream/session.go:416-428` promises the hello reply comes first. That needs a failed write to kill the
  connection; otherwise `subscribed` is already set when the reply fails, and a pose can be the first frame
  (`SessionProofs.PoseBeforeHello`).
- `internal/mgmt/migrate.go:39-44` says a string form the scanner does not model can only make a line ineligible, and
  `:31-37` that an eligible line can only be the document's own. Three things make it settle on another line, in
  documents the caller would have loaded: an escaped quote in a multi-line basic string
  (`MigrateWitnesses.EscapedQuoteMisleads`); a multi-line string that ends with four quotes
  (`MigrateWitnesses.FourQuotesMislead`); and, with no multi-line string at all, an inline table over several lines that
  holds a `schema_version` of its own (`MigrateWitnesses.InlineTableMisleads`), which the reader of TOML this repository
  uses accepts. The caller's comparison then refuses the result. The scanner and a reader of TOML agree on the strings
  of a document if and only if neither of the first two occurs (`MigrateLimits.PlainMultisAgree`); then they take every
  line for the same if and only if no line that matches or begins with a bracket starts inside an array or an inline
  table (`MigrateLimits.PlainLinesAgree`), an edit is the right one if and only if its line starts at the top
  (`MigrateLimits.PlainRewrites`), and the outcome is right if and only if the first line that matches or begins with a
  bracket does, or is a bracket in a document without a version line (`MigrateLimits.SettlesRightIff`). A document with
  one of the first two can still come out right, when the scanner is back in step by the next line start.
- `internal/rules/load.go:20-25` says an override keeps the earlier layer's position. A rule that was tombstoned and
  then revived takes the position of the layer that revived it (`RulesLayers.LiveInOrder`), which is also why the order,
  unlike the rules themselves, depends on how merges are bracketed (`RulesLayers.OrderDoesNotAssociate`).

## Model

| member | source | states |
|---|---|---|
| Arbitration.Arbitrate | internal/tick/arbitration.go:24-55 | every channel goes to the eligible claimant greatest by class priority and then admission order, and to nobody when none is eligible |
| Arbitration.OwnerOf | internal/tick/arbitration.go:31-52 | the inner scan finds that claimant, abstentions skipped, ties to the later one |
| Arbitration.OwnerIsUnique | internal/tick/arbitration.go:10-24 | there is only one right owner, so the result is determined |
| Arbitration.Admit | internal/tick/arbitration.go:84-123 | evicts exactly the stoppable behaviors that share a channel with a stopping newcomer, and blocks exactly the claimed channels that are undeclared or outranked; a passive newcomer does neither |
| Arbitration.LastOwns | internal/tick/arbitration.go:24-55 | the most recent behavior owns a channel it contributes on exactly when nobody contributing there outranks it |
| Arbitration.OwnsExactly | internal/tick/arbitration.go:24-55 | a behavior owns a channel exactly when it offers something there, nobody of a higher class does (unstoppable, stopping, stoppable, passive), and nobody of its own rank admitted later |
| Arbitration.NobodyOwnsExactly | internal/tick/arbitration.go:24-55 | a channel is nobody's exactly when nobody offers anything there |
| Arbitration.ForecastIsSound | internal/tick/arbitration.go:57-84 | a non-passive newcomer owns every claimed channel not reported blocked, on every tick it contributes there, whoever abstains or leaves, until somebody newer is admitted |
| Arbitration.Compose | internal/tick/arbitration.go:146-170 | the pose has exactly the declared channels at their declared arity; each shows its owner's offer, or its neutral; exactly the offers of the wrong width are dropped |
| Behaviors.Bind | internal/tick/behavior.go:209-275 | accepts and completes exactly the behaviors the vocabulary allows |
| Behaviors.BindChannels | internal/tick/behavior.go:277-319 | defaults the claims to the action's, refuses an undeclared or repeated channel, attaches only claimed trajectories |
| Behaviors.BoundIsWell | internal/tick/behavior.go:203-343 | whatever binding accepts has a name, distinct declared channels, and a lifetime that ends or loops |
| Behaviors.TrajectoryHasArity | internal/tick/behavior.go:177-195 | a trajectory-driven behavior always offers a channel the width it was declared with |
| Behaviors.BindsExactly | internal/tick/behavior.go:209-343 | binding accepts exactly a behavior of a known class, with a positive duration or a loop, on declared channels each named once, that runs a declared action, or names itself and its channels and brings a callback |
| Behaviors.BindsTheAction | internal/tick/behavior.go:277-319 | it claims what it asked for, or all its action claims, and carries that action's trajectories on exactly those |
| Behaviors.OffersItsKeyframes | internal/tick/behavior.go:177-195 | a behavior's clock starts when it is admitted: that long after it, it offers the keyframe declared for that time |
| Behaviors.OffersByAge | internal/tick/engine.go:526-529 | what it offers depends on the time since its admission alone |
| Behaviors.OffersOnlyClaims | internal/tick/behavior.go:177-195 | it offers exactly on the claimed channels that carry a trajectory, or that its callback returned |
| Trajectories.CompileKeyframes | internal/adaptor/trajectory.go:184-220 | accepts exactly a list of ordered keyframes that starts at 0 and has the right width throughout; its duration is the last keyframe's time |
| Trajectories.CompileEasing | internal/adaptor/trajectory.go:153-182 | accepts exactly easings of positive duration whose ends have the right width |
| Trajectories.SampleKeyframes | internal/adaptor/trajectory.go:85-107 | the scanning loop computes the piecewise-linear specification |
| Trajectories.LerpValues | internal/adaptor/trajectory.go:222-228 | interpolates componentwise |
| Trajectories.SampleArity | internal/adaptor/trajectory.go:63-126 | a sample has the declared width at every time |
| Trajectories.SampleWithin | internal/adaptor/trajectory.go:63-126 | every component stays between any bounds that hold of its declared values, at every time |
| Trajectories.LoopRepeats | internal/adaptor/trajectory.go:69-76 | a looping trajectory repeats after any whole number of durations, from any time, negative ones included |
| Trajectories.KeyframeIsHit | internal/adaptor/trajectory.go:85-107 | at a keyframe's time the sample is the last keyframe declared at that time |
| Trajectories.EndsHold | internal/adaptor/trajectory.go:69-90 | a trajectory that does not loop shows its start before its time, and its last value from its duration on |
| Trajectories.HoldShowsFrom | internal/adaptor/trajectory.go:109-117 | until it is over, a held move shows where it started |
| Trajectories.LinearIsTwoKeyframes | internal/adaptor/trajectory.go:109-126 | a linear move is the trajectory of its two keyframes, at every time, looping or not |
| Trajectories.EaseInOutIsLinearEased | internal/adaptor/trajectory.go:109-126 | an eased move shows at time t of its duration d what the linear one shows at ease(t/d)*d |
| Trajectories.SteepestSegmentBounds | internal/adaptor/trajectory.go:85-107 | with strictly increasing times, a slope bounds every change of a component over all times exactly when it bounds every segment's |
| TickEngine.CompactArray | internal/tick/engine.go:436-463 | in-place compaction leaves exactly the kept behaviors in their order |
| TickEngine.Engine.Compact | internal/tick/engine.go:436-463 | removal keeps ids distinct and the live array in admission order |
| TickEngine.Engine.NextId | internal/tick/engine.go:482-492 | ends within one more round than there are live behaviors, with an id nobody has |
| TickEngine.MintedInjective | internal/tick/engine.go:482-492 | distinct counters mint distinct ids |
| TickEngine.Engine.AdmitBehavior | internal/tick/engine.go:397-434 | refuses exactly what does not bind or repeats a live id and changes nothing then; otherwise the newcomer stands last, with a fresh id, exactly the displaced are gone, and the roll of all admissions grows by just the newcomer |
| TickEngine.Engine.Evict | internal/tick/engine.go:436-463 | removes exactly the behaviors with that id or name, and says how many |
| TickEngine.NewcomerIsTheRequest | internal/tick/engine.go:397-434 | a newcomer has the class, lifetime, action and channels of the request, and its time of admission if it brings one |
| TickEngine.WithNewcomerExactly | internal/tick/engine.go:397-434 | an admission leaves live exactly the newcomer and whoever it does not stop: all but the stoppable behaviors that share a channel with a stopping newcomer |
| TickEngine.Engine.Send | internal/tick/engine.go:256-265 | a full inbox loses the command and never blocks |
| TickEngine.Engine.DrainInbox | internal/tick/engine.go:361-395 | applies commands in order, one after the other, at most as many as the inbox holds, while others keep arriving |
| TickEngine.DrainIsFifo | internal/tick/engine.go:361-374 | what a drain took and left is the inbox and then, in order, those of the later commands that found room; it stops early only at an empty inbox |
| TickEngine.NothingWaitsLong | internal/tick/engine.go:358-374 | everything waiting when a tick's drain begins is applied in that tick, whoever keeps sending; if nobody does, nothing is left |
| TickEngine.Engine.ComposeTick | internal/tick/engine.go:504-524 | exactly whoever has no bound, or was admitted less than that long ago, stays; the pose is the one their contributions and rightful owners make; only sensor-driven owners are ever dropped for their width |
| TickEngine.UnexpiredExactly | internal/tick/engine.go:506-514 | what a tick composes from is, in the same order, exactly whoever has no bound or was admitted less than that long ago |
| EnginePoses.PoseShowsWinners | internal/tick/engine.go:516-524 | every channel of a pose shows what the one behavior that prevails there offers, by class and then by admission, or its neutral where that has the wrong width or nobody offers anything |
| EnginePoses.SensorsOffer | internal/tick/behavior.go:177-195 | a sensor-driven behavior offers just what its callback returned on the channels it claims, and the others ignore it |
| TickEngine.OnlySensorsMisfit | internal/tick/arbitration.go:146-170 | the arity drop is never taken for a trajectory-driven behavior |
| TickEngine.Engine.Write | internal/tick/engine.go:533-546 | any success starts the failure count again; the run gives up exactly when it reaches the ceiling |
| TickEngine.Engine.InvokeSeam | internal/tick/engine.go:554-567 | an installed seam's admissions and evictions take effect in order, and an absent one changes nothing |
| TickEngine.Engine.Tick | internal/tick/engine.go:308-325 | a tick drains, expires, composes, writes and calls the seam, in that order, from one edge to the next |
| TickEngine.GivesUpIffFailures | internal/tick/engine.go:533-546 | the running count reaches the ceiling exactly when the last that many writes all failed |
| TickEngine.HeldOutStops | internal/tick/engine.go:301-329 | a run stops with an error exactly at the first such tick |
| TickEngine.Engine.Loop | internal/tick/engine.go:301-329 | ticks run edge to edge, one numbered pose each, until the inputs end or the sink has failed that often |
| TickEngine.RanPosesComplete | internal/tick/engine.go:301-329 | every pose a run hands the sink is complete and carries its tick's number |
| TickEngine.Engine.SeedBaseLayer | internal/tick/engine.go:334-356 | the base layer is one passive looping behavior, or the run is refused |
| TickEngine.Engine.Run | internal/tick/engine.go:301-329 | the run begins with the live set, seam and inbox it was given, plus the base layer; the sink log is one pose per tick in order plus one neutral pose unless settling is off; the error says exactly why the run ended |
| TickEngine.Engine.Settle | internal/tick/engine.go:611-621 | the final pose is the neutral one, or none |
| Streaks.Streak.Enter | internal/senselog/streak.go:38-57 | counts the tick, and logs only the opening and a change of reason |
| Streaks.Streak.End | internal/senselog/streak.go:62-71 | closes an open streak with one summary and forgets it |
| Streaks.Streak.Fire | internal/senselog/streak.go:75-78 | the summary comes before the fire line |
| RuleStates.RuleState.StepArming | internal/ruleeval/eval.go:429-442 | the re-arm fields after one predicate result |
| RuleStates.RuleState.FireReason | internal/ruleeval/eval.go:444-453 | rearming before cooldown before fired |
| RuleStates.RuleState.MarkFired | internal/ruleeval/eval.go:455-463 | a fire disarms only under hysteresis |
| RuleStates.RuleState.Suppress | internal/ruleeval/eval.go:467-479 | counts the tick in ledger and streak, and publishes only transitions |
| RuleStates.RuleState.Release | internal/ruleeval/eval.go:481-494 | closes an open episode once, in ledger and streak |
| RuleHistory.StateStandsForHistory | internal/ruleeval/eval.go:429-463 | with a clock that never goes back: `lastFire` is the last fire, `falseSince` starts the current quiet run, and `armed` holds exactly when nothing has fired, hysteresis is 0, or a quiet run of at least hysteresis seconds followed the last fire |
| RuleHistory.FiresAreSpaced | internal/ruleeval/eval.go:429-463 | two fires are at least the cooldown apart, and under hysteresis a long enough unbroken quiet run lies strictly between |
| RuleHistory.FiresExactlyWhen | internal/ruleeval/eval.go:384-453 | a tick fires exactly when it matches, nothing inhibits or refuses it, every fire before it is at least the cooldown old and, under hysteresis, was followed by a long enough quiet run; otherwise the first of these that fails is the reason it is suppressed for |
| SuppressionLedger.LedgerStandsForHistory | internal/ruleeval/eval.go:467-494 | the open episode and everything published are what the history says: one event per transition, one summary per episode |
| SuppressionLedger.LedgerAndStreakAgree | internal/ruleeval/eval.go:345-494 | over every run ledger and streak agree on open, reason, reasons and count, and their events and lines correspond one to one |
| SuppressionLedger.EveryTickAccounted | internal/ruleeval/eval.go:345-494 | matched ticks are fires plus suppressed ticks, and the summaries plus the open count are the suppressed ticks |
| Registries.Registry.RunOnce | internal/ruleeval/registry.go:140-173 | queues a bounded admission; refuses no action, a negative duration, or a looping action without one |
| Registries.Registry.StandingGoal | internal/ruleeval/registry.go:175-202 | records the goal at its first position; a changed one evicts what runs under its name |
| Registries.Registry.Withdraw | internal/ruleeval/registry.go:204-224 | removes the goal from map and order and queues its eviction exactly if it stood |
| Registries.Registry.Blocks | internal/ruleeval/registry.go:287-299 | either word is inhibited, by the registry or by this tick's rules |
| Registries.WithoutOne | internal/ruleeval/registry.go:210-218 | filtering the order in place keeps the other goals, each once |
| Registries.RequestIdInjective | internal/ruleeval/registry.go:351-355 | minting once more never gives an id of the same name again |
| Admissions.ActionDuration | internal/ruleeval/eval.go:586-605 | the longest declared trajectory, or nothing when that is 0 |
| Admissions.Build | internal/ruleeval/eval.go:586-614 | the behavior a request asks for, with its bound |
| Admissions.BuiltOnce | internal/ruleeval/eval.go:586-614 | a request determines the behavior |
| Admissions.FiniteMeansBounded | internal/ruleeval/eval.go:591-605 | once bound, what a react rule or a run-once asks for has a positive finite duration |
| Admissions.AdmitRequest | internal/ruleeval/registry.go:338-364 | a blocked request is refused before it mints an id; otherwise it is admitted, alone and last, unless the engine turns it away |
| Admissions.TurnedAwayIff | internal/ruleeval/registry.go:351-355 | being turned away depends on the request alone, not on how its behavior was built |
| Admissions.TurnedAwayExactly | internal/ruleeval/registry.go:338-364 | the engine turns a request away exactly when its action is not declared, it would not last any time, or somebody live has its id |
| Admissions.Apply | internal/ruleeval/registry.go:366-376 | the queued intents take effect in order, and whatever they add will end |
| Admissions.Enforce | internal/ruleeval/registry.go:378-419 | what stays live is exactly what runs under no blocked word and under no name a chain of goals leads to from one |
| Admissions.CascadeExactly | internal/ruleeval/registry.go:396-403 | enforcement reaches exactly the blocked words and the names some chain of goals, each of which runs the word before and was declared after it, leads to from there |
| Admissions.CascadeInOneStep | internal/ruleeval/registry.go:396-403 | where no goal's name is another's action, these are the blocked words and the names of the goals whose action is one of them |
| Admissions.EnforcesExactly | internal/ruleeval/registry.go:405-418 | whatever runs under no such word stays live, in the same order, and nothing else does |
| Admissions.EvictOneMore | internal/ruleeval/registry.go:415-418 | evicting names one by one, in any order, removes exactly those named |
| Admissions.Sustain | internal/ruleeval/registry.go:421-450 | adds only behaviors that serve an unblocked goal: under its name, running its action, stoppable, without end; afterwards every goal is live, blocked, or was turned away under an id minted by this pass |
| Admissions.SettledStays | internal/ruleeval/registry.go:421-450 | a goal once dealt with stays so while later goals are admitted |
| Evaluators.New | internal/ruleeval/eval.go:173-222 | refuses exactly a config with a react rule that would loop without a bound; otherwise every rule starts fresh with a state of its own |
| Evaluators.Attempt | internal/ruleeval/eval.go:396-422 | the guards in order: inhibited, the rule's timing, already active, the engine's refusal; only a fire admits |
| Evaluators.FireReact | internal/ruleeval/eval.go:384-427 | a react rule's turn: its state is stepped by what it met, and it admits its behavior exactly when it fires |
| Evaluators.FireInhibit | internal/ruleeval/eval.go:348-366 | an inhibit rule's turn: only its timing holds it back, and firing evicts what it disables |
| Evaluators.ReactTurnKeeps | internal/ruleeval/eval.go:369-382 | a rule admission evicts nobody and takes a name nobody has, so the names kept in `active` follow the engine |
| Evaluators.Evaluator.RunReact | internal/ruleeval/eval.go:369-382 | all turns in order; throughout, `active` is the set of live names, and no two behaviors admitted by rules share a name |
| Evaluators.Evaluator.RunInhibit | internal/ruleeval/eval.go:345-367 | all inhibit turns in order; nothing is added |
| Evaluators.Evaluator.CurrentInhibited | internal/ruleeval/eval.go:329-343 | exactly the words of the inhibit rules that match, whatever their cooldown |
| Evaluators.EnforcedIsClean | internal/ruleeval/registry.go:381-419 | enforcement leaves nothing under a blocked word and no goal whose action is blocked under its name |
| Evaluators.SustainedIsClean | internal/ruleeval/registry.go:421-450 | sustaining the goals brings none of that back |
| Evaluators.UpheldSpares | internal/ruleeval/registry.go:378-450 | whatever the inhibitions do not reach when the rules are done is still live when the tick returns |
| Evaluators.WithoutNamesExactly | internal/ruleeval/eval.go:360-364 | an inhibit fire leaves live exactly what answers to none of the names it disables |
| Evaluators.FireDetailTells | internal/ruleeval/eval.go:496-517 | a fire line tells the rule's kind and what it runs or disables |
| Evaluators.Evaluator.Tick | internal/ruleeval/eval.go:262-276 | when a tick returns, no live name is inhibited or disabled by a matching rule, no goal whose action is blocked is live, every unblocked goal is live or was refused, everything added will end or stands for a goal, and whatever the inhibitions do not reach is still live |
| EvaluatorRuns.OneTurnEach | internal/ruleeval/eval.go:345-382 | with distinct ids each rule's state is stepped exactly once a tick |
| EvaluatorRuns.FiringAdmits | internal/ruleeval/eval.go:384-427 | on a tick of a run a react rule fires exactly when its turn changes the live set, and then by one behavior that runs its action under that name, for as long as the rule says |
| EvaluatorRuns.RuleFollowsHistory | internal/ruleeval/eval.go:262-276 | before and after every tick of a run, a rule's state is the one that makes of what it met so far, blocks and refusals included |
| EvaluatorRuns.FiredInHistory | internal/ruleeval/eval.go:262-276 | it fires on a tick of the run exactly where its history fires |
| EvaluatorRuns.RuleStandsForItsHistory | internal/ruleeval/eval.go:429-463 | so after every tick of a run, `armed` and the two times mean what that history says |
| EvaluatorRuns.RunFiresAreSpaced | internal/ruleeval/eval.go:429-463 | two ticks of a run on which a rule fired are at least its cooldown apart, and under hysteresis a long enough run of ticks on which its predicate failed lies strictly between |
| EvaluatorRuns.ReactFiresExactly | internal/ruleeval/eval.go:384-453 | on a tick of a run a react rule fires exactly when its predicate holds, its action is not blocked, not live and would be admitted, every earlier fire is at least the cooldown old and, under hysteresis, was followed by ticks on which its predicate failed for that long |
| EvaluatorRuns.InhibitFiresExactly | internal/ruleeval/eval.go:345-367 | an inhibit rule exactly when its predicate holds and its timing lets it |
| EvaluatorRuns.SuppressedExactly | internal/ruleeval/eval.go:443-453 | a rule that matches unblocked is suppressed as rearming exactly when some fire was not followed by its quiet ticks, and otherwise as cooling down exactly when some fire is too young |
| EvaluatorRuns.InhibitEvicts | internal/ruleeval/eval.go:348-366 | an inhibit rule's turn evicts exactly what answers to a name it disables, if it fires, and nothing otherwise |
| EvaluatorRuns.RunIsAccounted | internal/ruleeval/eval.go:467-494 | after every tick of a run, ledger and streak agree, and the ticks on which the rule matched are its fires, its summaries' ticks and the open episode's |
| EvaluatorSeam.OneOfEachName | internal/ruleeval/eval.go:369-427 | at every stage of every tick of a run, whatever happens between the ticks, at most one live behavior of a given name was admitted by a react rule, and it will end |
| EvaluatorSeam.RulesAddOnlyBounded | internal/ruleeval/eval.go:586-614 | with the evaluator as the engine's seam, what a rule or a run-once adds on any tick has a positive bound d, and is asked for its offer on at most ceil(d/p)+1 ticks of the run |
| EvaluatorSeam.ThenRulesAreDone | internal/tick/engine.go:504-528 | and later ticks neither ask it nor keep it live, and no channel is its |
| EvaluatorSeam.ServedFiresAreSpaced | internal/ruleeval/eval.go:429-463 | in the engine's run two fires of a rule are at least its cooldown apart, and under hysteresis its predicate was quiet for long enough in between |
| EngineLifetimes.EveryTickComposed | internal/tick/engine.go:504-528 | every tick of a run composed its pose from a live set that was unexpired then |
| EngineLifetimes.AskedAfterAdmission | internal/tick/behavior.go:103-116 | on any tick of a run a behavior is asked only once admitted, and before its bound has elapsed |
| EngineLifetimes.BoundedContribution | internal/tick/behavior.go:103-116 | over a whole run whose ticks begin at least p apart, a behavior bounded by d is asked for its offer on at most ceil(d/p)+1 ticks |
| EngineLifetimes.ThenItIsOver | internal/tick/engine.go:504-528 | more than ceil(d/p) ticks after one it was asked on, no tick of the run asks it, no channel is its, and it is off the live set |
| EngineLifetimes.ExpiredOwnsNothing | internal/tick/engine.go:504-528 | once its time is up it is not live when the pose is composed, and no channel answers to its id |
| EngineLifetimes.AskedExactlyInTime | internal/tick/engine.go:504-524 | from any edge of a run on, a live behavior that nobody evicts or displaces is asked for its offer on exactly the ticks that begin before its time is up; on all of them if it has no bound |
| EngineLifetimes.BaseLayerLasts | internal/tick/engine.go:331-356 | the base layer is asked on every tick of a run, whatever is admitted, unless somebody evicts it by name |
| EngineLifetimes.PassiveYields | internal/tick/engine.go:331-333 | and it owns a channel only where nobody who is not passive offers anything |
| SessionProofs.EveryRun | internal/stream/session.go:22-70 | the invariant of all the goroutines holds after every interleaving |
| SessionProofs.CountersConserve | internal/stream/session.go:238-310 | in every interleaving, queued is written plus the queue plus the frame the writer holds plus the enqueue in progress |
| SessionProofs.TelemetryInOrder | internal/stream/session.go:238-310 | the telemetry on the wire is a prefix of what was accepted and encodes |
| SessionProofs.ShutdownDelivers | internal/stream/server.go:434-466 | after a flush that ended on its counter test, everything accepted by then precedes the end frame and at most one telemetry frame follows; none, and nothing is missing, when no enqueue was under way |
| SessionProofs.LateFrame | internal/stream/session.go:148-170 | that one late frame does occur |
| SessionLate.LateFrameIff | internal/stream/session.go:91-170 | when the counter test passes, a telemetry frame can still follow the end frame if and only if an encodable enqueue is under way that can pass the gate, session and connection are open, and the queue holds anything at all |
| SessionProofs.HelloComesFirst | internal/stream/session.go:394-440 | where a failed write kills the connection, no byte of telemetry precedes a whole hello reply |
| SessionProofs.PoseBeforeHello | internal/stream/session.go:416-440 | and where it does not, a pose can be the first frame |
| SessionProofs.WholeSession | internal/stream/session.go:91-170 | a session can do its whole work: greeting, a pose, the answer to a command, a flush that passes, and the end frame last |
| SessionEnds.EndsAreMarked | internal/stream/session.go:269-337 | in every interleaving a goroutine that is done with the session has taken it off the server and closed it for everybody else to see; nobody closes it but the closer, a writer that lost its connection, or, not on a pipe, the reader |
| SessionEnds.ClosedForGood | internal/stream/session.go:195-267 | once it is closed and nobody is past the check of that, nothing more is accepted, and no reply, answer or end frame is written, whatever the goroutines go on to do |
| SessionEnds.FatalRefusal | internal/stream/session.go:312-392 | from a fatal refusal on the reader only ever ends: no client is greeted or subscribed any more |
| SessionEnds.OneGreeting | internal/stream/session.go:394-440 | in every interleaving the peer gets at most one hello reply, and none unless it has greeted |
| SessionProofs.WireIsWholeFrames | internal/stream/session.go:195-224 | two write paths share the wire, and it is always a concatenation of whole frames, but for one a failure cut short |
| Framing.EncodeFrame | internal/stream/frame.go:246-259 | writes the big-endian length and the body into one buffer, or refuses an oversized body |
| Framing.Reader.ReadFrame | internal/stream/frame.go:279-296 | consumes exactly one frame, or fails on a short, zero or oversized length without reading a body |
| Framing.PrefixRoundTrip | internal/stream/frame.go:246-259 | the length prefix reads back |
| Framing.PrefixKeepsOrder | internal/stream/frame.go:246-259 | prefixes stand, byte by byte from the first, in the order of the lengths they say: big-endian |
| Framing.ReadAllEncodeAll | internal/stream/frame.go:246-296 | reading the concatenation of any encoded frames, whatever follows, yields exactly those bodies in order and then what the rest would |
| Framing.ReadAllExact | internal/stream/frame.go:279-296 | what was read, encoded again, is exactly the bytes consumed |
| Framing.CleanStreamIffFrames | internal/stream/frame.go:246-296 | a stream reads cleanly to its end as some bodies exactly when it is their encoding |
| Framing.TornFrameReadsNothing | internal/stream/frame.go:279-296 | a frame cut short yields no body |
| RulesLayers.MergeEntries | internal/rules/load.go:200-231 | the merging loop: lower entries keep their positions and take the overlay's bodies, tombstoned ones go, new ones come last |
| RulesLayers.FindMerged | internal/rules/load.go:200-260 | the overlay has the last word on every id it mentions, and the base on the others; a redefinition lifts a tombstone |
| RulesLayers.MergeAssociates | internal/rules/load.go:200-260 | which entry each id has does not depend on how merges are bracketed |
| RulesLayers.OrderDoesNotAssociate | internal/rules/load.go:214-231 | while their order does |
| RulesLayers.LastMentionWins | internal/rules/load.go:58-69 | an id is live exactly when the highest layer that mentions it defines it, with that layer's entry, and tombstoned exactly when that layer tombstones it |
| RulesLayers.LiveInOrder | internal/rules/load.go:214-231 | live entries are ordered by the layer where their current unbroken live span began, then by position in that layer |
| RulesLayers.LiveOrderIsDetermined | internal/rules/load.go:214-231 | and no other sequence of the live entries is in that order |
| RulesLayers.OrderIsStrict | internal/rules/load.go:214-231 | a span begins in one layer, so of two ids at most one stands before the other, and none before itself |
| RulesLayers.FoldIsValid | internal/rules/load.go:58-69 | ids stay unique and disjoint from the tombstones left over |
| RulesLoad.BuildLayer | internal/rules/load.go:123-183 | a layer is refused exactly when a name is unknown or an id is mentioned twice, naming both files; otherwise it is the files end to end |
| RulesLoad.LayerIsValid | internal/rules/load.go:138-181 | a built layer mentions no id twice and selects only a mode it defines |
| RulesLoad.MergeLayers | internal/rules/load.go:200-316 | rules, events, modes, active mode, version and default of the merge |
| RulesLoad.StackedFolds | internal/rules/load.go:58-69 | the stack's rules and events are the folds of the layers' |
| RulesLoad.ModesLastWin | internal/rules/load.go:233-247 | modes and the active mode are those of the highest layer that speaks of them, and the active mode is always defined |
| RulesLoad.MakeConfig | internal/rules/load.go:323-346 | splits the rules by kind, in order |
| RulesLoad.Load | internal/rules/load.go:37-70 | loads exactly when every layer builds, and yields the fold of the layers that hold a file |
| RulesLoad.LoadedRules | internal/rules/load.go:58-70 | a loaded config runs exactly the rules the highest mention of their id defines, and no two share an id |
| RulesFiles.LayerHoldsFiles | internal/rules/load.go:163-177 | a layer holds exactly the rules and events its files define, and tombstones exactly what they tombstone |
| RulesFiles.LayerStandsByFile | internal/rules/load.go:163-174 | they stand by file and then by position in it |
| RulesFiles.LastFileDecides | internal/rules/load.go:167-180 | the selected mode, the event default, the version and the params of a mode are those of the last file to give them |
| RulesFiles.LoadedFromFiles | internal/rules/load.go:37-70 | a loaded config runs exactly the rules that some file of the highest layer with a say on their id defines, each as the kind it is; the same for its events and its tombstones |
| RulesFiles.LoadedInOrder | internal/rules/load.go:214-231 | by the layer where their current live span began, and then as that layer has them |
| RulesFiles.SettingsLastWin | internal/rules/load.go:233-316 | modes, active mode, version and event default are those of the last file of the whole stack that gives them, and unset when no file does |
| RulesFiles.EventIdTells | internal/rules/load.go:153-162 | two events are the same to a config exactly when their sources and their types are |
| Migrate.SkipBasicString | internal/mgmt/migrate.go:132-142 | stops where the automaton leaves the basic string, or at the end of the line |
| Migrate.SkipLiteralString | internal/mgmt/migrate.go:147-152 | stops where the automaton leaves the literal string, or at the end of the line |
| Migrate.MultiCloses | internal/mgmt/migrate.go:102-110 | the first three quotes together are where a quote-counting automaton leaves a multi-line string |
| Migrate.TomlScan.Advance | internal/mgmt/migrate.go:97-128 | over a line, the scanner's fields become what the one-character-at-a-time automaton says at its end |
| Migrate.NewlineSettles | internal/mgmt/migrate.go:84-128 | so at the start of every line they are the automaton's mode over the whole document so far |
| Migrate.FindVersionFinds | internal/mgmt/migrate.go:12 | the matcher answers exactly when the pattern matches, and where its 1 is |
| Migrate.OpensTableExactly | internal/mgmt/migrate.go:97-100 | a line opens a table exactly when its first character that is neither a space nor a tab is a bracket |
| Migrate.SpacesByCode | internal/mgmt/migrate.go:12 | the pattern's blanks are the tab, the newline, the form feed, the carriage return and the space |
| Migrate.LinesOf | internal/mgmt/migrate.go:52-53 | the lines, one after another, are the text, each with the newline that ends it |
| Migrate.RewriteSchemaVersion | internal/mgmt/migrate.go:45-71 | rewrites exactly the first line that matches outside every multi-line string and before any table, and is the identity when there is none |
| Migrate.OneCharacter | internal/mgmt/migrate.go:14-16 | the rewrite keeps the length and changes one character, a 1 into a 2 |
| Migrate.LinesBack | internal/mgmt/migrate.go:52-53 | and lines put together are taken apart into the same lines |
| MigrateLimits.PlainMultisAgree | internal/mgmt/migrate.go:39-44 | the scanner and a reader of TOML agree after every character if and only if no quote is escaped in a multi-line basic string and no multi-line string ends with a fourth quote |
| MigrateLimits.PlainLinesAgree | internal/mgmt/migrate.go:97-100 | where the strings before a line are so, scanner and reader take every line up to it for the same (header, version line, neither) if and only if none that matches or begins with a bracket starts inside an array or inline table |
| MigrateLimits.PlainHits | internal/mgmt/migrate.go:45-71 | and then the scanner holds the line eligible and matching exactly when it is the document's own version line |
| MigrateLimits.PlainRewrites | internal/mgmt/migrate.go:45-71 | with such strings before it, the edited line is the document's own version line if and only if it starts outside every array and inline table, and none before it is |
| MigrateLimits.SettlesRightIff | internal/mgmt/migrate.go:45-71 | the scanner settles on the first own version line, or on none if there is none, if and only if the first line that matches or begins with a bracket starts at the top, or is a bracket in a document without a version line |
| MigrateLimits.PlainFindsNone | internal/mgmt/migrate.go:45-71 | without a telling line inside an array or inline table it finds none exactly when the document has none |
| MigrateWitnesses.EscapedQuoteMisleads | internal/mgmt/migrate.go:39-44 | a document with an escaped quote, in which the scanner settles on a line inside a string and not on the version line |
| MigrateWitnesses.FourQuotesMislead | internal/mgmt/migrate.go:39-44 | a document without a backslash, in which a string ends with four quotes, and the same happens |
| MigrateWitnesses.InlineTableMisleads | internal/mgmt/migrate.go:31-37 | a document without a multi-line string, in which the scanner settles on a rule's parameter and not on the version line |
| SenseLog.Logger.Write | internal/senselog/senselog.go:116-121 | appends one record |
| SenseLog.Logger.Drop | internal/senselog/senselog.go:105-114 | appends one record whose detail names the reason first |
| SenseLog.RecordReadsBack | internal/senselog/parse.go:29-86 | a printed record parses exactly when its keyed fields are non-empty and free of control characters |
| SenseLog.StageReadsBack | internal/senselog/parse.go:29-86 | its sanitized fields come back, exactly unless the detail reads like a drop |
| SenseLog.DropReadsBack | internal/senselog/parse.go:73-83 | a drop gives back its sanitized reason and its control-mapped detail exactly |
| SenseLog.OneNewline | internal/senselog/senselog.go:76-98 | a record has one newline, at its end |
| SenseLog.OnlyBreakersReplaced | internal/senselog/senselog.go:62-98 | printing touches nothing but spaces and closing brackets in a keyed field and control characters in a detail, and makes each an underscore |
| SenseLog.CleanRecordReadsBack | internal/senselog/parse.go:29-86 | a record with none of these gives back exactly what was logged |
| Streaks.SummaryTellsTicks | internal/senselog/streak.go:62-71 | a summary line tells how many ticks it stands for |
| Text.DecimalReads | internal/senselog/streak.go:62-71 | a count is printed as the numeral that says it, without a leading zero |
| Text.SplitJoins | internal/senselog/streak.go:62-71 | joined reasons that hold no separator come apart again, each as it was and in order |
| Heartbeat.Server.Seam | internal/stream/server.go:507-527 | the first tick arms the interval; a later one that crosses it moves it on by one and emits one beat if a session is attached |
| Heartbeat.NeverDrifts | internal/stream/server.go:516-527 | the last beat is always the first tick plus a whole number of intervals, no more than have passed |
| Heartbeat.KeepsUp | internal/stream/server.go:516-527 | the count is the number of whole intervals passed after every tick exactly when no tick crosses more than one |
| Heartbeat.CloseTicksKeepUp | internal/stream/server.go:516-527 | ticks no further apart than the interval never cross more than one |
| Heartbeat.OffNeverBeats | internal/stream/server.go:507-511 | without a positive interval nothing arms the heartbeat and it never beats |

## Left out

- JSON and TOML decoding, files, sockets, pipes, signals, HTTP, benchmarks and the Python package: I/O or foreign calls. A frame's body is opaque bytes, or nothing when its payload does not marshal.
- Field-by-field validation of rules files and adaptor configs: what it accepts is taken as a precondition. Whether a file's names are in the vocabulary is one boolean per file, and reading or parsing errors of a file are not modelled.
- Floating-point rounding, NaN and infinities: values are reals. The cosine easing curve is any map of [0,1] into itself.
- Integer width: the counters, sequence numbers and tick numbers do not wrap.
- UTF-8: text is a sequence of characters, and an invalid byte or a leading byte-order mark has no counterpart.
- Predicates over senses: whether a rule matches is one boolean per rule and tick, so `absent_for` and presence tracking are not part of this model.
- A clock that is read several times in one tick: admissions during a tick share one reading.
- The events published for an intent that was applied or blocked; only those of rules are modelled.
- Behaviors.Bind: does not model `ValidateParams`, which refuses a parameter the action does not declare or a value outside its range, because a behavior's parameters change nothing else the engine does; a behavior is bound as if it had none.
- Admissions.Build: does not model the parameters merged from the active mode and the request, for the same reason.
- Action and mode parameters elsewhere, who asked for an admission, the wording of refusals, and the text of log lines other than the two ledgers'.
- Mutation of the registry while a tick runs: its methods and the tick are modelled one after the other, as its mutex and queue make the first, and the end-of-tick state is stated for a registry nobody changes meanwhile.
- The list of operations a seam performs: `TickEngine` takes a seam as the admissions and evictions it performs, and `EvaluatorSeam` ties the evaluator to it by the live sets before and after, not operation by operation.
- The end-of-tick state for a goal whose name is another goal's action: what enforcement then evicts is stated exactly by `Admissions.CascadeExactly`, following the order in which goals were declared.
- Panic recovery, the overrun account, event consumers and the statistics counters of the tick engine.
- The acceptance of connections and a second client: the session is modelled from its start to its end. Grace timers are a nondeterministic exit.
- A heartbeat whose first tick reads the zero time: the source would arm again on the next tick.
- EngineLifetimes.BoundedContribution: assumes that no request carries the behavior's own time of admission, as none from a rule, the registry or the base layer does after it is live; a caller that sets one in the future would keep the behavior longer.
- SessionProofs.HelloComesFirst: assumes that a failed write leaves the connection dead, because without it the property is false of the code, as `SessionProofs.PoseBeforeHello` shows.
- Trajectories.SteepestSegmentBounds: a trajectory that loops or has two keyframes at one time jumps, so the bound is stated for strictly increasing times without a loop.
- Sense snapshot, event router, provider queue and the fake clock: smaller versions of the reasoning above.
