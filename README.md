# MicroMachine combat micro and worker bookkeeping, modelled in Dafny

This project models the per-tick decision rules of the MicroMachine StarCraft II bot:

- how a ranged squad picks its targets (`RangedManager`);
- the general attack priority of a target and the regrouping of a squad (`MicroManager`);
- the one-command unit helpers and the kite-or-shoot decision (`Micro`);
- the job bookkeeping of the worker manager (`WorkerManager`): idle workers, filling refineries, repair start and stop, and choosing the closest free worker and the closest depot.

Units are read-only snapshots for the current tick (`Common.Unit`). Every game or library query is an uninterpreted function value of `Common.Game`, such as damage per second, attack range, distance, `pow`, unit-type tests, returning cargo and unit lookup by tag. The bot's bookkeeping of enemy units is `Common.Intel`. A command sent to the game is a `Micro.Command` value, so a helper or loop that issues commands returns the list it would send.

Where the source updates state, the model does too:

- `MicroManager.MicroManager` is a class whose roster field `SetUnits` reassigns.
- `WorkerManager.WorkerManager` is a class holding the worker roster and the map from worker tag to `(job, target)`. Its handlers are methods with loops that update that map.

Each such method is proved against a specification function over the old state: `IdleOutcome`, `FilledFrom`/`GasChangedUpTo`, `RepairPass`, `ClosestMineralWorker`, `ClosestDepot` and `CountLive`. The properties the bot relies on are then lemmas about those functions.

Other modelling choices:

- The argmin loops ("closest worker", "closest depot") share `Common.FirstMin`. It is a left-to-right scan in which a strictly smaller key replaces the current best, so ties go to the earliest candidate.
- The argmax of `getTarget` is `RangedManager.FirstMax`, taken over priorities that are a real number or `Infinity`. `Infinity` stands for the IEEE result of the division by zero in `getAttackPriority`.
- The behaviour tree of a ranged unit is a small selector/sequence interpreter (`BehaviorTree`). Each action's success or failure is an input.

## Model

| member | source | states |
|---|---|---|
| Common.FirstMinIsEarliestMinimum | src/WorkerManager.cpp:232-257 | the first-wins argmin scan is empty exactly when no element is accepted; otherwise it returns an accepted element whose key is no larger than any accepted element's and strictly smaller than every earlier accepted one's |
| Common.FirstMinIndexAccepted | src/WorkerManager.cpp:240-248 | the scan's index is negative exactly when nothing is accepted, and otherwise points at an accepted element |
| Common.FirstMinIndexMinimal | src/WorkerManager.cpp:247-252 | the element kept has a key no larger than any accepted element's, and strictly smaller than any earlier one's (ties go to the first) |
| Common.FirstMinAtIndex | src/WorkerManager.cpp:232-257 | the scan's result is the element at the index of the running best |
| Micro.HelpersAddressTheirUnit | src/Micro.cpp:7-36 | SmartStop, SmartAttackUnit, SmartAttackMove, SmartMove and SmartRightClick each give one command for the given unit, with abilities STOP, ATTACK_ATTACK on a unit, ATTACK_ATTACK on a point, MOVE and SMART and the matching target |
| Micro.RepairAndFocusFireAreAliases | src/Micro.cpp:38-42 | SmartRepair sends the same command as SmartRightClick, and SmartFocusFire the same as SmartAttackUnit on its target |
| Micro.TimeToEnter | src/Micro.cpp:54 | the time to get in range is never negative; it is infinite exactly when the unit cannot move and is out of range; it is 0 in range for a unit that can move |
| Micro.FleePosition | src/Micro.cpp:61 | the flee point is the reflection of the target through the unit: same distance, opposite side |
| Micro.SmartKiteTarget | src/Micro.cpp:44-69 | the command is for the ranged unit; it moves away if and only if the target is a combat unit (`Util::IsCombatUnitType`) and the time to enter range is finite and below the weapon cooldown; a move goes to the flee point, and otherwise the target is attacked |
| Micro.NonCombatTargetIsAttacked | src/Micro.cpp:56-68 | a target that `Util::IsCombatUnitType` does not count as combat is always attacked |
| Micro.ReadyWeaponAttacks | src/Micro.cpp:54-56 | with the weapon ready (cooldown at most 0) the unit attacks |
| Micro.StationaryOutOfRangeAttacks | src/Micro.cpp:54-56 | a unit that cannot move and is out of range attacks, because the infinite time to enter is never below the cooldown |
| MicroManager.MicroManager.constructor | src/MicroManager.cpp:6-9 | a new manager has an empty roster and keeps its squad order |
| MicroManager.MicroManager.SetUnits | src/MicroManager.cpp:11-19 | after setUnits, getUnits returns exactly the given roster and the order is unchanged |
| MicroManager.MicroManager.Regroup | src/MicroManager.cpp:21-39 | one command per unit in roster order, each for its own unit: a move when the squared distance exceeds 16, otherwise an attack-move to the regroup point |
| MicroManager.LastGameLoop | src/MicroManager.cpp:75 | the previous game loop in unsigned 32-bit arithmetic: loop - 1, or 2^32 - 1 at loop 0 |
| MicroManager.ProximityValue | src/MicroManager.cpp:99-109 | the proximity factor is exactly 1 within range; beyond range it is 0.001 for an attacker that cannot move, and lies in (0, 1] whenever the 0.9-power does |
| MicroManager.NonThreateningModifier | src/MicroManager.cpp:156-160 | the modifier is 0.5 or 1; it is 0.5 exactly when a target that deals no damage is not an attacking building, or a damaging target is one |
| MicroManager.InvisModifier | src/MicroManager.cpp:111-115 | the invisibility modifier is 1 or 2, and it is 2 exactly for a detected cloaked target or a burrowed target other than a burrowed zergling |
| MicroManager.WorkerBonus | src/MicroManager.cpp:121-154 | the worker bonus is 0.5, 1 or 2 |
| MicroManager.ModifierFactors | src/MicroManager.cpp:156-168 | the eight multiplicative modifiers of a combat unit or worker are all positive; what each one does to the score is stated by the lemmas `WorkerBonus` through `InterceptorOrBunkerScoresTenth` below |
| MicroManager.CombatModifiers | src/MicroManager.cpp:168 | the product of the modifiers is positive |
| MicroManager.ProductScalesWithFactor | src/MicroManager.cpp:168 | scaling one modifier by f scales the whole product by f |
| MicroManager.AttackPriority | src/MicroManager.cpp:61-104 | the score is exactly 0 for untargetable types, parasited targets, hidden targets, creep tumours last seen before the previous loop, targets out-ranging the attacker by the 2-unit margin when that filter is on, targets the attacker cannot damage, and, when only units in range count, targets beyond range |
| MicroManager.MoreHealthLowersPriority | src/MicroManager.cpp:98-171 | of two targets that differ only in health and shield, and the healthier one not rejected, the one with the larger √(hp+shield) scores strictly lower |
| MicroManager.FartherBeyondRangeNeverHigher | src/MicroManager.cpp:99-109 | beyond range, moving a target farther away never raises its score while the 0.9-power proximity does not grow |
| MicroManager.RefineryWorkerScoresHalf | src/MicroManager.cpp:122-135 | outside a Defend order, a worker going into a refinery scores exactly half |
| MicroManager.DefendIgnoresRefineryDiscount | src/MicroManager.cpp:122 | under a Defend order, whether a worker goes into a refinery does not change its score |
| MicroManager.BuildingScvScoresDouble | src/MicroManager.cpp:137-145 | a building enemy SCV scores exactly double against an attacker that is not an SCV |
| MicroManager.RepairingScvScoresDouble | src/MicroManager.cpp:146-153 | a repairing enemy SCV that is not building scores exactly double against an attacker that is not an SCV |
| MicroManager.YamatoTargetScoresTenth | src/MicroManager.cpp:163-164 | a combat unit or worker already marked for a Yamato shot scores exactly a tenth |
| MicroManager.DetectedTargetScoresDouble | src/MicroManager.cpp:111-171 | a visible target that becomes a detected cloaked unit, with the same query answers, scores exactly double, whether it is a combat unit, a worker or any other target |
| MicroManager.InterceptorOrBunkerScoresTenth | src/MicroManager.cpp:162-168 | an interceptor or bunker that is a combat unit or worker scores exactly a tenth of its score with that modifier set to 1 |
| MicroManager.ModifiersScaleScore | src/MicroManager.cpp:118-168 | for a combat unit or worker, scaling the modifier product by f scales the score by f |
| MicroManager.ScoreWithScales | src/MicroManager.cpp:168 | the combat and worker score is linear in the modifier product |
| MicroManager.NonCombatScoreAtMostOne | src/MicroManager.cpp:171 | a non-combat, non-worker target with non-negative health value scores at most 1, given that beyond range the 0.9-power lies in (0, 1] |
| MicroManager.CreepTumorCutoffWrapsAtLoopZero | src/MicroManager.cpp:75-82 | at game loop 0 the unsigned cutoff wraps, so every creep tumour last seen before loop 2^32 - 1 scores 0 |
| MicroManager.CombatScoreFallsWithHealth | src/MicroManager.cpp:168 | with a positive modifier product, more health value gives a strictly lower combat score |
| MicroManager.NonCombatScoreFallsWithHealth | src/MicroManager.cpp:171 | more health value gives a strictly lower non-combat score |
| BehaviorTree.SelectorSucceedsIffSomeChild | src/RangedManager.cpp:102-122 | a selector succeeds if and only if one of its children succeeds |
| BehaviorTree.SequenceSucceedsIffAllChildren | src/RangedManager.cpp:102-122 | a sequence succeeds if and only if all its children succeed |
| BehaviorTree.RangedTreeIsFallback | src/RangedManager.cpp:102-122 | ticking the ranged unit's tree runs exactly the fallback chain enemy → (focus fire on a ranged enemy, else kite), then mineral → shard, then objective |
| BehaviorTree.EnemyBranchIsFallback | src/RangedManager.cpp:104-113 | the enemy branch succeeds and runs actions exactly as the fallback chain's first stage |
| BehaviorTree.MineralBranchIsFallback | src/RangedManager.cpp:114-117 | the mineral branch runs the shard action only when a mineral is in sight |
| BehaviorTree.NoEnemyNoEngagement | src/RangedManager.cpp:90-113 | with no enemy in sight neither focus fire nor kiting runs |
| BehaviorTree.RangedEnemyFocusFiresFirst | src/RangedManager.cpp:106-111 | against a ranged enemy, focus fire runs first, and kiting runs if and only if focus fire failed |
| BehaviorTree.ObjectiveOnlyAsLastResort | src/RangedManager.cpp:102-118 | the objective move runs if and only if both the enemy and the mineral branch fail |
| BehaviorTree.ShardOnlyWhenInSight | src/RangedManager.cpp:114-117 | the shard is approached if and only if one is in sight and the enemy branch failed |
| RangedManager.Kept | src/RangedManager.cpp:34-43 | a unit survives the target filter if and only if it is present and neither an egg nor a larva |
| RangedManager.KeptPreservesOrder | src/RangedManager.cpp:35-43 | the filter distributes over concatenation, so survivors keep their original order |
| RangedManager.FilterTargets | src/RangedManager.cpp:34-43 | the filter loop builds exactly the filtered list |
| RangedManager.RangedAttackPriority | src/RangedManager.cpp:153-174 | workers score exactly 2 and other non-combat units exactly 1; a combat unit scores more than 5, and infinitely much when it has no health or is at distance 0; the dps substitution is stated by `HarmlessCombatTargetCountsAsFifteen` |
| RangedManager.CombatOutranksWorkerOutranksOther | src/RangedManager.cpp:157-173 | a combat unit outranks a worker, and a worker outranks any other unit |
| RangedManager.WeakerCombatTargetPreferred | src/RangedManager.cpp:159-165 | between combat units equal in damage and distance, the one with less health and shield ranks strictly higher |
| RangedManager.HarmlessCombatTargetCountsAsFifteen | src/RangedManager.cpp:159-165 | a combat target that deals no damage to the attacker ranks exactly as one dealing 15, at equal health plus shield and distance |
| RangedManager.MoreDamagingCombatTargetPreferred | src/RangedManager.cpp:159-165 | between combat units equal in health plus shield and distance, the one with the higher damage rate (0 counting as 15) ranks strictly higher |
| RangedManager.CloserCombatTargetPreferred | src/RangedManager.cpp:159-165 | between combat units equal in damage and health, the closer one ranks strictly higher |
| RangedManager.FirstMaxIsEarliestMaximum | src/RangedManager.cpp:128-151 | getTarget's scan finds no target exactly when the list is empty; otherwise its target is not exceeded by any candidate and strictly exceeds every earlier one |
| RangedManager.FirstMaxIndexMaximal | src/RangedManager.cpp:143-147 | no candidate's priority exceeds the kept one's, and the kept one strictly exceeds every earlier candidate |
| RangedManager.FirstMaxAtIndex | src/RangedManager.cpp:128-151 | the scan's result is the target at the index of the running best |
| RangedManager.GetTarget | src/RangedManager.cpp:128-151 | the loop with highestPriority and bestTarget computes the first-wins argmax |
| RangedManager.MaxRange | src/RangedManager.cpp:182-185 | the folded maximum is at least 0 and at least every weapon range, and is 0 or one of the ranges |
| RangedManager.IsTargetRanged | src/RangedManager.cpp:178-187 | the target is ranged if and only if some weapon of its type reaches beyond 1; a type without weapons is not ranged |
| RangedManager.ClosestMineralIsOnScreen | src/RangedManager.cpp:189-202 | the corrected scan finds nothing exactly when no neutral unit is on screen; a result is an on-screen neutral, either a mineral shard or the first neutral on screen |
| RangedManager.ClosestMineralStaysFound | src/RangedManager.cpp:192-199 | once the scan holds a unit, it never goes back to none |
| RangedManager.ClosestMineralIsClosestShard | src/RangedManager.cpp:189-202 | the corrected scan's result is at least as close to the unit as every on-screen mineral shard |
| RangedManager.ClosestMineralAsWritten | src/RangedManager.cpp:189-202 | when the scan as written does not fail, any unit it holds is one of the neutral units and is on screen |
| RangedManager.GetClosestMineral | src/RangedManager.cpp:189-202 | the loop computes the corrected scan |
| RangedManager.AsWrittenCrashesOnlyOnEarlyOffScreenShard | src/RangedManager.cpp:194-197 | the scan as written fails exactly when an off-screen shard comes before the first on-screen neutral; otherwise it agrees with the corrected scan |
| RangedManager.OffScreenShardCrashesScan | src/RangedManager.cpp:197 | a single off-screen mineral shard makes the scan as written dereference a null pointer |
| RangedManager.MoveCommands | src/RangedManager.cpp:65-77 | a missing move gives no commands; otherwise there is one command per action, an attack for ATTACK and a move to the position for MOVE_BACK and MOVE_FORWARD |
| RangedManager.DispatchedCommandsFollowActions | src/RangedManager.cpp:66-75 | every dispatched command is for its action's unit, and it is an attack if and only if the action is |
| RangedManager.DispatchMove | src/RangedManager.cpp:65-77 | the dispatch loop sends exactly those commands |
| RangedManager.ShardMoveHasRealMineral | src/RangedManager.cpp:91-99 | the shard action runs only with an on-screen neutral in sight, and is given that unit's position |
| RangedManager.EngagementNeedsTarget | src/RangedManager.cpp:90-98 | focus fire or kiting runs only with a chosen target from the filtered list, and focus fire only when that target is ranged |
| RangedManager.TargetsMeanEnemyInSight | src/RangedManager.cpp:90 | a non-empty target list always yields a target |
| RangedManager.Decide | src/RangedManager.cpp:84-122 | a decision is for its own unit; it has a target exactly when the filtered list is non-empty, taken from that list; it has a mineral exactly when a neutral unit is on screen, and that unit is on screen and gives the shard position; the mineral comes from the corrected scan |
| RangedManager.DecideAll | src/RangedManager.cpp:82-123 | one decision per ranged unit, in roster order, each the unit's own tree tick |
| RangedManager.DecideUnit | src/RangedManager.cpp:84-122 | the loop body evaluates the conditions and ticks the tree for one unit, using the corrected mineral scan |
| RangedManager.DecideUnits | src/RangedManager.cpp:82-123 | the loop over ranged units produces the decisions of every unit |
| RangedManager.AssignTargets | src/RangedManager.cpp:22-125 | with alpha-beta on, the pass is the search's commands; otherwise it is every roster unit's tree decision over the filtered targets, using the corrected mineral scan |
| WorkerManager.FreeExactlyWhenUntasked | src/WorkerManager.cpp:490-498 | a worker is free if and only if it is not a MULE and has none of the jobs Gas, Build, Combat, Repair, Move or Scout |
| WorkerManager.ClosestMineralWorkerIsNearestFree | src/WorkerManager.cpp:232-257 | no worker is found exactly when no worker is eligible; a found worker is valid, not the ignored one, free and not returning cargo, at a squared distance no larger than any eligible worker's, and strictly closer than every earlier one |
| WorkerManager.ClosestDepotIsNearestCompletedDepot | src/WorkerManager.cpp:370-391 | no depot is found exactly when no valid completed resource depot exists; a found one is such a depot at minimal distance, the earliest among ties |
| WorkerManager.IdleOutcome | src/WorkerManager.cpp:157-182 | an invalid worker keeps its entry; otherwise the entry is kept, relabelled Idle, or becomes Minerals; a living worker is left Idle only when no valid completed depot exists |
| WorkerManager.IdleOutcomeRules | src/WorkerManager.cpp:152-184 | a Move, Repair, Scout or Build worker keeps its entry; an idle worker with another job ends Idle or Minerals; a worker relabelled Idle becomes Minerals if and only if it is alive and a completed depot exists, and is then sent to such a depot |
| WorkerManager.NoFreeWorkerKept | src/WorkerManager.cpp:137-147 | filling a refinery never frees a worker, so a pass with no free worker left keeps none free |
| WorkerManager.GasCountAfterUpdate | src/WorkerManager.cpp:145 | giving a non-gas worker a job raises a refinery's gas count by one exactly when the job is Gas at that refinery |
| WorkerManager.GasStep | src/WorkerManager.cpp:140-146 | assigning a free worker to the refinery adds one gas worker there, keeps the other refineries' counts, and keeps the record of who was assigned |
| WorkerManager.GasRefineryStep | src/WorkerManager.cpp:131-148 | filling one more completed refinery extends the record of the whole pass by that refinery |
| WorkerManager.FinishedWith | src/WorkerManager.cpp:394-400 | a Scout keeps its job, any other worker becomes Idle, and no other worker's entry changes |
| WorkerManager.FinishedWorkerIsFree | src/WorkerManager.cpp:394-400 | a worker that is neither a Scout nor a MULE is free after being finished with |
| WorkerManager.BuilderIsNotFree | src/WorkerManager.cpp:420-431 | a worker given the Build job is no longer free |
| WorkerManager.RepairStep | src/WorkerManager.cpp:192-229 | an invalid worker changes nothing; no entry disappears; at most one command is appended; the only other worker whose entry changes becomes a repairer of this worker |
| WorkerManager.RepairStepNeverSelfRepair | src/WorkerManager.cpp:216-226 | one step of the repair loop never makes a worker its own repairer |
| WorkerManager.RepairPassNeverSelfRepair | src/WorkerManager.cpp:192-229 | the whole repair pass never makes a worker its own repairer |
| WorkerManager.RepairStepStopsFinishedRepair | src/WorkerManager.cpp:196-208 | a Repair worker that is dead, or whose target is dead or at full health within ε, is returned to Idle |
| WorkerManager.RepairStepAssignsOnlyForDamagedWorker | src/WorkerManager.cpp:216-226 | a new Repair assignment is made only for a living, damaged worker, goes to another worker within the maximum repair distance, and targets the damaged worker |
| WorkerManager.CountLive | src/WorkerManager.cpp:535-546 | the count of valid living workers is at most the roster size, and equals it if and only if every worker is valid and alive |
| WorkerManager.JobCountAfterUpdate | src/WorkerManager.cpp:524-533 | setting one worker's entry takes that worker out of its old job's count and adds it to its new job's count; all other counts stay |
| WorkerManager.GasCountAtMostGasWorkers | src/WorkerManager.cpp:529-533 | no refinery has more gas workers than the total gas worker count |
| WorkerManager.WorkerManager.constructor | src/WorkerManager.cpp:7-12 | a new manager holds the given roster and no assignments |
| WorkerManager.WorkerManager.FinishedWithWorker | src/WorkerManager.cpp:394-400 | the job map becomes FinishedWith of the old one: a Scout keeps its job, anyone else becomes Idle, others untouched |
| WorkerManager.WorkerManager.StopRepairing | src/WorkerManager.cpp:38-42 | stopping a repair finishes with the worker |
| WorkerManager.WorkerManager.SetRepairWorker | src/WorkerManager.cpp:33-36 | the worker's entry becomes Repair on the unit to repair, and nothing else changes |
| WorkerManager.WorkerManager.SetScoutWorker | src/WorkerManager.cpp:434-437 | the worker's entry becomes Scout, and nothing else changes |
| WorkerManager.WorkerManager.SetCombatWorker | src/WorkerManager.cpp:439-442 | the worker's entry becomes Combat, and nothing else changes |
| WorkerManager.WorkerManager.SetBuildingWorker | src/WorkerManager.cpp:407-410 | the worker's entry becomes Build without a target, and nothing else changes |
| WorkerManager.WorkerManager.SetBuildingWorkerFor | src/WorkerManager.cpp:412-415 | the worker's entry becomes Build on the building's unit, and nothing else changes |
| WorkerManager.WorkerManager.GetClosestMineralWorkerTo | src/WorkerManager.cpp:232-262 | the argmin loop with closestDist returns the first-wins nearest eligible worker |
| WorkerManager.WorkerManager.GetGasWorker | src/WorkerManager.cpp:402-405 | the gas worker is the nearest eligible worker to the refinery, ignoring no one |
| WorkerManager.WorkerManager.GetClosestDepot | src/WorkerManager.cpp:370-391 | the argmin loop returns the first-wins nearest completed depot |
| WorkerManager.WorkerManager.SetMineralWorker | src/WorkerManager.cpp:357-368 | the worker is sent to mine at the closest depot when one exists; otherwise nothing changes |
| WorkerManager.WorkerManager.HandleIdleWorker | src/WorkerManager.cpp:157-182 | one worker's entry becomes its idle outcome, no other entry changes, and a stop is sent exactly for a dead worker left Idle |
| WorkerManager.WorkerManager.HandleIdleWorkers | src/WorkerManager.cpp:152-184 | every roster worker's entry becomes its idle outcome, entries of non-roster tags are unchanged, and the stops sent are those of the dead Idle workers in roster order |
| WorkerManager.WorkerManager.FillRefinery | src/WorkerManager.cpp:137-147 | the refinery gains free workers up to at most max(count, 3) and ends with at least 3 or with no free worker left; every new gas worker was free when picked; other refineries keep their counts |
| WorkerManager.WorkerManager.HandleGasWorkers | src/WorkerManager.cpp:128-150 | every completed refinery ends with between its old count and max(old count, 3) gas workers, and with at least 3 unless no free worker is left; each new one was free when selected; no other refinery's count changes and no entry disappears |
| WorkerManager.WorkerManager.HandleRepairWorkers | src/WorkerManager.cpp:186-230 | for a non-Terran race nothing changes and no command is sent; otherwise the job map and the commands are those of the repair pass over the roster |
| WorkerManager.WorkerManager.GetBuilder | src/WorkerManager.cpp:420-431 | the builder is the nearest free worker to the building position; its job becomes Build on the builder unit only when one is found and the job is to be set; otherwise nothing changes |
| WorkerManager.WorkerManager.GetNumWorkers | src/WorkerManager.cpp:535-546 | the counting loop returns the number of valid living workers |

## Left out

- The command sink (`Actions()->UnitCommand`), the game observation and every other kind of I/O. Commands are returned as lists, and observations are parameters.
- The game and library queries are left uninterpreted. This covers `Util::GetDpsForTarget`, `GetAttackRangeForTarget`, `Dist`, `getSpeedOfUnit`, unit-type predicates, `IsParasited`, the enemy SCV and refinery lists, the Yamato target set, `isReturningCargo` and unit lookup by tag.
- Floating point: all arithmetic is on `real`, and `pow` is an uninterpreted function. The only IEEE effects modelled are the infinities where the source divides by zero: `TimeToEnter` with speed 0, and `RangedAttackPriority` with no health or distance 0.
- The behaviour-tree builder and the action classes (`FocusFireAction`, `KiteAction`, `GoToMineralShardAction`, `GoToObjectiveAction`) are not part of this model. Each action's success is an input of the tick.
- The alpha-beta search itself is not part of this model; only the dispatch of the move it returns is modelled.
- The internals of `WorkerData` are not part of this model. It is modelled as one map from worker tag to job and target. The side commands `setWorkerJob` sends and the repair bookkeeping of `WorkerStoppedRepairing` are not modelled. The set of workers repairing a unit is derived from that map.
- `updateAllWorkerData` is not modelled. The worker roster is fixed when the manager is built, and its tags are distinct, as in the `std::set` the source keeps.
- `Unit::stop` and `Unit::repair` are modelled as the commands of `SmartStop` and `SmartRepair`. A repair target that can no longer be looked up is treated as dead.
- The debug drawing (`drawResourceDebugInfo`, `drawWorkerInformation`, `drawTextScreen`, `drawCircle`), the commented-out code, and the thin wrappers `getAverageSquadSpeed`, `getSquadPower` and `getTargetsPower` are not modelled.
- MicroManager.NonCombatScoreAtMostOne and MicroManager.ProximityValue: they take as a hypothesis that `pow(0.9, d)` lies in (0, 1] for d > 0, because `pow` is uninterpreted.
- The behaviour-tree pass (`DecideUnit`, `DecideUnits`, `AssignTargets`) uses the corrected mineral scan `ClosestMineral`. The scan as written is modelled separately, by `ClosestMineralAsWritten` and the lemmas in Findings.
- `Util::IsCombatUnitType` (used by the kite decision) and `UnitType::isCombatUnit` (used by the attack priority) are two separate queries, `isCombatUnitType` and `isCombatUnit`.
- `SmartBuild`, `SmartBuildTarget`, `SmartTrain` and `SmartAbility` depend on the bot's type data and are not modelled.
- Null-pointer assertions (`BOT_ASSERT`) on attackers and targets are not modelled: units are values, so they cannot be null. A missing target in the raw list is an `Option`.
- `WorkerManager.WorkerManager.GetJob`, `IsFree`, `IsWorkerScout`, `IsBuilder`, `GetNumMineralWorkers` and `GetNumGasWorkers` are plain readers of the job map with no contract of their own. Their properties are stated through `FreeExactlyWhenUntasked`, `JobCountAfterUpdate` and `GasCountAtMostGasWorkers`.

## Findings

| source | as written | input that shows it | evidently intended | confidence | as-written member | corrected member |
|---|---|---|---|---|---|---|
| src/RangedManager.cpp:194-197 | when no neutral unit on screen has been seen yet, the `else if` branch compares distances against `closestShard->pos` with `closestShard` still null, because the type and distance tests come before the on-screen test | a single neutral unit of type 1680 (mineral shard) that is not on screen | compare distances only once a shard is held, keeping the first on-screen neutral and replacing it with any closer on-screen shard | not executed | RangedManager.OffScreenShardCrashesScan | RangedManager.ClosestMineralIsClosestShard |
