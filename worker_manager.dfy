/** WorkerManager.cpp: the job bookkeeping of the bot's workers. Every worker has a job and,
    for some jobs, a target unit (the depot it mines for, the refinery it harvests, the unit it
    repairs, the building it builds). Each frame idle workers are sent back to mining,
    completed refineries are filled up to three harvesters, and Terran workers repair each
    other. */
module WorkerManager {
  import opened Common
  import opened Micro

  datatype Job = Minerals | Gas | Build | Combat | Idle | Repair | Move | Scout | NoJob

  /** A worker's entry in the worker data: its job and the unit the job is about, if any. */
  datatype Assignment = Assignment(job: Job, target: Option<UnitId>)

  type Assignments = map<UnitId, Assignment>

  /** A completed refinery is filled up to this many harvesters. */
  const GasWorkersPerRefinery: int := 3

  /** `std::numeric_limits<float>::epsilon()`, 2^-23. */
  const RepairEpsilon: real := 1.0 / 8388608.0

  predicate DistinctIds(units: seq<Unit>)
  {
    forall i, j :: 0 <= i < j < |units| ==> units[i].id != units[j].id
  }

  predicate IsWorkerId(workers: seq<Unit>, id: UnitId)
  {
    exists i :: 0 <= i < |workers| && workers[i].id == id
  }

  /** The job the worker data reports for a tag; a worker without an entry has no job. */
  function JobIn(asg: Assignments, id: UnitId): Job
  {
    if id in asg then asg[id].job else NoJob
  }

  function EntryIn(asg: Assignments, id: UnitId): Option<Assignment>
  {
    if id in asg then Some(asg[id]) else None
  }

  function Max(a: int, b: int): int
  {
    if a < b then b else a
  }

  /* ---------------------------------------------------------------- free workers */

  /** `isFree`: a MULE is never free; any other worker is free when it mines minerals, is idle
      or has no job. */
  predicate IsFreeIn(g: Game, asg: Assignments, worker: Unit)
  {
    !g.isMule(worker.typeId) && (JobIn(asg, worker.id) == Minerals || JobIn(asg, worker.id) == Idle || JobIn(asg, worker.id) == NoJob)
  }

  /** A worker is free exactly when it is not a MULE and none of the tasks gas, building,
      combat, repair, move or scouting is assigned to it. */
  lemma FreeExactlyWhenUntasked(g: Game, asg: Assignments, worker: Unit)
    ensures IsFreeIn(g, asg, worker) <==>
      !g.isMule(worker.typeId) && JobIn(asg, worker.id) !in {Gas, Build, Combat, Repair, Job.Move, Scout}
  {
  }

  /** The workers `getClosestMineralWorkerTo` considers: valid, not the ignored one, free, and
      not carrying resources back. */
  function MineralWorkerFilter(g: Game, asg: Assignments, workerToIgnore: UnitId): Unit -> bool
  {
    (w: Unit) => w.valid && w.id != workerToIgnore && IsFreeIn(g, asg, w) && !g.isReturningCargo(w)
  }

  function DistSqTo(pos: Point): Unit -> real
  {
    (w: Unit) => DistSq(w.pos, pos)
  }

  /** The worker `getClosestMineralWorkerTo` returns. */
  function ClosestMineralWorker(g: Game, asg: Assignments, workers: seq<Unit>, pos: Point, workerToIgnore: UnitId): Option<Unit>
  {
    FirstMin(workers, MineralWorkerFilter(g, asg, workerToIgnore), DistSqTo(pos))
  }

  /** Nothing is returned exactly when no worker qualifies; otherwise a qualifying worker at
      the smallest squared distance, the earliest of those in iteration order. */
  lemma ClosestMineralWorkerIsNearestFree(g: Game, asg: Assignments, workers: seq<Unit>, pos: Point, workerToIgnore: UnitId)
    ensures ClosestMineralWorker(g, asg, workers, pos, workerToIgnore).None? <==>
      forall i :: 0 <= i < |workers| ==> !MineralWorkerFilter(g, asg, workerToIgnore)(workers[i])
    ensures ClosestMineralWorker(g, asg, workers, pos, workerToIgnore).Some? ==>
      var w := ClosestMineralWorker(g, asg, workers, pos, workerToIgnore).value;
      w.valid && w.id != workerToIgnore && IsFreeIn(g, asg, w) && !g.isReturningCargo(w) &&
      exists k :: 0 <= k < |workers| && workers[k] == w &&
        (forall i :: 0 <= i < |workers| && MineralWorkerFilter(g, asg, workerToIgnore)(workers[i]) ==>
          DistSq(w.pos, pos) <= DistSq(workers[i].pos, pos)) &&
        (forall i :: 0 <= i < k && MineralWorkerFilter(g, asg, workerToIgnore)(workers[i]) ==>
          DistSq(w.pos, pos) < DistSq(workers[i].pos, pos))
  {
    FirstMinIsEarliestMinimum(workers, MineralWorkerFilter(g, asg, workerToIgnore), DistSqTo(pos));
  }

  /* ---------------------------------------------------------------- depots */

  function DepotFilter(g: Game): Unit -> bool
  {
    (u: Unit) => u.valid && g.isResourceDepot(u.typeId) && u.completed
  }

  function DistFrom(g: Game, worker: Unit): Unit -> real
  {
    (u: Unit) => g.dist(u.pos, worker.pos)
  }

  /** The depot `getClosestDepot` returns. */
  function ClosestDepot(g: Game, ownUnits: seq<Unit>, worker: Unit): Option<Unit>
  {
    FirstMin(ownUnits, DepotFilter(g), DistFrom(g, worker))
  }

  /** Nothing is returned exactly when the bot has no valid completed resource depot;
      otherwise such a depot at the smallest distance from the worker, the earliest of those. */
  lemma ClosestDepotIsNearestCompletedDepot(g: Game, ownUnits: seq<Unit>, worker: Unit)
    ensures ClosestDepot(g, ownUnits, worker).None? <==>
      forall i :: 0 <= i < |ownUnits| ==> !(ownUnits[i].valid && g.isResourceDepot(ownUnits[i].typeId) && ownUnits[i].completed)
    ensures ClosestDepot(g, ownUnits, worker).Some? ==>
      var d := ClosestDepot(g, ownUnits, worker).value;
      d.valid && g.isResourceDepot(d.typeId) && d.completed &&
      exists k :: 0 <= k < |ownUnits| && ownUnits[k] == d &&
        (forall i :: 0 <= i < |ownUnits| && DepotFilter(g)(ownUnits[i]) ==>
          g.dist(d.pos, worker.pos) <= g.dist(ownUnits[i].pos, worker.pos)) &&
        (forall i :: 0 <= i < k && DepotFilter(g)(ownUnits[i]) ==>
          g.dist(d.pos, worker.pos) < g.dist(ownUnits[i].pos, worker.pos))
  {
    FirstMinIsEarliestMinimum(ownUnits, DepotFilter(g), DistFrom(g, worker));
  }

  /* ---------------------------------------------------------------- idle workers */

  /** Jobs a worker keeps even when the game reports it idle: a moving worker, a repairer, a
      scout, and a builder that waits for resources or finished a refinery. */
  predicate KeepsJobWhenIdle(job: Job)
  {
    job == Job.Move || job == Repair || job == Scout || job == Build
  }

  function JobOf(entry: Option<Assignment>): Job
  {
    if entry.Some? then entry.value.job else NoJob
  }

  /** The job of a valid worker once `handleIdleWorkers` has relabelled it. */
  function RelabelledJob(job: Job, w: Unit): Job
  {
    if w.idle && !KeepsJobWhenIdle(job) then Idle else job
  }

  /** A worker's entry after `handleIdleWorkers` has handled it, from its entry before: an idle
      worker is relabelled Idle unless its job is kept, and an alive Idle worker is sent to mine
      for the closest depot when there is one. */
  function IdleOutcome(g: Game, ownUnits: seq<Unit>, entry: Option<Assignment>, w: Unit): (r: Option<Assignment>)
    ensures !w.valid ==> r == entry
    ensures r == entry || r == Some(Assignment(Idle, None)) || JobOf(r) == Minerals
    ensures w.valid && w.alive && JobOf(r) == Idle ==>
      forall i :: 0 <= i < |ownUnits| ==> !DepotFilter(g)(ownUnits[i])
  {
    if !w.valid then entry
    else
      ClosestDepotIsNearestCompletedDepot(g, ownUnits, w);
      var job := RelabelledJob(JobOf(entry), w);
      var relabelled := if w.idle && !KeepsJobWhenIdle(JobOf(entry)) then Some(Assignment(Idle, None)) else entry;
      var depot := ClosestDepot(g, ownUnits, w);
      if job == Idle && w.alive && depot.Some? then Some(Assignment(Minerals, Some(depot.value.id)))
      else relabelled
  }

  /** `handleIdleWorkers` orders a stop to a dead worker whose job is Idle. */
  predicate StopsIdle(entry: Option<Assignment>, w: Unit)
  {
    w.valid && RelabelledJob(JobOf(entry), w) == Idle && !w.alive
  }

  function IdleStops(asg: Assignments, ws: seq<Unit>): seq<Command>
  {
    if ws == [] then []
    else
      var n := |ws| - 1;
      IdleStops(asg, ws[..n]) + (if StopsIdle(EntryIn(asg, ws[n].id), ws[n]) then [SmartStop(ws[n])] else [])
  }

  /** The rules of `handleIdleWorkers` for one valid worker. */
  lemma IdleOutcomeRules(g: Game, ownUnits: seq<Unit>, entry: Option<Assignment>, w: Unit)
    requires w.valid
    ensures KeepsJobWhenIdle(JobOf(entry)) ==> IdleOutcome(g, ownUnits, entry, w) == entry
    ensures w.idle && !KeepsJobWhenIdle(JobOf(entry)) ==>
      JobOf(IdleOutcome(g, ownUnits, entry, w)) == Idle || JobOf(IdleOutcome(g, ownUnits, entry, w)) == Minerals
    ensures RelabelledJob(JobOf(entry), w) == Idle ==>
      (JobOf(IdleOutcome(g, ownUnits, entry, w)) == Minerals <==>
        w.alive && exists i :: 0 <= i < |ownUnits| && ownUnits[i].valid && g.isResourceDepot(ownUnits[i].typeId) && ownUnits[i].completed)
    ensures RelabelledJob(JobOf(entry), w) == Idle && JobOf(IdleOutcome(g, ownUnits, entry, w)) == Minerals ==>
      exists i :: 0 <= i < |ownUnits| && ownUnits[i].valid && g.isResourceDepot(ownUnits[i].typeId) && ownUnits[i].completed &&
        IdleOutcome(g, ownUnits, entry, w).value.target == Some(ownUnits[i].id)
  {
    ClosestDepotIsNearestCompletedDepot(g, ownUnits, w);
    if ClosestDepot(g, ownUnits, w).Some? {
      var d := ClosestDepot(g, ownUnits, w).value;
      var k :| 0 <= k < |ownUnits| && ownUnits[k] == d &&
        (forall i :: 0 <= i < |ownUnits| && DepotFilter(g)(ownUnits[i]) ==>
          g.dist(d.pos, w.pos) <= g.dist(ownUnits[i].pos, w.pos)) &&
        (forall i :: 0 <= i < k && DepotFilter(g)(ownUnits[i]) ==>
          g.dist(d.pos, w.pos) < g.dist(ownUnits[i].pos, w.pos));
      assert ownUnits[k].valid && g.isResourceDepot(ownUnits[k].typeId) && ownUnits[k].completed;
    }
  }

  lemma NotWorkerIdOfPrefix(ws: seq<Unit>, i: int, id: UnitId)
    requires 0 <= i < |ws| && !IsWorkerId(ws[..i + 1], id)
    ensures id != ws[i].id && !IsWorkerId(ws[..i], id)
  {
    assert ws[..i + 1][i] == ws[i];
    assert forall j :: 0 <= j < i ==> ws[..i][j] == ws[..i + 1][j];
  }

  /* ---------------------------------------------------------------- gas */

  function GasWorkersOf(asg: Assignments, refinery: UnitId): set<UnitId>
  {
    set id | id in asg && asg[id] == Assignment(Gas, Some(refinery))
  }

  /** `getNumAssignedWorkers` of a refinery. */
  function GasCount(asg: Assignments, refinery: UnitId): nat
  {
    |GasWorkersOf(asg, refinery)|
  }

  /** Giving a worker that does not harvest gas a new entry adds one harvester to the
      refinery of that entry and changes no other refinery's count. */
  lemma {:induction false} GasCountAfterUpdate(asg: Assignments, id: UnitId, a: Assignment, refinery: UnitId)
    requires JobIn(asg, id) != Gas
    ensures GasCount(asg[id := a], refinery) == GasCount(asg, refinery) + (if a == Assignment(Gas, Some(refinery)) then 1 else 0)
  {
    var before, after := GasWorkersOf(asg, refinery), GasWorkersOf(asg[id := a], refinery);
    assert id !in before;
    if a == Assignment(Gas, Some(refinery)) {
      assert after == before + {id};
    } else {
      assert after == before;
    }
  }

  predicate Changed(before: Assignments, after: Assignments, id: UnitId)
  {
    id in after && (id !in before || after[id] != before[id])
  }

  /** The worker with this tag was a free mineral-worker candidate under `asg`. */
  predicate IsCandidateIn(g: Game, asg: Assignments, workers: seq<Unit>, id: UnitId)
  {
    exists i :: 0 <= i < |workers| && workers[i].id == id && MineralWorkerFilter(g, asg, NoUnitId)(workers[i])
  }

  /** Filling one refinery: every entry that differs between `before` and `after` now
      harvests `refinery` and belongs to a worker that was a free candidate in `before`. */
  ghost predicate FilledFrom(g: Game, before: Assignments, workers: seq<Unit>, refinery: UnitId, after: Assignments)
  {
    forall id :: Changed(before, after, id) ==>
      after[id] == Assignment(Gas, Some(refinery)) && IsCandidateIn(g, before, workers, id)
  }

  ghost predicate CountsKeptExcept(before: Assignments, after: Assignments, refinery: UnitId)
  {
    forall r :: r != refinery ==> GasCount(after, r) == GasCount(before, r)
  }

  /** An entry `handleGasWorkers` wrote: a worker that was a free candidate before the pass,
      now harvesting one of the first `upTo` units, a completed refinery. */
  predicate NewGasWorker(g: Game, before: Assignments, workers: seq<Unit>, ownUnits: seq<Unit>, upTo: int,
                         after: Assignments, id: UnitId)
    requires id in after
  {
    IsCandidateIn(g, before, workers, id) &&
    exists k :: 0 <= k < upTo && k < |ownUnits| && g.isRefinery(ownUnits[k].typeId) && ownUnits[k].completed &&
      after[id] == Assignment(Gas, Some(ownUnits[k].id))
  }

  ghost predicate GasChangedUpTo(g: Game, before: Assignments, workers: seq<Unit>, ownUnits: seq<Unit>, upTo: int, after: Assignments)
  {
    forall id :: Changed(before, after, id) ==> NewGasWorker(g, before, workers, ownUnits, upTo, after, id)
  }

  /** Moving one more free candidate to the refinery keeps `FilledFrom`, adds one harvester
      to that refinery and none to any other. */
  lemma GasStep(g: Game, base: Assignments, cur: Assignments, workers: seq<Unit>, refinery: UnitId, k: int)
    requires base.Keys <= cur.Keys
    requires FilledFrom(g, base, workers, refinery, cur)
    requires CountsKeptExcept(base, cur, refinery)
    requires 0 <= k < |workers| && MineralWorkerFilter(g, cur, NoUnitId)(workers[k])
    ensures var next := cur[workers[k].id := Assignment(Gas, Some(refinery))];
      base.Keys <= next.Keys && FilledFrom(g, base, workers, refinery, next) &&
      CountsKeptExcept(base, next, refinery) && GasCount(next, refinery) == GasCount(cur, refinery) + 1
  {
    var w := workers[k];
    var a := Assignment(Gas, Some(refinery));
    var next := cur[w.id := a];
    assert !Changed(base, cur, w.id);
    assert JobIn(cur, w.id) == JobIn(base, w.id);
    assert MineralWorkerFilter(g, base, NoUnitId)(workers[k]);
    GasCountAfterUpdate(cur, w.id, a, refinery);
    forall r | r != refinery
      ensures GasCount(next, r) == GasCount(base, r)
    {
      GasCountAfterUpdate(cur, w.id, a, r);
    }
    forall id | Changed(base, next, id)
      ensures next[id] == a && IsCandidateIn(g, base, workers, id)
    {
      if id != w.id {
        assert Changed(base, cur, id);
      }
    }
  }

  /** One round of filling a refinery: either no worker is free, or the closest free worker
      can be moved to the refinery as `GasStep` describes. */
  lemma FillStep(g: Game, base: Assignments, cur: Assignments, workers: seq<Unit>, refinery: Unit)
    requires base.Keys <= cur.Keys
    requires FilledFrom(g, base, workers, refinery.id, cur)
    requires CountsKeptExcept(base, cur, refinery.id)
    ensures var w := ClosestMineralWorker(g, cur, workers, refinery.pos, NoUnitId);
      w.None? ==> NoFreeWorker(g, cur, workers)
    ensures var w := ClosestMineralWorker(g, cur, workers, refinery.pos, NoUnitId);
      w.Some? ==>
        var next := cur[w.value.id := Assignment(Gas, Some(refinery.id))];
        base.Keys <= next.Keys && FilledFrom(g, base, workers, refinery.id, next) &&
        CountsKeptExcept(base, next, refinery.id) && GasCount(next, refinery.id) == GasCount(cur, refinery.id) + 1
  {
    var w := ClosestMineralWorker(g, cur, workers, refinery.pos, NoUnitId);
    ClosestMineralWorkerIsNearestFree(g, cur, workers, refinery.pos, NoUnitId);
    if w.Some? {
      var k :| 0 <= k < |workers| && workers[k] == w.value;
      GasStep(g, base, cur, workers, refinery.id, k);
    }
  }

  /** After the refinery at index j is filled, every entry changed since the start of the
      pass harvests one of the first j + 1 units. A worker already sent to gas earlier in the
      pass is not free, so it cannot be taken again. */
  lemma GasRefineryStep(g: Game, start: Assignments, before: Assignments, after: Assignments,
                        workers: seq<Unit>, ownUnits: seq<Unit>, j: int)
    requires start.Keys <= before.Keys
    requires 0 <= j < |ownUnits| && g.isRefinery(ownUnits[j].typeId) && ownUnits[j].completed
    requires GasChangedUpTo(g, start, workers, ownUnits, j, before)
    requires FilledFrom(g, before, workers, ownUnits[j].id, after)
    ensures GasChangedUpTo(g, start, workers, ownUnits, j + 1, after)
  {
    forall id | Changed(start, after, id)
      ensures NewGasWorker(g, start, workers, ownUnits, j + 1, after, id)
    {
      if Changed(before, after, id) {
        var i :| 0 <= i < |workers| && workers[i].id == id && MineralWorkerFilter(g, before, NoUnitId)(workers[i]);
        assert !Changed(start, before, id);
        assert JobIn(before, id) == JobIn(start, id);
        assert MineralWorkerFilter(g, start, NoUnitId)(workers[i]);
      } else {
        assert Changed(start, before, id);
        var k :| 0 <= k < j && k < |ownUnits| && g.isRefinery(ownUnits[k].typeId) && ownUnits[k].completed &&
          before[id] == Assignment(Gas, Some(ownUnits[k].id));
        assert after[id] == Assignment(Gas, Some(ownUnits[k].id));
      }
    }
  }

  lemma GasChangedUpToGrows(g: Game, start: Assignments, workers: seq<Unit>, ownUnits: seq<Unit>, j: int, asg: Assignments)
    requires GasChangedUpTo(g, start, workers, ownUnits, j, asg)
    ensures GasChangedUpTo(g, start, workers, ownUnits, j + 1, asg)
  {
    forall id | Changed(start, asg, id)
      ensures NewGasWorker(g, start, workers, ownUnits, j + 1, asg, id)
    {
      var k :| 0 <= k < j && k < |ownUnits| && g.isRefinery(ownUnits[k].typeId) && ownUnits[k].completed &&
        asg[id] == Assignment(Gas, Some(ownUnits[k].id));
    }
  }

  /** No worker is left that `getClosestMineralWorkerTo` could hand out. */
  predicate NoFreeWorker(g: Game, asg: Assignments, workers: seq<Unit>)
  {
    forall k :: 0 <= k < |workers| ==> !MineralWorkerFilter(g, asg, NoUnitId)(workers[k])
  }

  /** What filling a refinery achieves: three harvesters, or no free worker to send. */
  predicate GasFilled(g: Game, asg: Assignments, workers: seq<Unit>, refinery: UnitId)
  {
    GasCount(asg, refinery) >= GasWorkersPerRefinery || NoFreeWorker(g, asg, workers)
  }

  /** Filling a refinery only takes free workers, so when none is free it changes no worker's
      entry and none becomes free. */
  lemma {:induction false} NoFreeWorkerKept(g: Game, before: Assignments, after: Assignments, workers: seq<Unit>, refinery: UnitId)
    requires before.Keys <= after.Keys
    requires FilledFrom(g, before, workers, refinery, after)
    requires NoFreeWorker(g, before, workers)
    ensures NoFreeWorker(g, after, workers)
  {
    forall k | 0 <= k < |workers|
      ensures !MineralWorkerFilter(g, after, NoUnitId)(workers[k])
    {
      var id := workers[k].id;
      assert !Changed(before, after, id);
      assert JobIn(after, id) == JobIn(before, id);
    }
  }

  /** Filling the refinery at index j leaves every earlier completed refinery filled: its
      count is kept, and a pass that found no free worker frees none. */
  lemma GasFilledKept(g: Game, before: Assignments, after: Assignments, workers: seq<Unit>, ownUnits: seq<Unit>, j: int)
    requires 0 <= j < |ownUnits| && DistinctIds(ownUnits)
    requires before.Keys <= after.Keys
    requires FilledFrom(g, before, workers, ownUnits[j].id, after)
    requires CountsKeptExcept(before, after, ownUnits[j].id)
    requires GasFilled(g, after, workers, ownUnits[j].id)
    requires forall k :: 0 <= k < j && g.isRefinery(ownUnits[k].typeId) && ownUnits[k].completed ==>
      GasFilled(g, before, workers, ownUnits[k].id)
    ensures forall k :: 0 <= k <= j && g.isRefinery(ownUnits[k].typeId) && ownUnits[k].completed ==>
      GasFilled(g, after, workers, ownUnits[k].id)
  {
    if NoFreeWorker(g, before, workers) {
      NoFreeWorkerKept(g, before, after, workers, ownUnits[j].id);
    }
    forall k | 0 <= k < j && g.isRefinery(ownUnits[k].typeId) && ownUnits[k].completed
      ensures GasFilled(g, after, workers, ownUnits[k].id)
    {
      assert ownUnits[k].id != ownUnits[j].id;
    }
  }

  /* ---------------------------------------------------------------- repair */

  /** Repair ends when the repaired unit is gone or dead, or its health is within one float
      epsilon of its maximum. */
  predicate RepairFinished(repaired: Option<Unit>)
  {
    repaired.None? || !repaired.value.alive || repaired.value.health + RepairEpsilon >= repaired.value.healthMax
  }

  /** The workers repairing a given unit. */
  function RepairersOf(asg: Assignments, target: UnitId): set<UnitId>
  {
    set id | id in asg && asg[id].job == Repair && asg[id].target == Some(target)
  }

  /** `finishedWithWorker` on the entries: a scout keeps its job, any other worker becomes
      Idle. */
  function FinishedWith(asg: Assignments, id: UnitId): (r: Assignments)
    ensures JobIn(r, id) == (if JobIn(asg, id) == Scout then Scout else Idle)
    ensures forall other :: other != id ==> EntryIn(r, other) == EntryIn(asg, other)
  {
    if JobIn(asg, id) != Scout then asg[id := Assignment(Idle, None)] else asg
  }

  datatype RepairState = RepairState(asg: Assignments, commands: seq<Command>)

  /** The unit a worker's Repair entry points at, as the game sees it now. */
  function RepairTarget(g: Game, asg: Assignments, id: UnitId): Option<Unit>
  {
    if id in asg && asg[id].target.Some? then g.lookup(asg[id].target.value) else None
  }

  /** One iteration of `handleRepairWorkers` for worker w: first a repairer whose work is over
      stops (or an idle one goes back to repairing), then a damaged worker nobody repairs asks
      for the closest free worker within the repair distance. */
  function RepairStep(g: Game, maxRepairDistance: real, workers: seq<Unit>, s: RepairState, w: Unit): (r: RepairState)
    ensures !w.valid ==> r == s
    ensures s.asg.Keys <= r.asg.Keys
    ensures s.commands <= r.commands && |r.commands| <= |s.commands| + 1
    ensures forall id :: id != w.id && Changed(s.asg, r.asg, id) ==> r.asg[id] == Assignment(Repair, Some(w.id))
  {
    if !w.valid then s
    else
      var s1 :=
        if JobIn(s.asg, w.id) != Repair then s
        else
          var repaired := RepairTarget(g, s.asg, w.id);
          if !w.alive || RepairFinished(repaired) then RepairState(FinishedWith(s.asg, w.id), s.commands)
          else if w.idle then RepairState(s.asg, s.commands + [SmartRepair(w, repaired.value)])
          else s;
      if w.alive && w.health < w.healthMax && RepairersOf(s1.asg, w.id) == {} then
        var repairGuy := ClosestMineralWorker(g, s1.asg, workers, w.pos, w.id);
        if repairGuy.Some? && g.dist(w.pos, repairGuy.value.pos) <= maxRepairDistance
        then RepairState(s1.asg[repairGuy.value.id := Assignment(Repair, Some(w.id))], s1.commands)
        else s1
      else s1
  }

  /** `handleRepairWorkers` over the workers `ws`, in order. */
  function RepairPass(g: Game, maxRepairDistance: real, workers: seq<Unit>, s: RepairState, ws: seq<Unit>): RepairState
  {
    if ws == [] then s
    else RepairStep(g, maxRepairDistance, workers, RepairPass(g, maxRepairDistance, workers, s, ws[..|ws| - 1]), ws[|ws| - 1])
  }

  /** No worker is set to repair itself. */
  predicate NoSelfRepair(asg: Assignments)
  {
    forall id :: id in asg && asg[id].job == Repair ==> asg[id].target != Some(id)
  }

  /** A repair step never makes a worker its own repairer: the damaged worker is the ignored
      one of the search. */
  lemma RepairStepNeverSelfRepair(g: Game, maxRepairDistance: real, workers: seq<Unit>, s: RepairState, w: Unit)
    requires NoSelfRepair(s.asg)
    ensures NoSelfRepair(RepairStep(g, maxRepairDistance, workers, s, w).asg)
  {
    if w.valid {
      var s1 :=
        if JobIn(s.asg, w.id) != Repair then s
        else
          var repaired := RepairTarget(g, s.asg, w.id);
          if !w.alive || RepairFinished(repaired) then RepairState(FinishedWith(s.asg, w.id), s.commands)
          else if w.idle then RepairState(s.asg, s.commands + [SmartRepair(w, repaired.value)])
          else s;
      assert NoSelfRepair(s1.asg);
      ClosestMineralWorkerIsNearestFree(g, s1.asg, workers, w.pos, w.id);
    }
  }

  lemma {:induction false} RepairPassNeverSelfRepair(g: Game, maxRepairDistance: real, workers: seq<Unit>, s: RepairState, ws: seq<Unit>)
    requires NoSelfRepair(s.asg)
    ensures NoSelfRepair(RepairPass(g, maxRepairDistance, workers, s, ws).asg)
  {
    if ws != [] {
      RepairPassNeverSelfRepair(g, maxRepairDistance, workers, s, ws[..|ws| - 1]);
      RepairStepNeverSelfRepair(g, maxRepairDistance, workers, RepairPass(g, maxRepairDistance, workers, s, ws[..|ws| - 1]), ws[|ws| - 1]);
    }
  }

  /** A repairer that is dead, or whose target is gone, dead or (nearly) at full health, is
      Idle after its step. */
  lemma RepairStepStopsFinishedRepair(g: Game, maxRepairDistance: real, workers: seq<Unit>, s: RepairState, w: Unit)
    requires w.valid && JobIn(s.asg, w.id) == Repair
    requires !w.alive || RepairFinished(RepairTarget(g, s.asg, w.id))
    ensures JobIn(RepairStep(g, maxRepairDistance, workers, s, w).asg, w.id) == Idle
  {
    var a1 := FinishedWith(s.asg, w.id);
    ClosestMineralWorkerIsNearestFree(g, a1, workers, w.pos, w.id);
  }

  /** A repair step only hands out a Repair job for the damaged, alive worker w itself, to
      another worker within the repair distance that was a free candidate. */
  lemma RepairStepAssignsOnlyForDamagedWorker(g: Game, maxRepairDistance: real, workers: seq<Unit>, s: RepairState, w: Unit, id: UnitId)
    requires id in RepairStep(g, maxRepairDistance, workers, s, w).asg
    requires RepairStep(g, maxRepairDistance, workers, s, w).asg[id].job == Repair
    requires id !in s.asg || s.asg[id] != RepairStep(g, maxRepairDistance, workers, s, w).asg[id]
    ensures w.valid && w.alive && w.health < w.healthMax && id != w.id
    ensures RepairStep(g, maxRepairDistance, workers, s, w).asg[id].target == Some(w.id)
    ensures exists i :: (0 <= i < |workers| && workers[i].id == id && workers[i].valid &&
      g.dist(w.pos, workers[i].pos) <= maxRepairDistance)
  {
    var s1 :=
      if JobIn(s.asg, w.id) != Repair then s
      else
        var repaired := RepairTarget(g, s.asg, w.id);
        if !w.alive || RepairFinished(repaired) then RepairState(FinishedWith(s.asg, w.id), s.commands)
        else if w.idle then RepairState(s.asg, s.commands + [SmartRepair(w, repaired.value)])
        else s;
    ClosestMineralWorkerIsNearestFree(g, s1.asg, workers, w.pos, w.id);
  }

  /* ---------------------------------------------------------------- the manager */

  function CountLive(ws: seq<Unit>): (n: nat)
    ensures n <= |ws|
    ensures n == |ws| <==> forall i :: 0 <= i < |ws| ==> ws[i].valid && ws[i].alive
  {
    if ws == [] then 0
    else
      var k := |ws| - 1;
      assert forall i :: 0 <= i < k ==> ws[..k][i] == ws[i];
      CountLive(ws[..k]) + (if ws[k].valid && ws[k].alive then 1 else 0)
  }

  function WorkersWithJob(asg: Assignments, job: Job): set<UnitId>
  {
    set id | id in asg && asg[id].job == job
  }

  /** `getWorkerJobCount`: the number of workers whose entry has this job. */
  function JobCount(asg: Assignments, job: Job): (n: nat)
    ensures n <= |asg|
  {
    var ids := WorkersWithJob(asg, job);
    assert ids <= asg.Keys;
    SubsetCardinality(ids, asg.Keys);
    |ids|
  }

  /** Setting one worker's entry moves that worker from the count of its old job to the count
      of its new one; every other job's count stays the same. */
  lemma {:induction false} JobCountAfterUpdate(asg: Assignments, id: UnitId, a: Assignment, job: Job)
    ensures JobCount(asg[id := a], job) ==
      JobCount(asg, job) - (if id in asg && asg[id].job == job then 1 else 0) + (if a.job == job then 1 else 0)
  {
    var before, after := WorkersWithJob(asg, job), WorkersWithJob(asg[id := a], job);
    assert after - {id} == before - {id};
    assert id in before <==> id in asg && asg[id].job == job;
    assert id in after <==> a.job == job;
    CardinalityOffOne(before, after, id);
  }

  /** Two sets that agree everywhere except at `id` differ in size by their membership of `id`. */
  lemma CardinalityOffOne(before: set<UnitId>, after: set<UnitId>, id: UnitId)
    requires after - {id} == before - {id}
    ensures |after| == |before| - (if id in before then 1 else 0) + (if id in after then 1 else 0)
  {
    var rest := before - {id};
    if id in before {
      assert before == rest + {id};
    }
    if id in after {
      assert after == rest + {id};
    }
  }

  lemma SubsetCardinality(a: set<UnitId>, b: set<UnitId>)
    requires a <= b
    ensures |a| <= |b|
  {
    if a != {} {
      var x :| x in a;
      SubsetCardinality(a - {x}, b - {x});
    }
  }

  /** Every worker harvesting a refinery counts among the gas workers. */
  lemma GasCountAtMostGasWorkers(asg: Assignments, refinery: UnitId)
    ensures GasCount(asg, refinery) <= JobCount(asg, Gas)
  {
    SubsetCardinality(GasWorkersOf(asg, refinery), WorkersWithJob(asg, Gas));
  }

  /** The worker manager over the worker data: the workers (a set of distinct units, in the
      set's iteration order) and each worker's job entry. */
  class WorkerManager {
    var workers: seq<Unit>
    var assignments: Assignments

    predicate Valid()
      reads this
    {
      DistinctIds(workers)
    }

    /** The roster kept by the worker data is maintained outside the core and given here. */
    constructor(workers: seq<Unit>)
      requires DistinctIds(workers)
      ensures Valid() && this.workers == workers && assignments == map[]
    {
      this.workers := workers;
      assignments := map[];
    }

    function GetJob(worker: Unit): Job
      reads this
    {
      JobIn(assignments, worker.id)
    }

    predicate IsFree(g: Game, worker: Unit)
      reads this
    {
      IsFreeIn(g, assignments, worker)
    }

    predicate IsWorkerScout(worker: Unit)
      reads this
    {
      GetJob(worker) == Scout
    }

    predicate IsBuilder(worker: Unit)
      reads this
    {
      GetJob(worker) == Build
    }

    /** `finishedWithWorker`: other managers hand a worker back; a scout stays a scout. */
    method FinishedWithWorker(unit: Unit)
      modifies this
      ensures workers == old(workers)
      ensures assignments == FinishedWith(old(assignments), unit.id)
      ensures GetJob(unit) == (if old(GetJob(unit)) == Scout then Scout else Idle)
      ensures forall id :: id != unit.id ==> EntryIn(assignments, id) == EntryIn(old(assignments), id)
    {
      if JobIn(assignments, unit.id) != Scout {
        assignments := assignments[unit.id := Assignment(Idle, None)];
      }
    }

    /** `stopRepairing`: the repair bookkeeping is derived from the entries, so stopping is
        handing the worker back. */
    method StopRepairing(worker: Unit)
      modifies this
      ensures workers == old(workers)
      ensures assignments == FinishedWith(old(assignments), worker.id)
    {
      FinishedWithWorker(worker);
    }

    method SetRepairWorker(worker: Unit, unitToRepair: Unit)
      modifies this
      ensures workers == old(workers)
      ensures assignments == old(assignments)[worker.id := Assignment(Repair, Some(unitToRepair.id))]
    {
      assignments := assignments[worker.id := Assignment(Repair, Some(unitToRepair.id))];
    }

    method SetScoutWorker(worker: Unit)
      modifies this
      ensures workers == old(workers)
      ensures assignments == old(assignments)[worker.id := Assignment(Scout, None)]
    {
      assignments := assignments[worker.id := Assignment(Scout, None)];
    }

    method SetCombatWorker(worker: Unit)
      modifies this
      ensures workers == old(workers)
      ensures assignments == old(assignments)[worker.id := Assignment(Combat, None)]
    {
      assignments := assignments[worker.id := Assignment(Combat, None)];
    }

    method SetBuildingWorker(worker: Unit)
      modifies this
      ensures workers == old(workers)
      ensures assignments == old(assignments)[worker.id := Assignment(Build, None)]
    {
      assignments := assignments[worker.id := Assignment(Build, None)];
    }

    /** `setBuildingWorker(worker, b)`: the job's target is the building under construction. */
    method SetBuildingWorkerFor(worker: Unit, buildingUnit: UnitId)
      modifies this
      ensures workers == old(workers)
      ensures assignments == old(assignments)[worker.id := Assignment(Build, Some(buildingUnit))]
    {
      assignments := assignments[worker.id := Assignment(Build, Some(buildingUnit))];
    }

    /** `getClosestMineralWorkerTo(pos, workerToIgnore)`. */
    method GetClosestMineralWorkerTo(g: Game, pos: Point, workerToIgnore: UnitId) returns (closest: Option<Unit>)
      ensures closest == ClosestMineralWorker(g, assignments, workers, pos, workerToIgnore)
    {
      closest := None;
      var closestDist := 0.0;
      for i := 0 to |workers|
        invariant closest == FirstMin(workers[..i], MineralWorkerFilter(g, assignments, workerToIgnore), DistSqTo(pos))
        invariant closest.Some? ==> closestDist == DistSq(closest.value.pos, pos)
      {
        assert workers[..i + 1][..i] == workers[..i];
        var worker := workers[i];
        if !worker.valid || worker.id == workerToIgnore { continue; }
        if IsFreeIn(g, assignments, worker) {
          if !g.isReturningCargo(worker) {
            var dist := DistSq(worker.pos, pos);
            if closest.None? || dist < closestDist {
              closest := Some(worker);
              closestDist := dist;
            }
          }
        }
      }
      assert workers[..|workers|] == workers;
    }

    /** `getGasWorker`: the closest free worker to the refinery, ignoring no one. */
    method GetGasWorker(g: Game, refinery: Unit) returns (worker: Option<Unit>)
      ensures worker == ClosestMineralWorker(g, assignments, workers, refinery.pos, NoUnitId)
    {
      worker := GetClosestMineralWorkerTo(g, refinery.pos, NoUnitId);
    }

    /** `getClosestDepot`. */
    method GetClosestDepot(g: Game, ownUnits: seq<Unit>, worker: Unit) returns (closestDepot: Option<Unit>)
      ensures closestDepot == ClosestDepot(g, ownUnits, worker)
    {
      closestDepot := None;
      var closestDistance := 0.0;
      for i := 0 to |ownUnits|
        invariant closestDepot == FirstMin(ownUnits[..i], DepotFilter(g), DistFrom(g, worker))
        invariant closestDepot.Some? ==> closestDistance == g.dist(closestDepot.value.pos, worker.pos)
      {
        assert ownUnits[..i + 1][..i] == ownUnits[..i];
        var unit := ownUnits[i];
        if !unit.valid { continue; }
        if g.isResourceDepot(unit.typeId) && unit.completed {
          var distance := g.dist(unit.pos, worker.pos);
          if closestDepot.None? || distance < closestDistance {
            closestDepot := Some(unit);
            closestDistance := distance;
          }
        }
      }
      assert ownUnits[..|ownUnits|] == ownUnits;
    }

    /** `setMineralWorker`: mine for the closest depot, if there is one. */
    method SetMineralWorker(g: Game, ownUnits: seq<Unit>, unit: Unit)
      modifies this
      ensures workers == old(workers)
      ensures assignments ==
        if ClosestDepot(g, ownUnits, unit).Some?
        then old(assignments)[unit.id := Assignment(Minerals, Some(ClosestDepot(g, ownUnits, unit).value.id))]
        else old(assignments)
    {
      var depot := GetClosestDepot(g, ownUnits, unit);
      if depot.Some? {
        assignments := assignments[unit.id := Assignment(Minerals, Some(depot.value.id))];
      }
    }

    /** The body of `handleIdleWorkers` for one worker; it reports whether the worker is
        ordered to stop. */
    method HandleIdleWorker(g: Game, ownUnits: seq<Unit>, worker: Unit) returns (stop: bool)
      modifies this
      ensures workers == old(workers)
      ensures EntryIn(assignments, worker.id) == IdleOutcome(g, ownUnits, EntryIn(old(assignments), worker.id), worker)
      ensures forall id :: id != worker.id ==> EntryIn(assignments, id) == EntryIn(old(assignments), id)
      ensures stop == StopsIdle(EntryIn(old(assignments), worker.id), worker)
    {
      stop := false;
      if !worker.valid {
        return;
      }
      var workerJob := JobIn(assignments, worker.id);
      if worker.idle && !KeepsJobWhenIdle(workerJob) {
        assignments := assignments[worker.id := Assignment(Idle, None)];
        workerJob := Idle;
      }
      if workerJob == Idle {
        if !worker.alive {
          stop := true;
        } else {
          SetMineralWorker(g, ownUnits, worker);
        }
      }
    }

    /** `handleIdleWorkers`: every worker's entry follows `IdleOutcome`, no other entry changes,
        and dead Idle workers are ordered to stop. */
    method HandleIdleWorkers(g: Game, ownUnits: seq<Unit>) returns (commands: seq<Command>)
      requires Valid()
      modifies this
      ensures workers == old(workers) && Valid()
      ensures forall i :: 0 <= i < |workers| ==>
        EntryIn(assignments, workers[i].id) == IdleOutcome(g, ownUnits, EntryIn(old(assignments), workers[i].id), workers[i])
      ensures forall id :: !IsWorkerId(workers, id) ==> EntryIn(assignments, id) == EntryIn(old(assignments), id)
      ensures commands == IdleStops(old(assignments), workers)
    {
      commands := [];
      for i := 0 to |workers|
        invariant workers == old(workers)
        invariant forall k :: 0 <= k < i ==>
          EntryIn(assignments, workers[k].id) == IdleOutcome(g, ownUnits, EntryIn(old(assignments), workers[k].id), workers[k])
        invariant forall id :: !IsWorkerId(workers[..i], id) ==> EntryIn(assignments, id) == EntryIn(old(assignments), id)
        invariant commands == IdleStops(old(assignments), workers[..i])
      {
        assert workers[..i + 1][..i] == workers[..i];
        var worker := workers[i];
        assert !IsWorkerId(workers[..i], worker.id);
        assert EntryIn(assignments, worker.id) == EntryIn(old(assignments), worker.id);
        var stop := HandleIdleWorker(g, ownUnits, worker);
        if stop {
          commands := commands + [SmartStop(worker)];
        }
        forall k | 0 <= k < i + 1
          ensures EntryIn(assignments, workers[k].id) == IdleOutcome(g, ownUnits, EntryIn(old(assignments), workers[k].id), workers[k])
        {
          if k < i {
            assert workers[k].id != worker.id;
          }
        }
        forall id | !IsWorkerId(workers[..i + 1], id)
          ensures EntryIn(assignments, id) == EntryIn(old(assignments), id)
        {
          NotWorkerIdOfPrefix(workers, i, id);
        }
      }
      assert workers[..|workers|] == workers;
    }

    /** `handleGasWorkers`: every completed refinery gets free workers until it has three
        harvesters or no free worker is left. Entries only change to Gas jobs on completed
        refineries, for workers that were free candidates before; no refinery loses a
        harvester, and none gains one beyond three. */
    method HandleGasWorkers(g: Game, ownUnits: seq<Unit>)
      requires DistinctIds(ownUnits)
      modifies this
      ensures workers == old(workers)
      ensures old(assignments).Keys <= assignments.Keys
      ensures GasChangedUpTo(g, old(assignments), workers, ownUnits, |ownUnits|, assignments)
      ensures forall k :: 0 <= k < |ownUnits| ==>
        GasCount(old(assignments), ownUnits[k].id) <= GasCount(assignments, ownUnits[k].id)
          <= Max(GasCount(old(assignments), ownUnits[k].id), GasWorkersPerRefinery)
      ensures forall k :: 0 <= k < |ownUnits| && !(g.isRefinery(ownUnits[k].typeId) && ownUnits[k].completed) ==>
        GasCount(assignments, ownUnits[k].id) == GasCount(old(assignments), ownUnits[k].id)
      ensures forall k :: 0 <= k < |ownUnits| && g.isRefinery(ownUnits[k].typeId) && ownUnits[k].completed ==>
        GasFilled(g, assignments, workers, ownUnits[k].id)
    {
      for j := 0 to |ownUnits|
        invariant workers == old(workers)
        invariant old(assignments).Keys <= assignments.Keys
        invariant GasChangedUpTo(g, old(assignments), workers, ownUnits, j, assignments)
        invariant forall k :: 0 <= k < j ==>
          GasCount(old(assignments), ownUnits[k].id) <= GasCount(assignments, ownUnits[k].id)
            <= Max(GasCount(old(assignments), ownUnits[k].id), GasWorkersPerRefinery)
        invariant forall k :: 0 <= k < j && !(g.isRefinery(ownUnits[k].typeId) && ownUnits[k].completed) ==>
          GasCount(assignments, ownUnits[k].id) == GasCount(old(assignments), ownUnits[k].id)
        invariant forall k :: j <= k < |ownUnits| ==>
          GasCount(assignments, ownUnits[k].id) == GasCount(old(assignments), ownUnits[k].id)
        invariant forall k :: 0 <= k < j && g.isRefinery(ownUnits[k].typeId) && ownUnits[k].completed ==>
          GasFilled(g, assignments, workers, ownUnits[k].id)
      {
        var unit := ownUnits[j];
        if g.isRefinery(unit.typeId) && unit.completed {
          ghost var before := assignments;
          FillRefinery(g, unit);
          GasRefineryStep(g, old(assignments), before, assignments, workers, ownUnits, j);
          assert forall k :: 0 <= k < |ownUnits| && k != j ==> ownUnits[k].id != unit.id;
          GasFilledKept(g, before, assignments, workers, ownUnits, j);
        } else {
          GasChangedUpToGrows(g, old(assignments), workers, ownUnits, j, assignments);
        }
      }
    }

    /** One refinery of `handleGasWorkers`: up to `3 - numAssigned` times, the closest free
        worker becomes a harvester of it. */
    method FillRefinery(g: Game, refinery: Unit)
      modifies this
      ensures workers == old(workers)
      ensures old(assignments).Keys <= assignments.Keys
      ensures FilledFrom(g, old(assignments), workers, refinery.id, assignments)
      ensures GasCount(old(assignments), refinery.id) <= GasCount(assignments, refinery.id)
        <= Max(GasCount(old(assignments), refinery.id), GasWorkersPerRefinery)
      ensures CountsKeptExcept(old(assignments), assignments, refinery.id)
      ensures GasFilled(g, assignments, workers, refinery.id)
    {
      var numAssigned := GasCount(assignments, refinery.id);
      var i := 0;
      while i < GasWorkersPerRefinery - numAssigned
        invariant 0 <= i <= Max(0, GasWorkersPerRefinery - numAssigned)
        invariant workers == old(workers)
        invariant old(assignments).Keys <= assignments.Keys
        invariant FilledFrom(g, old(assignments), workers, refinery.id, assignments)
        invariant numAssigned <= GasCount(assignments, refinery.id) <= numAssigned + i
        invariant GasCount(assignments, refinery.id) == numAssigned + i || NoFreeWorker(g, assignments, workers)
        invariant CountsKeptExcept(old(assignments), assignments, refinery.id)
        decreases GasWorkersPerRefinery - numAssigned - i
      {
        var gasWorker := GetGasWorker(g, refinery);
        FillStep(g, old(assignments), assignments, workers, refinery);
        if gasWorker.Some? {
          assignments := assignments[gasWorker.value.id := Assignment(Gas, Some(refinery.id))];
        }
        i := i + 1;
      }
    }

    /** `handleRepairWorkers`: nothing for a race other than Terran; otherwise the repair pass
        over the workers in order, with `worker.repair` orders as commands. */
    method HandleRepairWorkers(g: Game, isTerran: bool, maxRepairDistance: real) returns (commands: seq<Command>)
      modifies this
      ensures workers == old(workers)
      ensures !isTerran ==> assignments == old(assignments) && commands == []
      ensures isTerran ==>
        RepairState(assignments, commands) == RepairPass(g, maxRepairDistance, workers, RepairState(old(assignments), []), workers)
    {
      commands := [];
      if !isTerran {
        return;
      }
      for i := 0 to |workers|
        invariant workers == old(workers)
        invariant RepairState(assignments, commands) ==
          RepairPass(g, maxRepairDistance, workers, RepairState(old(assignments), []), workers[..i])
      {
        assert workers[..i + 1][..i] == workers[..i];
        var worker := workers[i];
        if !worker.valid { continue; }
        if JobIn(assignments, worker.id) == Repair {
          var repairedUnit := RepairTarget(g, assignments, worker.id);
          if !worker.alive {
            StopRepairing(worker);
          } else if RepairFinished(repairedUnit) {
            StopRepairing(worker);
          } else if worker.idle {
            commands := commands + [SmartRepair(worker, repairedUnit.value)];
          }
        }
        if worker.alive && worker.health < worker.healthMax {
          if RepairersOf(assignments, worker.id) == {} {
            var repairGuy := GetClosestMineralWorkerTo(g, worker.pos, worker.id);
            if repairGuy.Some? && g.dist(worker.pos, repairGuy.value.pos) <= maxRepairDistance {
              SetRepairWorker(repairGuy.value, worker);
            }
          }
        }
      }
      assert workers[..|workers|] == workers;
    }

    /** `getBuilder`: the closest free worker to the building's position; it becomes a builder
        only when one was found and `setJobAsBuilder` is set. */
    method GetBuilder(g: Game, finalPosition: Point, builderUnit: Option<UnitId>, setJobAsBuilder: bool)
      returns (builderWorker: Option<Unit>)
      modifies this
      ensures workers == old(workers)
      ensures builderWorker == ClosestMineralWorker(g, old(assignments), workers, finalPosition, NoUnitId)
      ensures assignments ==
        if builderWorker.Some? && setJobAsBuilder
        then old(assignments)[builderWorker.value.id := Assignment(Build, builderUnit)]
        else old(assignments)
    {
      builderWorker := GetClosestMineralWorkerTo(g, finalPosition, NoUnitId);
      if builderWorker.Some? && setJobAsBuilder {
        assignments := assignments[builderWorker.value.id := Assignment(Build, builderUnit)];
      }
    }

    /** `getNumWorkers`: the valid, alive workers. */
    method GetNumWorkers() returns (count: nat)
      ensures count == CountLive(workers)
    {
      count := 0;
      for i := 0 to |workers|
        invariant count == CountLive(workers[..i])
      {
        assert workers[..i + 1][..i] == workers[..i];
        if workers[i].valid && workers[i].alive {
          count := count + 1;
        }
      }
      assert workers[..|workers|] == workers;
    }

    function GetNumMineralWorkers(): nat
      reads this
    {
      JobCount(assignments, Minerals)
    }

    function GetNumGasWorkers(): nat
      reads this
    {
      JobCount(assignments, Gas)
    }
  }

  /** A worker handed back that was not a scout is free again, unless it is a MULE. */
  lemma FinishedWorkerIsFree(g: Game, asg: Assignments, worker: Unit)
    requires JobIn(asg, worker.id) != Scout && !g.isMule(worker.typeId)
    ensures IsFreeIn(g, FinishedWith(asg, worker.id), worker)
  {
  }

  /** A worker made a builder by `getBuilder` is no longer free, so no other manager takes it. */
  lemma BuilderIsNotFree(g: Game, asg: Assignments, worker: Unit, builderUnit: Option<UnitId>)
    ensures !IsFreeIn(g, asg[worker.id := Assignment(Build, builderUnit)], worker)
  {
  }
}
