/** RangedManager.cpp: how a squad of ranged units picks its targets each frame. The raw
    target list is filtered, and then either the alpha-beta search's move is turned into
    commands, or every ranged unit ticks a behaviour tree whose conditions come from target
    choice, the range test and the closest-mineral scan. */
module RangedManager {
  import opened Common
  import opened Micro
  import opened BehaviorTree
  import MicroManager

  /* ---------------------------------------------------------------- target filter */

  /** A raw target survives the filter when it is present and is neither an egg nor a larva. */
  predicate IsKept(t: Option<Unit>)
  {
    t.Some? && t.value.typeId != ZergEgg && t.value.typeId != ZergLarva
  }

  /** The targets that survive the filter, in their original order. */
  function Kept(raw: seq<Option<Unit>>): (r: seq<Unit>)
    ensures |r| <= |raw|
    ensures forall u :: u in r <==> Some(u) in raw && u.typeId != ZergEgg && u.typeId != ZergLarva
  {
    if raw == [] then []
    else
      var n := |raw| - 1;
      assert raw == raw[..n] + [raw[n]];
      var front := Kept(raw[..n]);
      if IsKept(raw[n]) then front + [raw[n].value] else front
  }

  /** Filtering commutes with concatenation: nothing is reordered. */
  lemma {:induction false} KeptPreservesOrder(a: seq<Option<Unit>>, b: seq<Option<Unit>>)
    ensures Kept(a + b) == Kept(a) + Kept(b)
  {
    if b == [] {
      assert a + b == a;
    } else {
      var n := |b| - 1;
      assert (a + b)[..|a + b| - 1] == a + b[..n];
      assert (a + b)[|a + b| - 1] == b[n];
      KeptPreservesOrder(a, b[..n]);
    }
  }

  /** The filter loop of `assignTargets`. */
  method FilterTargets(raw: seq<Option<Unit>>) returns (targets: seq<Unit>)
    ensures targets == Kept(raw)
  {
    targets := [];
    for i := 0 to |raw|
      invariant targets == Kept(raw[..i])
    {
      assert raw[..i + 1][..i] == raw[..i];
      var t := raw[i];
      if t.None? { continue; }
      if t.value.typeId == ZergEgg { continue; }
      if t.value.typeId == ZergLarva { continue; }
      targets := targets + [t.value];
    }
    assert raw[..|raw|] == raw;
  }

  /* ---------------------------------------------------------------- priority */

  /** A single-precision priority: `1 / 0` makes it infinite. */
  datatype Priority = Value(v: real) | Infinity

  /** The float comparison `p > q`: infinity exceeds every finite value but not itself. */
  predicate Exceeds(p: Priority, q: Priority)
  {
    match (p, q)
    case (Value(a), Value(b)) => a > b
    case (Infinity, Value(_)) => true
    case (_, Infinity) => false
  }

  lemma ExceedsTransitive(a: Priority, b: Priority, c: Priority)
    requires Exceeds(a, b) && Exceeds(b, c)
    ensures Exceeds(a, c)
  {
  }

  /** Exceeds is a strict total order: what does not exceed b is exceeded by whatever exceeds b. */
  lemma ExceedsOverNotExceeding(a: Priority, b: Priority, c: Priority)
    requires Exceeds(a, b) && !Exceeds(c, b)
    ensures Exceeds(a, c)
  {
  }

  lemma PositiveProduct3(a: real, b: real, c: real)
    requires a > 0.0 && b > 0.0 && c > 0.0
    ensures a * b * c > 0.0
  {
    assert a * b > 0.0;
  }

  /** The damage rate a combat target is ranked by: one that deals no damage to the attacker
      counts as dealing 15. */
  function RangedDps(g: Game, attacker: Unit, target: Unit): (d: real)
    ensures d > 0.0
  {
    if g.dps(target, attacker) == 0.0 then 15.0 else g.dps(target, attacker)
  }

  /** `RangedManager::getAttackPriority`: a combat unit scores 5 plus its damage rate against
      the attacker (15 when it deals none) per point of health plus shield per unit of distance;
      a worker scores 2 and anything else 1. */
  function RangedAttackPriority(g: Game, attacker: Unit, target: Unit): (p: Priority)
    ensures g.isCombatUnit(target.typeId) ==>
      (p.Infinity? <==> target.health + target.shield == 0.0 || g.dist(attacker.pos, target.pos) == 0.0)
    ensures g.isCombatUnit(target.typeId) && p.Value? ==> p.v > 5.0
    ensures !g.isCombatUnit(target.typeId) && g.isWorker(target.typeId) ==> p == Value(2.0)
    ensures !g.isCombatUnit(target.typeId) && !g.isWorker(target.typeId) ==> p == Value(1.0)
  {
    if g.isCombatUnit(target.typeId) then
      var dps := RangedDps(g, attacker, target);
      var healthAndShield := target.health + target.shield;
      var distance := g.dist(attacker.pos, target.pos);
      if healthAndShield == 0.0 || distance == 0.0 then Infinity
      else
        PositiveProduct3(dps, 1.0 / healthAndShield, 1.0 / distance);
        Value(5.0 + dps * (1.0 / healthAndShield) * (1.0 / distance))
    else if g.isWorker(target.typeId) then Value(2.0)
    else Value(1.0)
  }

  /** Combat units always outrank workers, which always outrank everything else. */
  lemma CombatOutranksWorkerOutranksOther(g: Game, attacker: Unit, combat: Unit, worker: Unit, other: Unit)
    requires g.isCombatUnit(combat.typeId)
    requires !g.isCombatUnit(worker.typeId) && g.isWorker(worker.typeId)
    requires !g.isCombatUnit(other.typeId) && !g.isWorker(other.typeId)
    ensures Exceeds(RangedAttackPriority(g, attacker, combat), RangedAttackPriority(g, attacker, worker))
    ensures Exceeds(RangedAttackPriority(g, attacker, worker), RangedAttackPriority(g, attacker, other))
  {
  }

  lemma ReciprocalDecreases(x: real, y: real)
    requires 0.0 < x < y
    ensures 1.0 / y < 1.0 / x
  {
    var rx, ry := 1.0 / x, 1.0 / y;
    assert rx * x == 1.0 && ry * y == 1.0;
    assert rx - ry == rx * ry * (y - x) by {
      assert rx * ry * y == rx && rx * ry * x == ry;
    }
    assert rx * ry > 0.0;
  }

  lemma ScaledProductIncreases(d: real, a1: real, a2: real, b: real)
    requires d > 0.0 && b > 0.0 && a1 < a2
    ensures d * a1 * b < d * a2 * b
  {
    assert d * b > 0.0;
    assert (d * b) * a1 < (d * b) * a2;
  }

  /** Of two combat units at the same distance with the same damage rate, the one with less
      health plus shield is strictly preferred. */
  lemma WeakerCombatTargetPreferred(g: Game, attacker: Unit, t1: Unit, t2: Unit)
    requires g.isCombatUnit(t1.typeId) && g.isCombatUnit(t2.typeId)
    requires g.dps(t1, attacker) == g.dps(t2, attacker)
    requires g.dist(attacker.pos, t1.pos) == g.dist(attacker.pos, t2.pos) > 0.0
    requires 0.0 < t1.health + t1.shield < t2.health + t2.shield
    ensures Exceeds(RangedAttackPriority(g, attacker, t1), RangedAttackPriority(g, attacker, t2))
  {
    var dps := RangedDps(g, attacker, t1);
    var d := g.dist(attacker.pos, t1.pos);
    var h1, h2 := t1.health + t1.shield, t2.health + t2.shield;
    assert RangedAttackPriority(g, attacker, t1) == Value(5.0 + dps * (1.0 / h1) * (1.0 / d));
    assert RangedAttackPriority(g, attacker, t2) == Value(5.0 + dps * (1.0 / h2) * (1.0 / d));
    ReciprocalDecreases(h1, h2);
    ScaledProductIncreases(dps, 1.0 / h2, 1.0 / h1, 1.0 / d);
  }

  /** Of two combat units with the same damage rate and health plus shield, the closer one is
      strictly preferred. */
  lemma CloserCombatTargetPreferred(g: Game, attacker: Unit, t1: Unit, t2: Unit)
    requires g.isCombatUnit(t1.typeId) && g.isCombatUnit(t2.typeId)
    requires g.dps(t1, attacker) == g.dps(t2, attacker)
    requires t1.health + t1.shield == t2.health + t2.shield > 0.0
    requires 0.0 < g.dist(attacker.pos, t1.pos) < g.dist(attacker.pos, t2.pos)
    ensures Exceeds(RangedAttackPriority(g, attacker, t1), RangedAttackPriority(g, attacker, t2))
  {
    var dps := RangedDps(g, attacker, t1);
    var h := t1.health + t1.shield;
    var d1, d2 := g.dist(attacker.pos, t1.pos), g.dist(attacker.pos, t2.pos);
    assert RangedAttackPriority(g, attacker, t1) == Value(5.0 + dps * (1.0 / h) * (1.0 / d1));
    assert RangedAttackPriority(g, attacker, t2) == Value(5.0 + dps * (1.0 / h) * (1.0 / d2));
    ReciprocalDecreases(d1, d2);
    assert 1.0 / h > 0.0;
    ScaledLastFactorIncreases(dps, 1.0 / h, 1.0 / d2, 1.0 / d1);
  }

  /** A combat target that deals no damage ranks exactly as one that deals 15, at equal health
      plus shield and distance. */
  lemma HarmlessCombatTargetCountsAsFifteen(g: Game, attacker: Unit, t1: Unit, t2: Unit)
    requires g.isCombatUnit(t1.typeId) && g.isCombatUnit(t2.typeId)
    requires g.dps(t1, attacker) == 0.0 && g.dps(t2, attacker) == 15.0
    requires t1.health + t1.shield == t2.health + t2.shield
    requires g.dist(attacker.pos, t1.pos) == g.dist(attacker.pos, t2.pos)
    ensures RangedAttackPriority(g, attacker, t1) == RangedAttackPriority(g, attacker, t2)
  {
    assert RangedDps(g, attacker, t1) == RangedDps(g, attacker, t2);
  }

  /** Of two combat units with the same health plus shield at the same distance, the one with
      the higher ranked damage rate is strictly preferred. */
  lemma MoreDamagingCombatTargetPreferred(g: Game, attacker: Unit, t1: Unit, t2: Unit)
    requires g.isCombatUnit(t1.typeId) && g.isCombatUnit(t2.typeId)
    requires RangedDps(g, attacker, t2) < RangedDps(g, attacker, t1)
    requires t1.health + t1.shield == t2.health + t2.shield > 0.0
    requires g.dist(attacker.pos, t1.pos) == g.dist(attacker.pos, t2.pos) > 0.0
    ensures Exceeds(RangedAttackPriority(g, attacker, t1), RangedAttackPriority(g, attacker, t2))
  {
    var h := t1.health + t1.shield;
    var d := g.dist(attacker.pos, t1.pos);
    var a1, a2 := RangedDps(g, attacker, t1), RangedDps(g, attacker, t2);
    var p1, p2 := a1 * (1.0 / h) * (1.0 / d), a2 * (1.0 / h) * (1.0 / d);
    assert RangedAttackPriority(g, attacker, t1) == Value(5.0 + p1);
    assert RangedAttackPriority(g, attacker, t2) == Value(5.0 + p2);
    assert 1.0 / h > 0.0 && 1.0 / d > 0.0;
    FirstFactorIncreases(a2, a1, 1.0 / h, 1.0 / d);
    assert 5.0 + p2 < 5.0 + p1;
  }

  lemma FirstFactorIncreases(a1: real, a2: real, b: real, c: real)
    requires a1 < a2 && b > 0.0 && c > 0.0
    ensures a1 * b * c < a2 * b * c
  {
    assert b * c > 0.0;
    assert a1 * b * c == a1 * (b * c) && a2 * b * c == a2 * (b * c);
  }

  lemma ScaledLastFactorIncreases(a: real, b: real, x1: real, x2: real)
    requires a > 0.0 && b > 0.0 && x1 < x2
    ensures a * b * x1 < a * b * x2
  {
    assert a * b > 0.0;
  }

  /* ---------------------------------------------------------------- target choice */

  /** Left-to-right scan of `getTarget`: the first target is always taken, and a later one
      replaces the best only when its priority is strictly higher. */
  function FirstMax(targets: seq<Unit>, priority: Unit -> Priority): Option<Unit>
  {
    if targets == [] then None
    else
      var best := FirstMax(targets[..|targets| - 1], priority);
      var t := targets[|targets| - 1];
      if best.None? || Exceeds(priority(t), priority(best.value)) then Some(t) else best
  }

  /** The position `FirstMax` picks, or -1 for an empty list. */
  function FirstMaxIndex(targets: seq<Unit>, priority: Unit -> Priority): (r: int)
    ensures -1 <= r < |targets|
    ensures r < 0 <==> targets == []
  {
    if targets == [] then -1
    else
      var n := |targets| - 1;
      var b := FirstMaxIndex(targets[..n], priority);
      if b < 0 || Exceeds(priority(targets[n]), priority(targets[b])) then n else b
  }

  lemma {:induction false} FirstMaxAtIndex(targets: seq<Unit>, priority: Unit -> Priority)
    ensures var r := FirstMaxIndex(targets, priority);
      FirstMax(targets, priority) == if r < 0 then None else Some(targets[r])
  {
    if targets != [] {
      var n := |targets| - 1;
      FirstMaxAtIndex(targets[..n], priority);
      var b := FirstMaxIndex(targets[..n], priority);
      if b >= 0 {
        assert targets[..n][b] == targets[b];
      }
    }
  }

  lemma {:induction false} FirstMaxIndexMaximal(targets: seq<Unit>, priority: Unit -> Priority, i: int)
    requires 0 <= i < |targets|
    ensures !Exceeds(priority(targets[i]), priority(targets[FirstMaxIndex(targets, priority)]))
    ensures i < FirstMaxIndex(targets, priority) ==>
      Exceeds(priority(targets[FirstMaxIndex(targets, priority)]), priority(targets[i]))
  {
    var n := |targets| - 1;
    var front := targets[..n];
    var b := FirstMaxIndex(front, priority);
    var r := FirstMaxIndex(targets, priority);
    var pi := priority(targets[i]);
    if i < n {
      assert front[i] == targets[i];
      FirstMaxIndexMaximal(front, priority, i);
      assert front[b] == targets[b];
      var pb, pn := priority(targets[b]), priority(targets[n]);
      if r == n {
        assert Exceeds(pn, pb);
        if Exceeds(pi, pn) {
          ExceedsTransitive(pi, pn, pb);
        }
        ExceedsOverNotExceeding(pn, pb, pi);
      }
    } else if b >= 0 {
      assert front[b] == targets[b];
    }
  }

  /** The scan returns nothing exactly for an empty list; otherwise a target that no other
      target exceeds, and that strictly exceeds every earlier one (ties go to the earliest). */
  lemma FirstMaxIsEarliestMaximum(targets: seq<Unit>, priority: Unit -> Priority)
    ensures FirstMax(targets, priority).None? <==> targets == []
    ensures FirstMax(targets, priority).Some? ==>
      exists k :: 0 <= k < |targets| && targets[k] == FirstMax(targets, priority).value &&
        (forall i :: 0 <= i < |targets| ==> !Exceeds(priority(targets[i]), priority(targets[k]))) &&
        (forall i :: 0 <= i < k ==> Exceeds(priority(targets[k]), priority(targets[i])))
  {
    FirstMaxAtIndex(targets, priority);
    var k := FirstMaxIndex(targets, priority);
    if k >= 0 {
      forall i | 0 <= i < |targets|
        ensures !Exceeds(priority(targets[i]), priority(targets[k]))
        ensures i < k ==> Exceeds(priority(targets[k]), priority(targets[i]))
      {
        FirstMaxIndexMaximal(targets, priority, i);
      }
    }
  }

  /** The priority of each target for one ranged unit. */
  function PriorityFor(g: Game, rangedUnit: Unit): Unit -> Priority
  {
    t => RangedAttackPriority(g, rangedUnit, t)
  }

  function BestTarget(g: Game, rangedUnit: Unit, targets: seq<Unit>): Option<Unit>
  {
    FirstMax(targets, PriorityFor(g, rangedUnit))
  }

  /** `RangedManager::getTarget`. */
  method GetTarget(g: Game, rangedUnit: Unit, targets: seq<Unit>) returns (bestTarget: Option<Unit>)
    ensures bestTarget == BestTarget(g, rangedUnit, targets)
  {
    var highestPriority := Value(0.0);
    bestTarget := None;
    for i := 0 to |targets|
      invariant bestTarget == FirstMax(targets[..i], PriorityFor(g, rangedUnit))
      invariant bestTarget.Some? ==> highestPriority == RangedAttackPriority(g, rangedUnit, bestTarget.value)
    {
      assert targets[..i + 1][..i] == targets[..i];
      var priority := RangedAttackPriority(g, rangedUnit, targets[i]);
      if bestTarget.None? || Exceeds(priority, highestPriority) {
        highestPriority := priority;
        bestTarget := Some(targets[i]);
      }
    }
    assert targets[..|targets|] == targets;
  }

  /* ---------------------------------------------------------------- range test */

  /** The largest weapon range, folded with `std::max` from 0. */
  function MaxRange(ranges: seq<real>): (m: real)
    ensures m >= 0.0
    ensures forall i :: 0 <= i < |ranges| ==> ranges[i] <= m
    ensures m == 0.0 || exists i :: 0 <= i < |ranges| && ranges[i] == m
  {
    if ranges == [] then 0.0
    else
      var n := |ranges| - 1;
      var m := MaxRange(ranges[..n]);
      assert forall i :: 0 <= i < n ==> ranges[..n][i] == ranges[i];
      if m < ranges[n] then ranges[n] else m
  }

  /** A weapon that reaches farther than the longest melee range (1, the ultralisk's). */
  predicate HasRangedWeapon(ranges: seq<real>)
  {
    exists i :: 0 <= i < |ranges| && ranges[i] > 1.0
  }

  /** `RangedManager::isTargetRanged`; a type without weapons is not ranged. */
  method IsTargetRanged(g: Game, target: Unit) returns (ranged: bool)
    ensures ranged == HasRangedWeapon(g.weaponRanges(target.typeId))
  {
    var weapons := g.weaponRanges(target.typeId);
    var maxRange := 0.0;
    for i := 0 to |weapons|
      invariant maxRange == MaxRange(weapons[..i])
    {
      assert weapons[..i + 1][..i] == weapons[..i];
      maxRange := if maxRange < weapons[i] then weapons[i] else maxRange;
    }
    assert weapons[..|weapons|] == weapons;
    ranged := maxRange > 1.0;
  }

  /* ---------------------------------------------------------------- closest mineral */

  /** Outcome of the closest-mineral loop as written: it dereferences a null `closestShard`
      when an off-screen shard comes before any neutral unit on screen. */
  datatype Scan = Crashed | Scanned(shard: Option<Unit>)

  /** `getClosestMineral` as written: the first neutral on screen is taken, and a later
      mineral shard replaces it when strictly closer and on screen; the distance test runs
      before the on-screen test. */
  function ClosestMineralAsWritten(g: Game, unit: Unit, neutrals: seq<Unit>): (r: Scan)
    ensures r.Scanned? && r.shard.Some? ==> r.shard.value in neutrals && r.shard.value.onScreen
  {
    if neutrals == [] then Scanned(None)
    else
      match ClosestMineralAsWritten(g, unit, neutrals[..|neutrals| - 1])
      case Crashed => Crashed
      case Scanned(closestShard) =>
        var mineral := neutrals[|neutrals| - 1];
        if closestShard.None? && mineral.onScreen then Scanned(Some(mineral))
        else if mineral.typeId != MineralShard then Scanned(closestShard)
        else if closestShard.None? then Crashed
        else if g.dist(mineral.pos, unit.pos) < g.dist(closestShard.value.pos, unit.pos) && mineral.onScreen
        then Scanned(Some(mineral))
        else Scanned(closestShard)
  }

  /** A single off-screen shard is enough to reach the null dereference. */
  lemma OffScreenShardCrashesScan(g: Game, unit: Unit, shard: Unit)
    requires shard.typeId == MineralShard && !shard.onScreen
    ensures ClosestMineralAsWritten(g, unit, [shard]) == Crashed
  {
    assert [shard][..0] == [];
  }

  /** The scan as intended: the distance to the current shard is compared only once there is
      one. */
  function ClosestMineral(g: Game, unit: Unit, neutrals: seq<Unit>): Option<Unit>
  {
    if neutrals == [] then None
    else
      var closestShard := ClosestMineral(g, unit, neutrals[..|neutrals| - 1]);
      var mineral := neutrals[|neutrals| - 1];
      if closestShard.None? && mineral.onScreen then Some(mineral)
      else if closestShard.Some? && mineral.typeId == MineralShard &&
              g.dist(mineral.pos, unit.pos) < g.dist(closestShard.value.pos, unit.pos) && mineral.onScreen
      then Some(mineral)
      else closestShard
  }

  /** The first position of an on-screen neutral unit. */
  predicate FirstOnScreen(neutrals: seq<Unit>, k: int)
  {
    0 <= k < |neutrals| && neutrals[k].onScreen && forall j :: 0 <= j < k ==> !neutrals[j].onScreen
  }

  /** The result is absent exactly when no neutral unit is on screen; when present it is an
      on-screen neutral, and either a mineral shard or the first neutral on screen. */
  lemma {:induction false} ClosestMineralIsOnScreen(g: Game, unit: Unit, neutrals: seq<Unit>)
    ensures ClosestMineral(g, unit, neutrals).None? <==> forall i :: 0 <= i < |neutrals| ==> !neutrals[i].onScreen
    ensures ClosestMineral(g, unit, neutrals).Some? ==>
      var m := ClosestMineral(g, unit, neutrals).value;
      m in neutrals && m.onScreen &&
      (m.typeId == MineralShard || exists k :: FirstOnScreen(neutrals, k) && neutrals[k] == m)
  {
    if neutrals != [] {
      var n := |neutrals| - 1;
      var front := neutrals[..n];
      ClosestMineralIsOnScreen(g, unit, front);
      assert forall i :: 0 <= i < n ==> neutrals[i] == front[i];
      var c := ClosestMineral(g, unit, front);
      if c.None? && neutrals[n].onScreen {
        assert FirstOnScreen(neutrals, n);
      } else if c.Some? && ClosestMineral(g, unit, neutrals) == c && c.value.typeId != MineralShard {
        var k :| FirstOnScreen(front, k) && front[k] == c.value;
        assert FirstOnScreen(neutrals, k);
      }
    }
  }

  /** The unit found is at least as close as every on-screen mineral shard. */
  lemma {:induction false} ClosestMineralIsClosestShard(g: Game, unit: Unit, neutrals: seq<Unit>)
    ensures ClosestMineral(g, unit, neutrals).Some? ==>
      forall i :: 0 <= i < |neutrals| && neutrals[i].onScreen && neutrals[i].typeId == MineralShard ==>
        g.dist(ClosestMineral(g, unit, neutrals).value.pos, unit.pos) <= g.dist(neutrals[i].pos, unit.pos)
  {
    if neutrals != [] {
      var n := |neutrals| - 1;
      var front := neutrals[..n];
      ClosestMineralIsClosestShard(g, unit, front);
      ClosestMineralIsOnScreen(g, unit, front);
      assert forall i :: 0 <= i < n ==> neutrals[i] == front[i];
    }
  }

  /** Once the scan has found a unit it never loses it again. */
  lemma {:induction false} ClosestMineralStaysFound(g: Game, unit: Unit, neutrals: seq<Unit>, i: nat, j: nat)
    requires i <= j <= |neutrals|
    requires ClosestMineral(g, unit, neutrals[..i]).Some?
    ensures ClosestMineral(g, unit, neutrals[..j]).Some?
    decreases j - i
  {
    if i < j {
      assert neutrals[..i + 1][..i] == neutrals[..i];
      assert ClosestMineral(g, unit, neutrals[..i + 1]).Some?;
      ClosestMineralStaysFound(g, unit, neutrals, i + 1, j);
    }
  }

  /** An off-screen shard that comes before every on-screen neutral unit. */
  predicate EarlyOffScreenShard(neutrals: seq<Unit>)
  {
    exists k :: 0 <= k < |neutrals| && neutrals[k].typeId == MineralShard && !neutrals[k].onScreen &&
      forall j :: 0 <= j < k ==> !neutrals[j].onScreen
  }

  /** The loop as written crashes exactly on an early off-screen shard, and otherwise returns
      what the intended scan returns. */
  lemma {:induction false} AsWrittenCrashesOnlyOnEarlyOffScreenShard(g: Game, unit: Unit, neutrals: seq<Unit>)
    ensures ClosestMineralAsWritten(g, unit, neutrals) ==
      if EarlyOffScreenShard(neutrals) then Crashed else Scanned(ClosestMineral(g, unit, neutrals))
  {
    if neutrals != [] {
      var n := |neutrals| - 1;
      var front := neutrals[..n];
      AsWrittenCrashesOnlyOnEarlyOffScreenShard(g, unit, front);
      ClosestMineralIsOnScreen(g, unit, front);
      assert forall i :: 0 <= i < n ==> neutrals[i] == front[i];
      if EarlyOffScreenShard(front) {
        var k :| 0 <= k < n && front[k].typeId == MineralShard && !front[k].onScreen &&
          forall j :: 0 <= j < k ==> !front[j].onScreen;
        assert neutrals[k] == front[k];
        assert EarlyOffScreenShard(neutrals);
      } else {
        var c := ClosestMineral(g, unit, front);
        var m := neutrals[n];
        if c.None? && !m.onScreen && m.typeId == MineralShard {
          assert EarlyOffScreenShard(neutrals) by {
            assert forall j :: 0 <= j < n ==> !neutrals[j].onScreen;
          }
        }
      }
    }
  }

  /** `getClosestMineral`, with the distance comparison guarded by a found shard. */
  method GetClosestMineral(g: Game, unit: Unit, neutrals: seq<Unit>) returns (closestShard: Option<Unit>)
    ensures closestShard == ClosestMineral(g, unit, neutrals)
  {
    closestShard := None;
    for i := 0 to |neutrals|
      invariant closestShard == ClosestMineral(g, unit, neutrals[..i])
    {
      assert neutrals[..i + 1][..i] == neutrals[..i];
      var mineral := neutrals[i];
      if closestShard.None? && mineral.onScreen {
        closestShard := Some(mineral);
      } else if closestShard.Some? && mineral.typeId == MineralShard &&
                g.dist(mineral.pos, unit.pos) < g.dist(closestShard.value.pos, unit.pos) && mineral.onScreen {
        closestShard := Some(mineral);
      }
    }
    assert neutrals[..|neutrals|] == neutrals;
  }

  /* ---------------------------------------------------------------- alpha-beta dispatch */

  /** The three kinds of action the alpha-beta search returns. */
  datatype AlphaBetaAction =
    | AttackAction(unit: Unit, target: Unit)
    | MoveBack(unit: Unit, position: Point)
    | MoveForward(unit: Unit, position: Point)

  datatype AlphaBetaMove = AlphaBetaMove(actions: seq<AlphaBetaAction>)

  function ActionCommand(a: AlphaBetaAction): Command
  {
    match a
    case AttackAction(u, t) => SmartAttackUnit(u, t)
    case MoveBack(u, p) => SmartMove(u, p)
    case MoveForward(u, p) => SmartMove(u, p)
  }

  /** The commands a search result turns into, one per action in order; none for no move. */
  function MoveCommands(move: Option<AlphaBetaMove>): (cs: seq<Command>)
    ensures move.None? ==> cs == []
    ensures move.Some? ==> |cs| == |move.value.actions|
    ensures move.Some? ==> forall i :: 0 <= i < |cs| && move.value.actions[i].AttackAction? ==>
      cs[i] == SmartAttackUnit(move.value.actions[i].unit, move.value.actions[i].target)
    ensures move.Some? ==> forall i :: 0 <= i < |cs| && !move.value.actions[i].AttackAction? ==>
      cs[i] == SmartMove(move.value.actions[i].unit, move.value.actions[i].position)
  {
    if move.None? then []
    else
      var acts := move.value.actions;
      seq(|acts|, i requires 0 <= i < |acts| => ActionCommand(acts[i]))
  }

  /** Every command of a dispatched move is addressed to the unit of its action, and only
      attack actions produce attack commands. */
  lemma DispatchedCommandsFollowActions(move: AlphaBetaMove)
    ensures forall i :: 0 <= i < |move.actions| ==>
      MoveCommands(Some(move))[i].unit == move.actions[i].unit.id &&
      (MoveCommands(Some(move))[i].ability == AttackAttack <==> move.actions[i].AttackAction?)
  {
    forall i | 0 <= i < |move.actions|
      ensures MoveCommands(Some(move))[i].unit == move.actions[i].unit.id
      ensures MoveCommands(Some(move))[i].ability == AttackAttack <==> move.actions[i].AttackAction?
    {
      HelpersAddressTheirUnit(move.actions[i].unit,
        if move.actions[i].AttackAction? then move.actions[i].target else move.actions[i].unit,
        if move.actions[i].AttackAction? then move.actions[i].unit.pos else move.actions[i].position);
    }
  }

  /** The dispatch loop over the actions of the search's move. */
  method DispatchMove(move: Option<AlphaBetaMove>) returns (commands: seq<Command>)
    ensures commands == MoveCommands(move)
  {
    commands := [];
    if move.Some? {
      var actions := move.value.actions;
      for i := 0 to |actions|
        invariant commands == MoveCommands(move)[..i]
      {
        var action := actions[i];
        if action.AttackAction? {
          commands := commands + [SmartAttackUnit(action.unit, action.target)];
        } else if action.MoveBack? {
          commands := commands + [SmartMove(action.unit, action.position)];
        } else if action.MoveForward? {
          commands := commands + [SmartMove(action.unit, action.position)];
        }
      }
    }
  }

  /* ---------------------------------------------------------------- one micro pass */

  /** What one ranged unit decided in the behaviour-tree pass. */
  datatype UnitDecision = UnitDecision(
    unit: Unit,
    target: Option<Unit>,
    mineral: Option<Unit>,
    mineralPos: Point,
    outcome: Outcome)

  /** Either the commands of the search's move, or one tree decision per unit. */
  datatype MicroPass = SearchCommands(commands: seq<Command>) | TreeDecisions(decisions: seq<UnitDecision>)

  /** The conditions of the tree for one unit; the actions' own results come from outside. */
  function TreeEnv(g: Game, rangedUnit: Unit, target: Option<Unit>, mineral: Option<Unit>,
                   actionSucceeds: (UnitId, Action) -> bool): Env
  {
    Env(
      target.Some?,
      target.Some? && HasRangedWeapon(g.weaponRanges(target.value.typeId)),
      mineral.Some?,
      actionSucceeds(rangedUnit.id, FocusFire),
      actionSucceeds(rangedUnit.id, Kite),
      actionSucceeds(rangedUnit.id, GoToMineralShard),
      actionSucceeds(rangedUnit.id, GoToObjective))
  }

  /** The decision of one ranged unit: its target, the mineral in sight, the point the shard
      action is given ((0, 0) when there is no mineral), and the tick of the tree. */
  function Decide(g: Game, rangedUnit: Unit, targets: seq<Unit>, neutrals: seq<Unit>,
                  actionSucceeds: (UnitId, Action) -> bool): (d: UnitDecision)
    ensures d.unit == rangedUnit
    ensures d.target.Some? <==> targets != []
    ensures d.target.Some? ==> d.target.value in targets
    ensures d.mineral.Some? <==> exists i :: 0 <= i < |neutrals| && neutrals[i].onScreen
    ensures d.mineral.Some? ==> d.mineral.value in neutrals && d.mineral.value.onScreen && d.mineralPos == d.mineral.value.pos
  {
    FirstMaxIsEarliestMaximum(targets, PriorityFor(g, rangedUnit));
    ClosestMineralIsOnScreen(g, rangedUnit, neutrals);
    var target := if |targets| > 0 then BestTarget(g, rangedUnit, targets) else None;
    var mineral := ClosestMineral(g, rangedUnit, neutrals);
    var mineralPos := if mineral.None? then Point(0.0, 0.0) else mineral.value.pos;
    UnitDecision(rangedUnit, target, mineral, mineralPos,
                 Tick(TreeEnv(g, rangedUnit, target, mineral, actionSucceeds), RangedTree()))
  }

  /** The shard action only runs towards a real on-screen neutral unit, never the (0, 0)
      placeholder. */
  lemma ShardMoveHasRealMineral(g: Game, rangedUnit: Unit, targets: seq<Unit>, neutrals: seq<Unit>,
                                actionSucceeds: (UnitId, Action) -> bool)
    ensures var d := Decide(g, rangedUnit, targets, neutrals, actionSucceeds);
      GoToMineralShard in d.outcome.ran ==>
        d.mineral.Some? && d.mineral.value in neutrals && d.mineral.value.onScreen && d.mineralPos == d.mineral.value.pos
  {
    var d := Decide(g, rangedUnit, targets, neutrals, actionSucceeds);
    ShardOnlyWhenInSight(TreeEnv(g, rangedUnit, d.target, d.mineral, actionSucceeds));
    ClosestMineralIsOnScreen(g, rangedUnit, neutrals);
  }

  /** Focus fire and kiting only run with a chosen target, and focus fire only against one
      with a ranged weapon. */
  lemma EngagementNeedsTarget(g: Game, rangedUnit: Unit, targets: seq<Unit>, neutrals: seq<Unit>,
                              actionSucceeds: (UnitId, Action) -> bool)
    ensures var d := Decide(g, rangedUnit, targets, neutrals, actionSucceeds);
      (FocusFire in d.outcome.ran || Kite in d.outcome.ran) ==> d.target.Some? && d.target.value in targets
    ensures var d := Decide(g, rangedUnit, targets, neutrals, actionSucceeds);
      FocusFire in d.outcome.ran ==> HasRangedWeapon(g.weaponRanges(d.target.value.typeId))
  {
    var d := Decide(g, rangedUnit, targets, neutrals, actionSucceeds);
    var env := TreeEnv(g, rangedUnit, d.target, d.mineral, actionSucceeds);
    RangedTreeIsFallback(env);
    if d.target.Some? {
      FirstMaxIsEarliestMaximum(targets, PriorityFor(g, rangedUnit));
    }
  }

  /** With targets left after filtering, every unit has a target and the enemy branch is
      entered. */
  lemma TargetsMeanEnemyInSight(g: Game, rangedUnit: Unit, targets: seq<Unit>, neutrals: seq<Unit>,
                                actionSucceeds: (UnitId, Action) -> bool)
    requires targets != []
    ensures Decide(g, rangedUnit, targets, neutrals, actionSucceeds).target.Some?
  {
    FirstMaxIsEarliestMaximum(targets, PriorityFor(g, rangedUnit));
  }

  /** One decision per ranged unit, in the order of the squad's units. */
  function DecideAll(g: Game, rangedUnits: seq<Unit>, targets: seq<Unit>, neutrals: seq<Unit>,
                     actionSucceeds: (UnitId, Action) -> bool): (ds: seq<UnitDecision>)
    ensures |ds| == |rangedUnits|
    ensures forall i :: 0 <= i < |rangedUnits| ==> ds[i] == Decide(g, rangedUnits[i], targets, neutrals, actionSucceeds)
  {
    if rangedUnits == [] then []
    else
      var n := |rangedUnits| - 1;
      var front := DecideAll(g, rangedUnits[..n], targets, neutrals, actionSucceeds);
      var ds := front + [Decide(g, rangedUnits[n], targets, neutrals, actionSucceeds)];
      assert forall i :: 0 <= i < n ==> rangedUnits[..n][i] == rangedUnits[i] && ds[i] == front[i];
      ds
  }

  /** The body of the behaviour-tree loop of `assignTargets` for one ranged unit. */
  method DecideUnit(g: Game, rangedUnit: Unit, rangedUnitTargets: seq<Unit>, neutrals: seq<Unit>,
                    actionSucceeds: (UnitId, Action) -> bool) returns (decision: UnitDecision)
    ensures decision == Decide(g, rangedUnit, rangedUnitTargets, neutrals, actionSucceeds)
  {
    var target: Option<Unit> := None;
    if |rangedUnitTargets| > 0 {
      target := GetTarget(g, rangedUnit, rangedUnitTargets);
    }
    var mineral := GetClosestMineral(g, rangedUnit, neutrals);
    var enemyRanged := false;
    if target.Some? {
      enemyRanged := IsTargetRanged(g, target.value);
    }
    var mineralPos := if mineral.None? then Point(0.0, 0.0) else mineral.value.pos;
    var env := Env(target.Some?, enemyRanged, mineral.Some?,
                   actionSucceeds(rangedUnit.id, FocusFire), actionSucceeds(rangedUnit.id, Kite),
                   actionSucceeds(rangedUnit.id, GoToMineralShard), actionSucceeds(rangedUnit.id, GoToObjective));
    assert env == TreeEnv(g, rangedUnit, target, mineral, actionSucceeds);
    decision := UnitDecision(rangedUnit, target, mineral, mineralPos, Tick(env, RangedTree()));
  }

  /** The behaviour-tree loop of `assignTargets`: one decision per ranged unit, in order. */
  method DecideUnits(g: Game, rangedUnits: seq<Unit>, rangedUnitTargets: seq<Unit>, neutrals: seq<Unit>,
                     actionSucceeds: (UnitId, Action) -> bool) returns (decisions: seq<UnitDecision>)
    ensures decisions == DecideAll(g, rangedUnits, rangedUnitTargets, neutrals, actionSucceeds)
  {
    decisions := [];
    for i := 0 to |rangedUnits|
      invariant decisions == DecideAll(g, rangedUnits[..i], rangedUnitTargets, neutrals, actionSucceeds)
    {
      assert rangedUnits[..i + 1][..i] == rangedUnits[..i];
      var decision := DecideUnit(g, rangedUnits[i], rangedUnitTargets, neutrals, actionSucceeds);
      decisions := decisions + [decision];
    }
    assert rangedUnits[..|rangedUnits|] == rangedUnits;
  }

  /** `RangedManager::assignTargets` for one frame. The alpha-beta search itself is not part of
      the model: its result is an input. */
  method AssignTargets(manager: MicroManager.MicroManager, g: Game, rawTargets: seq<Option<Unit>>,
                       alphaBetaPruning: bool, searchResult: Option<AlphaBetaMove>, neutrals: seq<Unit>,
                       actionSucceeds: (UnitId, Action) -> bool) returns (pass: MicroPass)
    ensures alphaBetaPruning ==> pass == SearchCommands(MoveCommands(searchResult))
    ensures !alphaBetaPruning ==>
      pass == TreeDecisions(DecideAll(g, manager.units, Kept(rawTargets), neutrals, actionSucceeds))
  {
    var rangedUnits := manager.GetUnits();
    var rangedUnitTargets := FilterTargets(rawTargets);
    if alphaBetaPruning {
      var commands := DispatchMove(searchResult);
      pass := SearchCommands(commands);
    } else {
      var decisions := DecideUnits(g, rangedUnits, rangedUnitTargets, neutrals, actionSucceeds);
      pass := TreeDecisions(decisions);
    }
  }
}
