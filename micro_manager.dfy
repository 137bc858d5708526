/** MicroManager.cpp: the squad roster shared by the per-role managers, regrouping, and the
    general combat priority of a target for an attacker. */
module MicroManager {
  import opened Common
  import opened Micro

  /** Squad order types; of them the priority function only distinguishes Defend. */
  datatype OrderType = Attack | Defend | Harass

  datatype SquadOrder = SquadOrder(kind: OrderType, position: Point, radius: real)

  /** A target whose counter-range comes within this many units of the attacker's range is
      skipped when high-range units are filtered out. */
  const MinRangeDifferenceForTarget: real := 2.0

  const LoopModulus: int := 0x1_0000_0000

  class MicroManager {
    var units: seq<Unit>
    var order: SquadOrder

    constructor(order: SquadOrder)
      ensures units == [] && this.order == order
    {
      units := [];
      this.order := order;
    }

    function GetUnits(): seq<Unit>
      reads this
    {
      units
    }

    method SetUnits(u: seq<Unit>)
      modifies this
      ensures GetUnits() == u && order == old(order)
    {
      units := u;
    }

    /** Sends every unit of the squad, in roster order, either towards the regroup position
        (when farther than 4) or on an attack-move to it (when within 4, to defend itself). */
    method Regroup(regroupPosition: Point) returns (commands: seq<Command>)
      requires forall i :: 0 <= i < |units| ==> units[i].valid
      ensures |commands| == |units|
      ensures forall i :: 0 <= i < |units| ==> commands[i].unit == units[i].id
      ensures forall i :: 0 <= i < |units| && DistSq(units[i].pos, regroupPosition) > 16.0 ==>
        commands[i] == SmartMove(units[i], regroupPosition)
      ensures forall i :: 0 <= i < |units| && DistSq(units[i].pos, regroupPosition) <= 16.0 ==>
        commands[i] == SmartAttackMove(units[i], regroupPosition)
    {
      commands := [];
      for i := 0 to |units|
        invariant |commands| == i
        invariant forall k :: 0 <= k < i && DistSq(units[k].pos, regroupPosition) > 16.0 ==>
          commands[k] == SmartMove(units[k], regroupPosition)
        invariant forall k :: 0 <= k < i && DistSq(units[k].pos, regroupPosition) <= 16.0 ==>
          commands[k] == SmartAttackMove(units[k], regroupPosition)
      {
        var unit := units[i];
        if DistSq(unit.pos, regroupPosition) > 4.0 * 4.0 {
          commands := commands + [SmartMove(unit, regroupPosition)];
        } else {
          commands := commands + [SmartAttackMove(unit, regroupPosition)];
        }
      }
    }
  }

  /** `GetGameLoop() - 1` stored in a uint32: at loop 0 it wraps to 2^32 - 1. */
  function LastGameLoop(loop: Uint32): (r: Uint32)
    ensures loop > 0 ==> r == loop - 1
    ensures loop == 0 ==> r == LoopModulus - 1
  {
    (loop - 1) % LoopModulus
  }

  predicate IsCreepTumor(t: TypeId)
  {
    t == ZergCreepTumor || t == ZergCreepTumorBurrowed || t == ZergCreepTumorQueen
  }

  /** 1 inside the attacker's range; beyond it 0.001 for an attacker that cannot move, and
      otherwise a geometric decay of 0.9 per unit of excess distance. */
  function ProximityValue(g: Game, attacker: Unit, distance: real, attackerRange: real): (r: real)
    ensures distance <= attackerRange ==> r == 1.0
    ensures distance > attackerRange && 0.0 < g.pow(0.9, distance - attackerRange) <= 1.0 ==> 0.0 < r <= 1.0
    ensures distance > attackerRange && g.speed(attacker) == 0.0 ==> r == 0.001
  {
    if distance <= attackerRange then 1.0
    else if g.speed(attacker) == 0.0 then 0.001
    else g.pow(0.9, distance - attackerRange)
  }

  /** Detected cloaked units and burrowed units other than burrowed zerglings count double. */
  predicate Invisible(target: Unit)
  {
    target.cloakDetected || (target.burrowed && target.typeId != ZergZerglingBurrowed)
  }

  function InvisModifier(target: Unit): (m: real)
    ensures m == 1.0 || m == 2.0
    ensures m == 2.0 <==> target.cloakDetected || (target.burrowed && target.typeId != ZergZerglingBurrowed)
  {
    if Invisible(target) then 2.0 else 1.0
  }

  /** Economic disruption bonus: halved for workers heading into a refinery (unless the
      squad defends), doubled for a building or repairing SCV when the attacker is no SCV. */
  function WorkerBonus(g: Game, intel: Intel, orderType: OrderType, attacker: Unit, target: Unit): (b: real)
    ensures b == 0.5 || b == 1.0 || b == 2.0
  {
    var b := if g.isWorker(target.typeId) && orderType != Defend && target.id in intel.enemyWorkersGoingInRefinery
             then 0.5 else 1.0;
    if target.typeId == TerranScv && attacker.typeId != TerranScv &&
       (target.id in intel.enemyScvBuilders || target.id in intel.enemyRepairingScvs)
    then b * 2.0 else b
  }

  /** The non-threatening modifier: targets that cannot hit the attacker count half, except
      that attacking buildings are preferred when they cannot hit back and halved otherwise. */
  function NonThreateningModifier(g: Game, target: Unit, targetDps: real): (r: real)
    ensures r == 0.5 || r == 1.0
    ensures r == 0.5 <==> (g.isAttackingBuilding(target.typeId) <==> targetDps != 0.0)
  {
    if g.isAttackingBuilding(target.typeId) then (if targetDps == 0.0 then 1.0 else 0.5)
    else (if targetDps == 0.0 then 0.5 else 1.0)
  }

  /** Index of the invisibility modifier in `ModifierFactors`. */
  const InvisIndex := 3

  /** Index of the Yamato-target modifier in `ModifierFactors`. */
  const YamatoIndex := 5

  /** The eight modifiers of a combat unit or worker target, in the order the source multiplies
      them: worker bonus, non-threatening, minion (respawnable interceptors), invisibility,
      flying detector, Yamato target, shield unit (bunker) and the constant nydus modifier. */
  function ModifierFactors(g: Game, intel: Intel, orderType: OrderType, attacker: Unit, target: Unit,
                           targetDps: real): (fs: seq<real>)
    ensures |fs| == 8 && YamatoIndex < |fs|
    ensures forall i :: 0 <= i < |fs| ==> fs[i] > 0.0
  {
    [ WorkerBonus(g, intel, orderType, attacker, target),
      NonThreateningModifier(g, target, targetDps),
      if target.typeId == ProtossInterceptor then 0.1 else 1.0,
      InvisModifier(target),
      if target.flying && g.isDetector(target.typeId) then 2.0 else 1.0,
      if target.id in intel.yamatoTargets then 0.1 else 1.0,
      if target.typeId == TerranBunker then 0.1 else 1.0,
      1.0 ]
  }

  /** The product of a sequence of modifiers, multiplied left to right. */
  function Product(xs: seq<real>): real
  {
    if xs == [] then 1.0 else Product(xs[..|xs| - 1]) * xs[|xs| - 1]
  }

  /** Scaling one modifier by f (replacing it by v = f * xs[i]) scales the whole product by f. */
  lemma {:induction false} ProductScalesWithFactor(xs: seq<real>, i: nat, f: real, v: real)
    requires i < |xs| && v == f * xs[i]
    ensures Product(xs[i := v]) == f * Product(xs)
  {
    var n := |xs| - 1;
    var ys := xs[i := v];
    var front := Product(xs[..n]);
    assert Product(xs) == front * xs[n];
    assert Product(ys) == Product(ys[..n]) * ys[n];
    if i == n {
      assert ys[..n] == xs[..n];
      MulAssoc(front, f, xs[n]);
    } else {
      assert ys[..n] == xs[..n][i := v];
      ProductScalesWithFactor(xs[..n], i, f, v);
      MulAssoc(front, f, xs[n]);
    }
  }

  /** A product of positive modifiers is positive. */
  lemma {:induction false} ProductPositive(xs: seq<real>)
    requires forall i :: 0 <= i < |xs| ==> xs[i] > 0.0
    ensures Product(xs) > 0.0
  {
    if xs != [] {
      var n := |xs| - 1;
      ProductPositive(xs[..n]);
      PositiveMul(Product(xs[..n]), xs[n]);
    }
  }

  lemma PositiveMul(a: real, b: real)
    requires a > 0.0 && b > 0.0
    ensures a * b > 0.0
  {
  }

  lemma MulAssoc(a: real, f: real, b: real)
    ensures a * (f * b) == f * (a * b)
    ensures (f * a) * b == f * (a * b)
  {
  }

  /** The product of all modifiers applied to a combat unit or worker target. */
  function CombatModifiers(g: Game, intel: Intel, orderType: OrderType, attacker: Unit, target: Unit, targetDps: real): (m: real)
    ensures m > 0.0
  {
    var fs := ModifierFactors(g, intel, orderType, attacker, target, targetDps);
    ProductPositive(fs);
    Product(fs)
  }

  /** The guards that make `getAttackPriority` return 0 before any formula is evaluated, in the
      order the source tests them. */
  predicate Rejected(g: Game, attacker: Unit, target: Unit, filterHighRangeUnits: bool, considerOnlyUnitsInRange: bool)
  {
    || !g.isTargetable(target.typeId)
    || g.isParasited(target)
    || target.hidden
    || (IsCreepTumor(target.typeId) && target.lastSeenLoop < LastGameLoop(g.gameLoop))
    || (filterHighRangeUnits &&
        g.attackRange(target, attacker, false) + MinRangeDifferenceForTarget > g.attackRange(attacker, target, considerOnlyUnitsInRange))
    || g.dps(attacker, target) == 0.0
    || (considerOnlyUnitsInRange && g.dist(attacker.pos, target.pos) > g.attackRange(attacker, target, considerOnlyUnitsInRange))
  }

  function HealthValue(g: Game, target: Unit): real
  {
    g.pow(target.health + target.shield, 0.5)
  }

  function Proximity(g: Game, attacker: Unit, target: Unit, considerOnlyUnitsInRange: bool): real
  {
    ProximityValue(g, attacker, g.dist(attacker.pos, target.pos), g.attackRange(attacker, target, considerOnlyUnitsInRange))
  }

  /** The score of a combat unit or worker that passed the guards. */
  function CombatScore(targetDps: real, unitDps: real, healthValue: real, proximity: real, modifiers: real): real
  {
    (targetDps + unitDps - healthValue + proximity * 50.0) * modifiers
  }

  /** The compressed score of any other target that passed the guards. */
  function NonCombatScore(proximity: real, healthValue: real, invis: real): real
  {
    (proximity * 50.0 - healthValue) * invis / 100.0
  }

  /** The score `getAttackPriority` gives once the product `m` of the modifiers of a combat
      unit or worker is known. */
  function ScoreWith(g: Game, attacker: Unit, target: Unit, filterHighRangeUnits: bool, considerOnlyUnitsInRange: bool,
                     m: real): real
  {
    if Rejected(g, attacker, target, filterHighRangeUnits, considerOnlyUnitsInRange) then 0.0
    else
      var unitDps := g.dps(attacker, target);
      var proximity := Proximity(g, attacker, target, considerOnlyUnitsInRange);
      if g.isCombatUnit(target.typeId) || g.isWorker(target.typeId) then
        CombatScore(g.dps(target, attacker), unitDps, HealthValue(g, target), proximity, m)
      else
        NonCombatScore(proximity, HealthValue(g, target), InvisModifier(target))
  }

  /** `MicroManager::getAttackPriority`: a chain of guards that reject the target with a score
      of exactly 0, then a blend of damage exchange, health and proximity. */
  function AttackPriority(g: Game, intel: Intel, orderType: OrderType, attacker: Unit, target: Unit,
                          filterHighRangeUnits: bool, considerOnlyUnitsInRange: bool): (r: real)
    ensures !g.isTargetable(target.typeId) ==> r == 0.0
    ensures g.isParasited(target) ==> r == 0.0
    ensures target.hidden ==> r == 0.0
    ensures IsCreepTumor(target.typeId) && target.lastSeenLoop < LastGameLoop(g.gameLoop) ==> r == 0.0
    ensures (filterHighRangeUnits &&
             g.attackRange(target, attacker, false) + MinRangeDifferenceForTarget >
             g.attackRange(attacker, target, considerOnlyUnitsInRange)) ==> r == 0.0
    ensures g.dps(attacker, target) == 0.0 ==> r == 0.0
    ensures (considerOnlyUnitsInRange &&
             g.dist(attacker.pos, target.pos) > g.attackRange(attacker, target, true)) ==> r == 0.0
  {
    ScoreWith(g, attacker, target, filterHighRangeUnits, considerOnlyUnitsInRange,
              CombatModifiers(g, intel, orderType, attacker, target, g.dps(target, attacker)))
  }

  /** The queries that feed the score give the same answers for two targets. */
  predicate SameQueries(g: Game, attacker: Unit, t1: Unit, t2: Unit, considerOnlyUnitsInRange: bool)
  {
    && g.dps(attacker, t1) == g.dps(attacker, t2)
    && g.dps(t1, attacker) == g.dps(t2, attacker)
    && g.attackRange(attacker, t1, considerOnlyUnitsInRange) == g.attackRange(attacker, t2, considerOnlyUnitsInRange)
    && g.attackRange(t1, attacker, false) == g.attackRange(t2, attacker, false)
    && g.isParasited(t1) == g.isParasited(t2)
  }

  /** More health (through a health value that grows with health + shield) strictly lowers
      the score of a target that is not rejected. */
  lemma MoreHealthLowersPriority(g: Game, intel: Intel, orderType: OrderType, attacker: Unit, t1: Unit, t2: Unit,
                                 filterHighRangeUnits: bool, considerOnlyUnitsInRange: bool)
    requires t2 == t1.(health := t2.health, shield := t2.shield)
    requires SameQueries(g, attacker, t1, t2, considerOnlyUnitsInRange)
    requires !Rejected(g, attacker, t1, filterHighRangeUnits, considerOnlyUnitsInRange)
    requires HealthValue(g, t1) < HealthValue(g, t2)
    ensures AttackPriority(g, intel, orderType, attacker, t2, filterHighRangeUnits, considerOnlyUnitsInRange)
          < AttackPriority(g, intel, orderType, attacker, t1, filterHighRangeUnits, considerOnlyUnitsInRange)
  {
    assert !Rejected(g, attacker, t2, filterHighRangeUnits, considerOnlyUnitsInRange);
    var hv1, hv2 := HealthValue(g, t1), HealthValue(g, t2);
    var p := Proximity(g, attacker, t1, considerOnlyUnitsInRange);
    assert Proximity(g, attacker, t2, considerOnlyUnitsInRange) == p;
    var unitDps := g.dps(attacker, t1);
    if g.isCombatUnit(t1.typeId) || g.isWorker(t1.typeId) {
      var targetDps := g.dps(t1, attacker);
      var m := CombatModifiers(g, intel, orderType, attacker, t1, targetDps);
      SameModifiers(g, intel, orderType, attacker, t1, t2, targetDps);
      CombatScoreFallsWithHealth(targetDps, unitDps, hv1, hv2, p, m);
    } else {
      var inv := InvisModifier(t1);
      assert InvisModifier(t2) == inv;
      NonCombatScoreFallsWithHealth(p, hv1, hv2, inv);
    }
  }

  /** The modifiers look only at a target's tag, type, cloak, burrow and flight. */
  lemma SameModifiers(g: Game, intel: Intel, orderType: OrderType, attacker: Unit, t1: Unit, t2: Unit, targetDps: real)
    requires t2.id == t1.id && t2.typeId == t1.typeId && t2.flying == t1.flying
    requires t2.cloakDetected == t1.cloakDetected && t2.burrowed == t1.burrowed
    ensures CombatModifiers(g, intel, orderType, attacker, t2, targetDps) == CombatModifiers(g, intel, orderType, attacker, t1, targetDps)
  {
    assert ModifierFactors(g, intel, orderType, attacker, t2, targetDps) == ModifierFactors(g, intel, orderType, attacker, t1, targetDps);
  }

  lemma CombatScoreFallsWithHealth(targetDps: real, unitDps: real, hv1: real, hv2: real, p: real, m: real)
    requires hv1 < hv2 && m > 0.0
    ensures CombatScore(targetDps, unitDps, hv2, p, m) < CombatScore(targetDps, unitDps, hv1, p, m)
  {
    var base := targetDps + unitDps + p * 50.0;
    assert (base - hv1) * m - (base - hv2) * m == (hv2 - hv1) * m;
  }

  lemma NonCombatScoreFallsWithHealth(p: real, hv1: real, hv2: real, inv: real)
    requires hv1 < hv2 && inv > 0.0
    ensures NonCombatScore(p, hv2, inv) < NonCombatScore(p, hv1, inv)
  {
    assert (p * 50.0 - hv1) * inv - (p * 50.0 - hv2) * inv == (hv2 - hv1) * inv;
  }

  /** Of two placements of the same target beyond the attacker's range, the farther one never
      scores higher, given that the 0.9 decay does not increase with distance. */
  lemma FartherBeyondRangeNeverHigher(g: Game, intel: Intel, orderType: OrderType, attacker: Unit, t1: Unit, t2: Unit,
                                      filterHighRangeUnits: bool)
    requires t2 == t1.(pos := t2.pos)
    requires SameQueries(g, attacker, t1, t2, false)
    requires !Rejected(g, attacker, t1, filterHighRangeUnits, false)
    requires g.attackRange(attacker, t1, false) < g.dist(attacker.pos, t1.pos) <= g.dist(attacker.pos, t2.pos)
    requires g.pow(0.9, g.dist(attacker.pos, t2.pos) - g.attackRange(attacker, t1, false))
          <= g.pow(0.9, g.dist(attacker.pos, t1.pos) - g.attackRange(attacker, t1, false))
    ensures AttackPriority(g, intel, orderType, attacker, t2, filterHighRangeUnits, false)
         <= AttackPriority(g, intel, orderType, attacker, t1, filterHighRangeUnits, false)
  {
    assert !Rejected(g, attacker, t2, filterHighRangeUnits, false);
    var p1 := Proximity(g, attacker, t1, false);
    var p2 := Proximity(g, attacker, t2, false);
    assert p2 <= p1;
    var hv := HealthValue(g, t1);
    assert HealthValue(g, t2) == hv;
    var unitDps := g.dps(attacker, t1);
    if g.isCombatUnit(t1.typeId) || g.isWorker(t1.typeId) {
      var targetDps := g.dps(t1, attacker);
      var m := CombatModifiers(g, intel, orderType, attacker, t1, targetDps);
      SameModifiers(g, intel, orderType, attacker, t1, t2, targetDps);
      CombatScoreGrowsWithProximity(targetDps, unitDps, hv, p2, p1, m);
    } else {
      var inv := InvisModifier(t1);
      assert InvisModifier(t2) == inv;
      NonCombatScoreGrowsWithProximity(p2, p1, hv, inv);
    }
  }

  lemma CombatScoreGrowsWithProximity(targetDps: real, unitDps: real, hv: real, p1: real, p2: real, m: real)
    requires p1 <= p2 && m > 0.0
    ensures CombatScore(targetDps, unitDps, hv, p1, m) <= CombatScore(targetDps, unitDps, hv, p2, m)
  {
    var base := targetDps + unitDps - hv;
    assert (base + p2 * 50.0) * m - (base + p1 * 50.0) * m == (p2 - p1) * 50.0 * m;
  }

  lemma NonCombatScoreGrowsWithProximity(p1: real, p2: real, hv: real, inv: real)
    requires p1 <= p2 && inv > 0.0
    ensures NonCombatScore(p1, hv, inv) <= NonCombatScore(p2, hv, inv)
  {
    assert (p2 * 50.0 - hv) * inv - (p1 * 50.0 - hv) * inv == (p2 - p1) * 50.0 * inv;
  }

  /** A worker heading into a refinery scores exactly half of what it would otherwise, unless
      the squad is defending. */
  lemma RefineryWorkerScoresHalf(g: Game, intel: Intel, orderType: OrderType, attacker: Unit, target: Unit,
                                 filterHighRangeUnits: bool, considerOnlyUnitsInRange: bool)
    requires g.isWorker(target.typeId) && orderType != Defend
    requires target.id !in intel.enemyWorkersGoingInRefinery
    ensures AttackPriority(g, intel.(enemyWorkersGoingInRefinery := intel.enemyWorkersGoingInRefinery + {target.id}),
                           orderType, attacker, target, filterHighRangeUnits, considerOnlyUnitsInRange)
         == 0.5 * AttackPriority(g, intel, orderType, attacker, target, filterHighRangeUnits, considerOnlyUnitsInRange)
  {
    var intel' := intel.(enemyWorkersGoingInRefinery := intel.enemyWorkersGoingInRefinery + {target.id});
    var d := g.dps(target, attacker);
    var fs := ModifierFactors(g, intel, orderType, attacker, target, d);
    assert ModifierFactors(g, intel', orderType, attacker, target, d) == fs[0 := 0.5 * fs[0]];
    ProductScalesWithFactor(fs, 0, 0.5, 0.5 * fs[0]);
    ModifiersScaleScore(g, intel, intel', orderType, attacker, target, filterHighRangeUnits, considerOnlyUnitsInRange, 0.5);
  }

  /** An enemy SCV that is building doubles its score against any attacker that is not an SCV. */
  lemma BuildingScvScoresDouble(g: Game, intel: Intel, orderType: OrderType, attacker: Unit, target: Unit,
                                filterHighRangeUnits: bool, considerOnlyUnitsInRange: bool)
    requires target.typeId == TerranScv && attacker.typeId != TerranScv
    requires g.isWorker(target.typeId)
    requires target.id !in intel.enemyScvBuilders && target.id !in intel.enemyRepairingScvs
    ensures AttackPriority(g, intel.(enemyScvBuilders := intel.enemyScvBuilders + {target.id}),
                           orderType, attacker, target, filterHighRangeUnits, considerOnlyUnitsInRange)
         == 2.0 * AttackPriority(g, intel, orderType, attacker, target, filterHighRangeUnits, considerOnlyUnitsInRange)
  {
    var intel' := intel.(enemyScvBuilders := intel.enemyScvBuilders + {target.id});
    var d := g.dps(target, attacker);
    var fs := ModifierFactors(g, intel, orderType, attacker, target, d);
    assert ModifierFactors(g, intel', orderType, attacker, target, d) == fs[0 := 2.0 * fs[0]];
    ProductScalesWithFactor(fs, 0, 2.0, 2.0 * fs[0]);
    ModifiersScaleScore(g, intel, intel', orderType, attacker, target, filterHighRangeUnits, considerOnlyUnitsInRange, 2.0);
  }

  /** An enemy SCV that is repairing, and not already counted as building, doubles its score
      against any attacker that is not an SCV. */
  lemma RepairingScvScoresDouble(g: Game, intel: Intel, orderType: OrderType, attacker: Unit, target: Unit,
                                 filterHighRangeUnits: bool, considerOnlyUnitsInRange: bool)
    requires target.typeId == TerranScv && attacker.typeId != TerranScv
    requires g.isWorker(target.typeId)
    requires target.id !in intel.enemyScvBuilders && target.id !in intel.enemyRepairingScvs
    ensures AttackPriority(g, intel.(enemyRepairingScvs := intel.enemyRepairingScvs + {target.id}),
                           orderType, attacker, target, filterHighRangeUnits, considerOnlyUnitsInRange)
         == 2.0 * AttackPriority(g, intel, orderType, attacker, target, filterHighRangeUnits, considerOnlyUnitsInRange)
  {
    var intel' := intel.(enemyRepairingScvs := intel.enemyRepairingScvs + {target.id});
    var d := g.dps(target, attacker);
    var fs := ModifierFactors(g, intel, orderType, attacker, target, d);
    assert ModifierFactors(g, intel', orderType, attacker, target, d) == fs[0 := 2.0 * fs[0]];
    ProductScalesWithFactor(fs, 0, 2.0, 2.0 * fs[0]);
    ModifiersScaleScore(g, intel, intel', orderType, attacker, target, filterHighRangeUnits, considerOnlyUnitsInRange, 2.0);
  }

  /** A combat unit or worker already marked for a Yamato shot keeps a tenth of its score. */
  lemma YamatoTargetScoresTenth(g: Game, intel: Intel, orderType: OrderType, attacker: Unit, target: Unit,
                                filterHighRangeUnits: bool, considerOnlyUnitsInRange: bool)
    requires g.isCombatUnit(target.typeId) || g.isWorker(target.typeId)
    requires target.id !in intel.yamatoTargets
    ensures AttackPriority(g, intel.(yamatoTargets := intel.yamatoTargets + {target.id}),
                           orderType, attacker, target, filterHighRangeUnits, considerOnlyUnitsInRange)
         == 0.1 * AttackPriority(g, intel, orderType, attacker, target, filterHighRangeUnits, considerOnlyUnitsInRange)
  {
    var intel' := intel.(yamatoTargets := intel.yamatoTargets + {target.id});
    var d := g.dps(target, attacker);
    var fs := ModifierFactors(g, intel, orderType, attacker, target, d);
    assert ModifierFactors(g, intel', orderType, attacker, target, d) == fs[YamatoIndex := 0.1 * fs[YamatoIndex]];
    ProductScalesWithFactor(fs, YamatoIndex, 0.1, 0.1 * fs[YamatoIndex]);
    ModifiersScaleScore(g, intel, intel', orderType, attacker, target, filterHighRangeUnits, considerOnlyUnitsInRange, 0.1);
  }

  /** When two states of the bot's enemy bookkeeping scale the modifiers of a combat unit or
      worker by a factor f, they scale its score by the same factor. */
  /** A target that was visible scores exactly double once it is a detected cloaked unit,
      whether it is a combat unit or worker or any other target. */
  lemma DetectedTargetScoresDouble(g: Game, intel: Intel, orderType: OrderType, attacker: Unit, t1: Unit, t2: Unit,
                                   filterHighRangeUnits: bool, considerOnlyUnitsInRange: bool)
    requires !Invisible(t1) && t2 == t1.(cloakDetected := true)
    requires SameQueries(g, attacker, t1, t2, considerOnlyUnitsInRange)
    ensures AttackPriority(g, intel, orderType, attacker, t2, filterHighRangeUnits, considerOnlyUnitsInRange)
         == 2.0 * AttackPriority(g, intel, orderType, attacker, t1, filterHighRangeUnits, considerOnlyUnitsInRange)
  {
    var d := g.dps(t1, attacker);
    var m := CombatModifiers(g, intel, orderType, attacker, t1, d);
    DetectionDoublesModifiers(g, intel, orderType, attacker, t1, t2, d);
    DetectionScoreWith(g, attacker, t1, t2, filterHighRangeUnits, considerOnlyUnitsInRange, 2.0 * m);
    DetectionScoreWith(g, attacker, t1, t2, filterHighRangeUnits, considerOnlyUnitsInRange, m);
    if g.isCombatUnit(t1.typeId) || g.isWorker(t1.typeId) {
      ScoreWithScales(g, attacker, t1, filterHighRangeUnits, considerOnlyUnitsInRange, m, 2.0);
    }
  }

  lemma DetectionDoublesModifiers(g: Game, intel: Intel, orderType: OrderType, attacker: Unit, t1: Unit, t2: Unit, d: real)
    requires !Invisible(t1) && t2 == t1.(cloakDetected := true)
    ensures CombatModifiers(g, intel, orderType, attacker, t2, d) == 2.0 * CombatModifiers(g, intel, orderType, attacker, t1, d)
  {
    var fs := ModifierFactors(g, intel, orderType, attacker, t1, d);
    assert ModifierFactors(g, intel, orderType, attacker, t2, d) == fs[InvisIndex := 2.0 * fs[InvisIndex]];
    ProductScalesWithFactor(fs, InvisIndex, 2.0, 2.0 * fs[InvisIndex]);
  }

  /** Detection changes nothing but the invisibility modifier: a combat unit or worker scores
      the same for the same modifier product, and any other target scores double. */
  lemma DetectionScoreWith(g: Game, attacker: Unit, t1: Unit, t2: Unit, filterHighRangeUnits: bool,
                           considerOnlyUnitsInRange: bool, m: real)
    requires !Invisible(t1) && t2 == t1.(cloakDetected := true)
    requires SameQueries(g, attacker, t1, t2, considerOnlyUnitsInRange)
    ensures g.isCombatUnit(t1.typeId) || g.isWorker(t1.typeId) ==>
      ScoreWith(g, attacker, t2, filterHighRangeUnits, considerOnlyUnitsInRange, m)
        == ScoreWith(g, attacker, t1, filterHighRangeUnits, considerOnlyUnitsInRange, m)
    ensures !(g.isCombatUnit(t1.typeId) || g.isWorker(t1.typeId)) ==>
      ScoreWith(g, attacker, t2, filterHighRangeUnits, considerOnlyUnitsInRange, m)
        == 2.0 * ScoreWith(g, attacker, t1, filterHighRangeUnits, considerOnlyUnitsInRange, m)
  {
    assert Rejected(g, attacker, t2, filterHighRangeUnits, considerOnlyUnitsInRange)
       == Rejected(g, attacker, t1, filterHighRangeUnits, considerOnlyUnitsInRange);
    var p := Proximity(g, attacker, t1, considerOnlyUnitsInRange);
    assert Proximity(g, attacker, t2, considerOnlyUnitsInRange) == p;
    var hv := HealthValue(g, t1);
    assert HealthValue(g, t2) == hv;
    assert NonCombatScore(p, hv, 2.0) == 2.0 * NonCombatScore(p, hv, 1.0);
  }

  /** Interceptors (which are respawned) and bunkers score a tenth of what they would with
      that modifier at 1. */
  lemma InterceptorOrBunkerScoresTenth(g: Game, intel: Intel, orderType: OrderType, attacker: Unit, target: Unit,
                                       filterHighRangeUnits: bool, considerOnlyUnitsInRange: bool)
    requires g.isCombatUnit(target.typeId) || g.isWorker(target.typeId)
    requires target.typeId == ProtossInterceptor || target.typeId == TerranBunker
    ensures var k := if target.typeId == ProtossInterceptor then 2 else 6;
      var fs := ModifierFactors(g, intel, orderType, attacker, target, g.dps(target, attacker));
      AttackPriority(g, intel, orderType, attacker, target, filterHighRangeUnits, considerOnlyUnitsInRange)
        == 0.1 * ScoreWith(g, attacker, target, filterHighRangeUnits, considerOnlyUnitsInRange, Product(fs[k := 1.0]))
  {
    var k := if target.typeId == ProtossInterceptor then 2 else 6;
    var fs := ModifierFactors(g, intel, orderType, attacker, target, g.dps(target, attacker));
    var neutral := fs[k := 1.0];
    assert fs[k] == 0.1;
    assert neutral[k := 0.1 * neutral[k]] == fs;
    ProductScalesWithFactor(neutral, k, 0.1, 0.1);
    ScoreWithScales(g, attacker, target, filterHighRangeUnits, considerOnlyUnitsInRange, Product(neutral), 0.1);
  }

  lemma ModifiersScaleScore(g: Game, intel: Intel, intel': Intel, orderType: OrderType, attacker: Unit, target: Unit,
                            filterHighRangeUnits: bool, considerOnlyUnitsInRange: bool, f: real)
    requires g.isCombatUnit(target.typeId) || g.isWorker(target.typeId)
    requires CombatModifiers(g, intel', orderType, attacker, target, g.dps(target, attacker))
          == f * CombatModifiers(g, intel, orderType, attacker, target, g.dps(target, attacker))
    ensures AttackPriority(g, intel', orderType, attacker, target, filterHighRangeUnits, considerOnlyUnitsInRange)
         == f * AttackPriority(g, intel, orderType, attacker, target, filterHighRangeUnits, considerOnlyUnitsInRange)
  {
    ScoreWithScales(g, attacker, target, filterHighRangeUnits, considerOnlyUnitsInRange,
                    CombatModifiers(g, intel, orderType, attacker, target, g.dps(target, attacker)), f);
  }

  /** For a combat unit or worker the score is linear in the product of the modifiers. */
  lemma ScoreWithScales(g: Game, attacker: Unit, target: Unit, filterHighRangeUnits: bool, considerOnlyUnitsInRange: bool,
                        m: real, f: real)
    requires g.isCombatUnit(target.typeId) || g.isWorker(target.typeId)
    ensures ScoreWith(g, attacker, target, filterHighRangeUnits, considerOnlyUnitsInRange, f * m)
         == f * ScoreWith(g, attacker, target, filterHighRangeUnits, considerOnlyUnitsInRange, m)
  {
    if !Rejected(g, attacker, target, filterHighRangeUnits, considerOnlyUnitsInRange) {
      ScoreScales(g.dps(target, attacker), g.dps(attacker, target), HealthValue(g, target),
                  Proximity(g, attacker, target, considerOnlyUnitsInRange), m, f);
    }
  }

  lemma ScoreScales(targetDps: real, unitDps: real, healthValue: real, proximity: real, m: real, f: real)
    ensures CombatScore(targetDps, unitDps, healthValue, proximity, f * m)
         == f * CombatScore(targetDps, unitDps, healthValue, proximity, m)
  {
  }

  /** Defending squads give refinery-bound workers no discount. */
  lemma DefendIgnoresRefineryDiscount(g: Game, intel: Intel, attacker: Unit, target: Unit,
                                      filterHighRangeUnits: bool, considerOnlyUnitsInRange: bool)
    ensures AttackPriority(g, intel.(enemyWorkersGoingInRefinery := intel.enemyWorkersGoingInRefinery + {target.id}),
                           Defend, attacker, target, filterHighRangeUnits, considerOnlyUnitsInRange)
         == AttackPriority(g, intel.(enemyWorkersGoingInRefinery := intel.enemyWorkersGoingInRefinery - {target.id}),
                           Defend, attacker, target, filterHighRangeUnits, considerOnlyUnitsInRange)
  {
    var i1 := intel.(enemyWorkersGoingInRefinery := intel.enemyWorkersGoingInRefinery + {target.id});
    var i2 := intel.(enemyWorkersGoingInRefinery := intel.enemyWorkersGoingInRefinery - {target.id});
    assert WorkerBonus(g, i1, Defend, attacker, target) == WorkerBonus(g, i2, Defend, attacker, target);
  }

  /** A structure that is neither a combat unit nor a worker scores at most 1, given that the
      decay beyond range stays within (0, 1] and the health value is not negative. */
  lemma NonCombatScoreAtMostOne(g: Game, intel: Intel, orderType: OrderType, attacker: Unit, target: Unit,
                                filterHighRangeUnits: bool, considerOnlyUnitsInRange: bool)
    requires !g.isCombatUnit(target.typeId) && !g.isWorker(target.typeId)
    requires 0.0 <= HealthValue(g, target)
    requires g.dist(attacker.pos, target.pos) > g.attackRange(attacker, target, considerOnlyUnitsInRange) ==>
      0.0 < g.pow(0.9, g.dist(attacker.pos, target.pos) - g.attackRange(attacker, target, considerOnlyUnitsInRange)) <= 1.0
    ensures AttackPriority(g, intel, orderType, attacker, target, filterHighRangeUnits, considerOnlyUnitsInRange) <= 1.0
  {
    var p := Proximity(g, attacker, target, considerOnlyUnitsInRange);
    assert p <= 1.0;
    var hv := HealthValue(g, target);
    var inv := InvisModifier(target);
    assert (p * 50.0 - hv) * inv <= 50.0 * inv;
  }

  /** At game loop 0 the cutoff wraps around, so every creep tumour not seen at loop 2^32 - 1
      is ignored. */
  lemma CreepTumorCutoffWrapsAtLoopZero(g: Game, intel: Intel, orderType: OrderType, attacker: Unit, target: Unit,
                                        filterHighRangeUnits: bool, considerOnlyUnitsInRange: bool)
    requires g.gameLoop == 0 && IsCreepTumor(target.typeId)
    requires target.lastSeenLoop < LoopModulus - 1
    ensures AttackPriority(g, intel, orderType, attacker, target, filterHighRangeUnits, considerOnlyUnitsInRange) == 0.0
  {
  }
}
