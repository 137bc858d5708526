/** The per-unit command helpers of Micro.cpp. Every helper turns its arguments into exactly
    one command for the game's command sink; the sink itself is outside the model, so each
    helper returns the command value it would send. */
module Micro {
  import opened Common

  datatype Ability = Stop | AttackAttack | Move | Smart

  datatype CommandTarget = NoTarget | OnUnit(unit: UnitId) | AtPoint(point: Point)

  /** One call of the command sink: the acting unit, the ability and its target. */
  datatype Command = Command(unit: UnitId, ability: Ability, target: CommandTarget)

  function SmartStop(attacker: Unit): Command
  {
    Command(attacker.id, Stop, NoTarget)
  }

  function SmartAttackUnit(attacker: Unit, target: Unit): Command
  {
    Command(attacker.id, AttackAttack, OnUnit(target.id))
  }

  function SmartAttackMove(attacker: Unit, targetPosition: Point): Command
  {
    Command(attacker.id, AttackAttack, AtPoint(targetPosition))
  }

  function SmartMove(attacker: Unit, targetPosition: Point): Command
  {
    Command(attacker.id, Move, AtPoint(targetPosition))
  }

  function SmartRightClick(unit: Unit, target: Unit): Command
  {
    Command(unit.id, Smart, OnUnit(target.id))
  }

  function SmartRepair(unit: Unit, target: Unit): Command
  {
    Command(unit.id, Smart, OnUnit(target.id))
  }

  /** The coordinated variant of the helper is disabled in the source, so focus fire is a plain
      attack on the given target. */
  function SmartFocusFire(rangedUnit: Unit, target: Unit): Command
  {
    SmartAttackUnit(rangedUnit, target)
  }

  /** Every helper addresses the unit it was given, and the five primitive helpers are told
      apart by their ability and by the kind of their target. */
  lemma HelpersAddressTheirUnit(u: Unit, t: Unit, p: Point)
    ensures SmartStop(u).unit == u.id && SmartStop(u).ability == Stop && SmartStop(u).target.NoTarget?
    ensures SmartAttackUnit(u, t).unit == u.id && SmartAttackUnit(u, t).ability == AttackAttack
    ensures SmartAttackUnit(u, t).target == OnUnit(t.id)
    ensures SmartAttackMove(u, p).unit == u.id && SmartAttackMove(u, p).ability == AttackAttack
    ensures SmartAttackMove(u, p).target == AtPoint(p)
    ensures SmartMove(u, p).unit == u.id && SmartMove(u, p).ability == Move && SmartMove(u, p).target == AtPoint(p)
    ensures SmartRightClick(u, t).unit == u.id && SmartRightClick(u, t).ability == Smart
    ensures SmartRightClick(u, t).target == OnUnit(t.id)
    ensures SmartMove(u, p) != SmartAttackUnit(u, t) && SmartMove(u, p) != SmartAttackMove(u, p)
  {
  }

  /** Repairing is issued exactly as a right click on the unit to repair, and focus fire
      exactly as an attack on the target. */
  lemma RepairAndFocusFireAreAliases(u: Unit, t: Unit)
    ensures SmartRepair(u, t) == SmartRightClick(u, t)
    ensures SmartFocusFire(u, t) == SmartAttackUnit(u, t)
  {
  }

  /** The time a unit needs before the target is in range. */
  datatype Time = Finite(seconds: real) | Forever

  /** `std::max(0.f, (dist - range) / speed)` in IEEE arithmetic. With speed 0 the quotient is
      +inf when out of range, -inf inside range and NaN at exactly the range, and `std::max`
      maps the last two to 0. */
  function TimeToEnter(dist: real, range: real, speed: real): (t: Time)
    ensures t.Finite? ==> t.seconds >= 0.0
    ensures t.Forever? <==> speed == 0.0 && dist > range
    ensures dist <= range && speed > 0.0 ==> t == Finite(0.0)
  {
    if speed == 0.0 then
      if dist > range then Forever else Finite(0.0)
    else
      var q := (dist - range) / speed;
      Finite(if 0.0 < q then q else 0.0)
  }

  /** `timeToEnter >= weapon_cooldown`. */
  predicate ArrivesNoSoonerThan(t: Time, cooldown: real)
  {
    t.Forever? || t.seconds >= cooldown
  }

  /** The point reflection of the target through the unit: `pos - targetPos + pos`. */
  function FleePosition(pos: Point, targetPos: Point): (p: Point)
    ensures DistSq(p, pos) == DistSq(pos, targetPos)
    ensures p.x + targetPos.x == 2.0 * pos.x && p.y + targetPos.y == 2.0 * pos.y
  {
    Point(pos.x - targetPos.x + pos.x, pos.y - targetPos.y + pos.y)
  }

  /** The kite decision: retreat when the target can fight back and the unit would get into
      range before its weapon is ready again; otherwise shoot. */
  predicate KiteAway(g: Game, rangedUnit: Unit, target: Unit)
  {
    var range := g.attackRange(rangedUnit, target, false);
    var dist := g.dist(rangedUnit.pos, target.pos);
    var timeToEnter := TimeToEnter(dist, range, g.movementSpeed(rangedUnit.typeId));
    g.isCombatUnitType(target.typeId) && !ArrivesNoSoonerThan(timeToEnter, rangedUnit.weaponCooldown)
  }

  /** `SmartKiteTarget`: the unit moves away exactly when the target is a combat unit and the
      unit would reach range strictly before its cooldown ends; a move always goes to the
      reflected point, and otherwise the unit attacks the target. */
  function SmartKiteTarget(g: Game, rangedUnit: Unit, target: Unit): (c: Command)
    ensures c.unit == rangedUnit.id
    ensures c.ability == Move <==>
      g.isCombatUnitType(target.typeId) &&
      TimeToEnter(g.dist(rangedUnit.pos, target.pos), g.attackRange(rangedUnit, target, false),
                  g.movementSpeed(rangedUnit.typeId)).Finite? &&
      TimeToEnter(g.dist(rangedUnit.pos, target.pos), g.attackRange(rangedUnit, target, false),
                  g.movementSpeed(rangedUnit.typeId)).seconds < rangedUnit.weaponCooldown
    ensures c.ability == Move ==> c == SmartMove(rangedUnit, FleePosition(rangedUnit.pos, target.pos))
    ensures c.ability != Move ==> c == SmartAttackUnit(rangedUnit, target)
  {
    if KiteAway(g, rangedUnit, target) then
      SmartMove(rangedUnit, FleePosition(rangedUnit.pos, target.pos))
    else
      SmartAttackUnit(rangedUnit, target)
  }

  /** A target that is not a combat unit is always shot at, never kited from. */
  lemma NonCombatTargetIsAttacked(g: Game, rangedUnit: Unit, target: Unit)
    requires !g.isCombatUnitType(target.typeId)
    ensures SmartKiteTarget(g, rangedUnit, target) == SmartAttackUnit(rangedUnit, target)
  {
  }

  /** A unit whose weapon is ready never retreats, whatever the distance: the time to enter
      range is never negative. In particular a ready unit already in range attacks. */
  lemma ReadyWeaponAttacks(g: Game, rangedUnit: Unit, target: Unit)
    requires rangedUnit.weaponCooldown <= 0.0
    ensures SmartKiteTarget(g, rangedUnit, target) == SmartAttackUnit(rangedUnit, target)
  {
  }

  /** A unit that cannot move (speed 0) and is out of range never kites: it would never arrive. */
  lemma StationaryOutOfRangeAttacks(g: Game, rangedUnit: Unit, target: Unit)
    requires g.movementSpeed(rangedUnit.typeId) == 0.0
    requires g.dist(rangedUnit.pos, target.pos) > g.attackRange(rangedUnit, target, false)
    ensures SmartKiteTarget(g, rangedUnit, target) == SmartAttackUnit(rangedUnit, target)
  {
  }
}
