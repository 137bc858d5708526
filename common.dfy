/** Vocabulary shared by the combat and worker cores: positions, per-tick unit snapshots,
    the game queries the core consults (left uninterpreted), and the first-wins argmin scan
    that the "closest unit" loops use. */
module Common {

  datatype Option<T> = None | Some(value: T)

  /** Health, shield, distances and damage rates are never negative in the game. */
  type NonNeg = r: real | 0.0 <= r

  /** The game loop counter and the last-seen loop of a unit are unsigned 32-bit values. */
  type Uint32 = x: int | 0 <= x < 0x1_0000_0000

  /** Unit tags. Tag 0 is the empty identifier `CCUnitID{}`, which no real unit carries. */
  type UnitId = nat
  const NoUnitId: UnitId := 0

  type TypeId = nat

  // Unit type identifiers of the StarCraft II API that the core tests for by value.
  const TerranBunker: TypeId := 24
  const TerranScv: TypeId := 45
  const ProtossInterceptor: TypeId := 85
  const ZergCreepTumor: TypeId := 87
  const ZergEgg: TypeId := 103
  const ZergZerglingBurrowed: TypeId := 119
  const ZergCreepTumorBurrowed: TypeId := 137
  const ZergCreepTumorQueen: TypeId := 138
  const ZergLarva: TypeId := 151
  /** The neutral mineral shard of the shard-collecting mini-game. */
  const MineralShard: TypeId := 1680

  datatype Point = Point(x: real, y: real)

  /** `Util::DistSq`: the squared Euclidean distance. */
  function DistSq(p: Point, q: Point): (r: real)
    ensures r >= 0.0
  {
    var dx, dy := p.x - q.x, p.y - q.y;
    dx * dx + dy * dy
  }

  /** A read-only snapshot of one game unit for the current tick. */
  datatype Unit = Unit(
    id: UnitId,
    typeId: TypeId,
    pos: Point,
    health: NonNeg,
    healthMax: real,
    shield: NonNeg,
    weaponCooldown: real,
    hidden: bool,          // display_type == Hidden
    cloakDetected: bool,   // cloak == CloakedDetected
    burrowed: bool,
    flying: bool,
    lastSeenLoop: Uint32,
    onScreen: bool,
    valid: bool,           // Unit::isValid
    alive: bool,
    idle: bool,
    completed: bool)

  /** The game and library queries the core consults. Each is a function value the model
      never looks inside: unit-type classification, weapon data, damage and range tables,
      distances, `pow`, abilities and the game loop counter. */
  datatype Game = Game(
    isTargetable: TypeId -> bool,
    isCombatUnit: TypeId -> bool,              // UnitType::isCombatUnit
    isCombatUnitType: TypeId -> bool,          // Util::IsCombatUnitType, used by the kite decision
    isWorker: TypeId -> bool,
    isAttackingBuilding: TypeId -> bool,
    isDetector: TypeId -> bool,
    isRefinery: TypeId -> bool,
    isResourceDepot: TypeId -> bool,
    isMule: TypeId -> bool,
    weaponRanges: TypeId -> seq<real>,
    movementSpeed: TypeId -> real,
    dps: (Unit, Unit) -> NonNeg,               // Util::GetDpsForTarget(shooter, victim)
    attackRange: (Unit, Unit, bool) -> real,   // Util::GetAttackRangeForTarget(shooter, victim, ignoreSpells)
    speed: Unit -> real,                       // Util::getSpeedOfUnit
    dist: (Point, Point) -> NonNeg,            // Util::Dist
    pow: (real, real) -> real,
    isParasited: Unit -> bool,
    isReturningCargo: Unit -> bool,
    lookup: UnitId -> Option<Unit>,            // the live snapshot of a unit known by tag
    gameLoop: Uint32)

  /** The bot's own bookkeeping of enemy units, consulted by the combat priority. */
  datatype Intel = Intel(
    enemyWorkersGoingInRefinery: set<UnitId>,
    enemyScvBuilders: set<UnitId>,
    enemyRepairingScvs: set<UnitId>,
    yamatoTargets: set<UnitId>)

  /** Left-to-right scan that keeps the first accepted element with the smallest key: a later
      candidate replaces the current best only when its key is strictly smaller. */
  function FirstMin<T>(xs: seq<T>, accept: T -> bool, key: T -> real): Option<T>
  {
    if xs == [] then None
    else
      var best := FirstMin(xs[..|xs| - 1], accept, key);
      var x := xs[|xs| - 1];
      if accept(x) && (best.None? || key(x) < key(best.value)) then Some(x) else best
  }

  /** The position `FirstMin` picks, or -1 when it picks nothing. */
  function FirstMinIndex<T>(xs: seq<T>, accept: T -> bool, key: T -> real): (r: int)
    ensures -1 <= r < |xs|
  {
    if xs == [] then -1
    else
      var n := |xs| - 1;
      var b := FirstMinIndex(xs[..n], accept, key);
      if accept(xs[n]) && (b < 0 || key(xs[n]) < key(xs[b])) then n else b
  }

  lemma {:induction false} FirstMinAtIndex<T>(xs: seq<T>, accept: T -> bool, key: T -> real)
    ensures var r := FirstMinIndex(xs, accept, key);
      FirstMin(xs, accept, key) == if r < 0 then None else Some(xs[r])
  {
    if xs != [] {
      var n := |xs| - 1;
      FirstMinAtIndex(xs[..n], accept, key);
      var b := FirstMinIndex(xs[..n], accept, key);
      if b >= 0 {
        assert xs[..n][b] == xs[b];
      }
    }
  }

  lemma {:induction false} FirstMinIndexAccepted<T>(xs: seq<T>, accept: T -> bool, key: T -> real)
    ensures FirstMinIndex(xs, accept, key) < 0 <==> forall i :: 0 <= i < |xs| ==> !accept(xs[i])
    ensures FirstMinIndex(xs, accept, key) >= 0 ==> accept(xs[FirstMinIndex(xs, accept, key)])
  {
    if xs != [] {
      var n := |xs| - 1;
      var front := xs[..n];
      FirstMinIndexAccepted(front, accept, key);
      var b := FirstMinIndex(front, accept, key);
      if b >= 0 {
        assert front[b] == xs[b];
      } else {
        forall i | 0 <= i < n
          ensures !accept(xs[i])
        {
          assert front[i] == xs[i];
        }
      }
    }
  }

  lemma {:induction false} FirstMinIndexMinimal<T>(xs: seq<T>, accept: T -> bool, key: T -> real, i: int)
    requires 0 <= i < |xs| && accept(xs[i]) && FirstMinIndex(xs, accept, key) >= 0
    ensures key(xs[FirstMinIndex(xs, accept, key)]) <= key(xs[i])
    ensures i < FirstMinIndex(xs, accept, key) ==> key(xs[FirstMinIndex(xs, accept, key)]) < key(xs[i])
  {
    var n := |xs| - 1;
    var front := xs[..n];
    var b := FirstMinIndex(front, accept, key);
    if i < n {
      assert front[i] == xs[i];
      FirstMinIndexAccepted(front, accept, key);
      assert b >= 0;
      FirstMinIndexMinimal(front, accept, key, i);
      assert front[b] == xs[b];
    } else if b >= 0 {
      assert front[b] == xs[b];
    }
  }

  /** The scan finds nothing exactly when nothing is accepted; otherwise it finds an accepted
      element whose key is minimal, and no earlier accepted element has the same key. */
  lemma FirstMinIsEarliestMinimum<T>(xs: seq<T>, accept: T -> bool, key: T -> real)
    ensures FirstMin(xs, accept, key).None? <==> forall i :: 0 <= i < |xs| ==> !accept(xs[i])
    ensures FirstMin(xs, accept, key).Some? ==>
      exists k :: 0 <= k < |xs| && xs[k] == FirstMin(xs, accept, key).value && accept(xs[k]) &&
        (forall i :: 0 <= i < |xs| && accept(xs[i]) ==> key(xs[k]) <= key(xs[i])) &&
        (forall i :: 0 <= i < k && accept(xs[i]) ==> key(xs[k]) < key(xs[i]))
  {
    FirstMinAtIndex(xs, accept, key);
    FirstMinIndexAccepted(xs, accept, key);
    var k := FirstMinIndex(xs, accept, key);
    if k >= 0 {
      forall i | 0 <= i < |xs| && accept(xs[i])
        ensures key(xs[k]) <= key(xs[i])
        ensures i < k ==> key(xs[k]) < key(xs[i])
      {
        FirstMinIndexMinimal(xs, accept, key, i);
      }
    }
  }
}
