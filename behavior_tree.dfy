/** The behaviour tree a ranged unit ticks once per frame when the alpha-beta search is off.
    Conditions are evaluated before the tree is built, and every action reports success or
    failure on its own, so both are inputs of a tick. */
module BehaviorTree {

  datatype Condition = EnemyInSight | EnemyRanged | MineralInSight

  datatype Action = FocusFire | Kite | GoToMineralShard | GoToObjective

  /** A selector succeeds at its first succeeding child; a sequence fails at its first failing
      child. */
  datatype Node =
    | Selector(children: seq<Node>)
    | Sequence(children: seq<Node>)
    | Check(condition: Condition)
    | Do(action: Action)

  /** The values of the three conditions and the result each action would report. */
  datatype Env = Env(
    enemyInSight: bool,
    enemyRanged: bool,
    mineralInSight: bool,
    focusFireSucceeds: bool,
    kiteSucceeds: bool,
    goToMineralShardSucceeds: bool,
    goToObjectiveSucceeds: bool)

  function Holds(env: Env, c: Condition): bool
  {
    match c
    case EnemyInSight => env.enemyInSight
    case EnemyRanged => env.enemyRanged
    case MineralInSight => env.mineralInSight
  }

  function Succeeds(env: Env, a: Action): bool
  {
    match a
    case FocusFire => env.focusFireSucceeds
    case Kite => env.kiteSucceeds
    case GoToMineralShard => env.goToMineralShardSucceeds
    case GoToObjective => env.goToObjectiveSucceeds
  }

  /** The result of a tick and the actions it ran, in order. */
  datatype Outcome = Outcome(success: bool, ran: seq<Action>)

  function Tick(env: Env, n: Node): Outcome
    decreases n
  {
    match n
    case Selector(cs) => TickSelector(env, cs)
    case Sequence(cs) => TickSequence(env, cs)
    case Check(c) => Outcome(Holds(env, c), [])
    case Do(a) => Outcome(Succeeds(env, a), [a])
  }

  function TickSelector(env: Env, cs: seq<Node>): Outcome
    decreases cs
  {
    if cs == [] then Outcome(false, [])
    else
      var first := Tick(env, cs[0]);
      if first.success then first
      else
        var rest := TickSelector(env, cs[1..]);
        Outcome(rest.success, first.ran + rest.ran)
  }

  function TickSequence(env: Env, cs: seq<Node>): Outcome
    decreases cs
  {
    if cs == [] then Outcome(true, [])
    else
      var first := Tick(env, cs[0]);
      if !first.success then first
      else
        var rest := TickSequence(env, cs[1..]);
        Outcome(rest.success, first.ran + rest.ran)
  }

  /** A selector succeeds exactly when one of its children does. */
  lemma {:induction false} SelectorSucceedsIffSomeChild(env: Env, cs: seq<Node>)
    ensures TickSelector(env, cs).success <==> exists i :: 0 <= i < |cs| && Tick(env, cs[i]).success
  {
    if cs != [] {
      SelectorSucceedsIffSomeChild(env, cs[1..]);
      if exists i :: 0 <= i < |cs| && Tick(env, cs[i]).success {
        var i :| 0 <= i < |cs| && Tick(env, cs[i]).success;
        if i > 0 {
          assert cs[1..][i - 1] == cs[i];
        }
      }
      if TickSelector(env, cs[1..]).success {
        var j :| 0 <= j < |cs[1..]| && Tick(env, cs[1..][j]).success;
        assert cs[j + 1] == cs[1..][j];
      }
    }
  }

  /** A sequence succeeds exactly when all of its children do. */
  lemma {:induction false} SequenceSucceedsIffAllChildren(env: Env, cs: seq<Node>)
    ensures TickSequence(env, cs).success <==> forall i :: 0 <= i < |cs| ==> Tick(env, cs[i]).success
  {
    if cs != [] {
      SequenceSucceedsIffAllChildren(env, cs[1..]);
      if !TickSequence(env, cs[1..]).success {
        var j :| 0 <= j < |cs[1..]| && !Tick(env, cs[1..][j]).success;
        assert cs[j + 1] == cs[1..][j];
      }
      if forall i :: 0 <= i < |cs| ==> Tick(env, cs[i]).success {
        forall j | 0 <= j < |cs[1..]|
          ensures Tick(env, cs[1..][j]).success
        {
          assert cs[1..][j] == cs[j + 1];
        }
      }
    }
  }

  /** Engage a visible enemy: focus fire on a ranged one, otherwise kite. */
  function EnemyBranch(): Node
  {
    Sequence([
      Check(EnemyInSight),
      Selector([
        Sequence([Check(EnemyRanged), Do(FocusFire)]),
        Do(Kite)])])
  }

  /** Pick up a visible mineral shard. */
  function MineralBranch(): Node
  {
    Sequence([Check(MineralInSight), Do(GoToMineralShard)])
  }

  /** The tree of `RangedManager::assignTargets`: the enemy branch, else the mineral branch,
      else move to the squad objective. */
  function RangedTree(): Node
  {
    Selector([EnemyBranch(), MineralBranch(), Do(GoToObjective)])
  }

  predicate EnemyBranchSucceeds(env: Env)
  {
    env.enemyInSight && ((env.enemyRanged && env.focusFireSucceeds) || env.kiteSucceeds)
  }

  predicate MineralBranchSucceeds(env: Env)
  {
    env.mineralInSight && env.goToMineralShardSucceeds
  }

  /** The actions the enemy branch runs: focus fire first on a ranged enemy, then kiting
      whenever focus fire was not tried or failed. */
  function EnemyBranchActions(env: Env): seq<Action>
  {
    if !env.enemyInSight then []
    else if env.enemyRanged && env.focusFireSucceeds then [FocusFire]
    else if env.enemyRanged then [FocusFire, Kite]
    else [Kite]
  }

  /** The fallback chain spelled out branch by branch, independently of the tree. */
  function Fallback(env: Env): Outcome
  {
    if EnemyBranchSucceeds(env) then Outcome(true, EnemyBranchActions(env))
    else if MineralBranchSucceeds(env) then Outcome(true, EnemyBranchActions(env) + [GoToMineralShard])
    else if env.mineralInSight then
      Outcome(env.goToObjectiveSucceeds, EnemyBranchActions(env) + [GoToMineralShard, GoToObjective])
    else Outcome(env.goToObjectiveSucceeds, EnemyBranchActions(env) + [GoToObjective])
  }

  /** A sequence of a check and one more node runs that node only when the check holds. */
  lemma CheckThen(env: Env, c: Condition, n: Node)
    ensures TickSequence(env, [Check(c), n]) == if Holds(env, c) then Tick(env, n) else Outcome(false, [])
  {
    assert [Check(c), n][1..] == [n];
    assert [n][1..] == [];
    var o := Tick(env, n);
    assert o.ran + [] == o.ran;
    assert TickSequence(env, [n]) == o;
    assert [] + o.ran == o.ran;
  }

  /** A selector of two nodes tries the second only when the first fails. */
  lemma EitherOf(env: Env, n1: Node, n2: Node)
    ensures TickSelector(env, [n1, n2]) ==
      var o1 := Tick(env, n1);
      if o1.success then o1 else Outcome(Tick(env, n2).success, o1.ran + Tick(env, n2).ran)
  {
    assert [n1, n2][1..] == [n2];
    assert [n2][1..] == [];
    var o2 := Tick(env, n2);
    assert o2.ran + [] == o2.ran;
    assert TickSelector(env, [n2]) == o2;
  }

  lemma EnemyBranchIsFallback(env: Env)
    ensures Tick(env, EnemyBranch()) == Outcome(EnemyBranchSucceeds(env), EnemyBranchActions(env))
  {
    var ff := Sequence([Check(EnemyRanged), Do(FocusFire)]);
    CheckThen(env, EnemyRanged, Do(FocusFire));
    EitherOf(env, ff, Do(Kite));
    CheckThen(env, EnemyInSight, Selector([ff, Do(Kite)]));
  }

  lemma MineralBranchIsFallback(env: Env)
    ensures Tick(env, MineralBranch()) ==
      if env.mineralInSight then Outcome(env.goToMineralShardSucceeds, [GoToMineralShard]) else Outcome(false, [])
  {
    CheckThen(env, MineralInSight, Do(GoToMineralShard));
  }

  /** Ticking the tree runs exactly the fallback chain. */
  lemma RangedTreeIsFallback(env: Env)
    ensures Tick(env, RangedTree()) == Fallback(env)
  {
    var cs := [EnemyBranch(), MineralBranch(), Do(GoToObjective)];
    EnemyBranchIsFallback(env);
    MineralBranchIsFallback(env);
    assert cs[1..] == [MineralBranch(), Do(GoToObjective)];
    EitherOf(env, MineralBranch(), Do(GoToObjective));
    var rest := TickSelector(env, cs[1..]);
    assert Tick(env, RangedTree()) ==
      if EnemyBranchSucceeds(env) then Tick(env, EnemyBranch())
      else Outcome(rest.success, EnemyBranchActions(env) + rest.ran);
  }

  /** With no enemy in sight neither focus fire nor kiting runs. */
  lemma NoEnemyNoEngagement(env: Env)
    requires !env.enemyInSight
    ensures FocusFire !in Tick(env, RangedTree()).ran
    ensures Kite !in Tick(env, RangedTree()).ran
  {
    RangedTreeIsFallback(env);
  }

  /** Against a ranged enemy in sight, focus fire is the first action, and kiting runs only
      after it failed. */
  lemma RangedEnemyFocusFiresFirst(env: Env)
    requires env.enemyInSight && env.enemyRanged
    ensures Tick(env, RangedTree()).ran[0] == FocusFire
    ensures Kite in Tick(env, RangedTree()).ran <==> !env.focusFireSucceeds
  {
    RangedTreeIsFallback(env);
  }

  /** The objective move runs exactly when both the enemy and the mineral branches fail. */
  lemma ObjectiveOnlyAsLastResort(env: Env)
    ensures GoToObjective in Tick(env, RangedTree()).ran <==> !EnemyBranchSucceeds(env) && !MineralBranchSucceeds(env)
  {
    RangedTreeIsFallback(env);
  }

  /** The mineral shard is approached only when one is in sight and the enemy branch failed. */
  lemma ShardOnlyWhenInSight(env: Env)
    ensures GoToMineralShard in Tick(env, RangedTree()).ran <==> env.mineralInSight && !EnemyBranchSucceeds(env)
  {
    RangedTreeIsFallback(env);
  }
}
