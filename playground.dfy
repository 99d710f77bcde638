/**
 * The demo session of crates/playground/src/main.rs replayed on the model:
 * a player with an opportunity attack and a golem with Reinforce and Spite,
 * one hit, a query hit, an armor gain and two moves of the golem, the last
 * of which walks it out of the player's reach and sets off the whole chain
 * of reactions to its end.
 */
module Playground {
  import opened Wrappers
  import opened Ids
  import opened EntitySets
  import opened Allegiances
  import opened Armors
  import opened Healths
  import opened Positions
  import opened Reactions
  import opened WorldState
  import opened Dispatch
  import opened EventProperties
  import opened ActionProperties
  import Query

  const PLAYER: EntityId := 1
  const GOLEM: EntityId := 2

  function PlayerSpawn(): Action
  {
    Spawn(Some(Player), Some(Armor(5)), Some(Health(10, 10)), Some(Position(0, 0)), [OpportunityAttack(10)])
  }

  function GolemSpawn(): Action
  {
    Spawn(Some(Golem), Some(Armor(0)), Some(Health(3, 3)), Some(Position(0, 5)), [Reinforce(3), Spite(50)])
  }

  function PlaygroundReactions(): map<EntityId, seq<Reaction>>
  {
    map[PLAYER := [OpportunityAttack(10)], GOLEM := [Reinforce(3), Spite(50)]]
  }

  /** The world once both entities are spawned. */
  ghost function Spawned2(): State
  {
    State(map[PLAYER := Player, GOLEM := Golem], map[PLAYER := Armor(5), GOLEM := Armor(0)],
          map[PLAYER := Health(10, 10), GOLEM := Health(3, 3)],
          map[PLAYER := Position(0, 0), GOLEM := Position(0, 5)], PlaygroundReactions(), 3, [])
  }

  /** Spawning into a fresh world hands out ids 1 and 2 and stores exactly the given components. */
  lemma SpawnPlayerThenGolem(maxDepth: nat)
    ensures var spawned := Perform(maxDepth, Perform(maxDepth, Initial(), PlayerSpawn(), WORLD_ENTITY, WORLD_ENTITY, 0),
                                   GolemSpawn(), WORLD_ENTITY, WORLD_ENTITY, 0);
            spawned == Spawned2()
  {
    var first := Perform(maxDepth, Initial(), PlayerSpawn(), WORLD_ENTITY, WORLD_ENTITY, 0);
    assert first.reactions == map[PLAYER := [OpportunityAttack(10)]];
    assert first.nextEntity == 2;
  }

  /** The snapshot of the playground reactions is visited player first, then the golem's two reactions in order. */
  lemma PlaygroundPairs()
    ensures Pairs(PlaygroundReactions()) == [(PLAYER, OpportunityAttack(10)), (GOLEM, Reinforce(3)), (GOLEM, Spite(50))]
  {
    var keys := PlaygroundReactions().Keys;
    assert keys == {PLAYER, GOLEM};
    assert Min(keys) == PLAYER;
    assert keys - {PLAYER} == {GOLEM};
    assert Min({GOLEM}) == GOLEM;
    assert {GOLEM} - {GOLEM} == {};
    assert Ordered(keys) == [PLAYER, GOLEM];
    var snapshot := PlaygroundReactions();
    assert Expand(GOLEM, [Spite(50)]) == [(GOLEM, Spite(50))];
    assert [Reinforce(3), Spite(50)][1..] == [Spite(50)];
    assert Expand(GOLEM, snapshot[GOLEM]) == [(GOLEM, Reinforce(3)), (GOLEM, Spite(50))];
    assert Expand(PLAYER, snapshot[PLAYER]) == [(PLAYER, OpportunityAttack(10))];
    assert [PLAYER, GOLEM][1..] == [GOLEM];
    assert PairsOver(snapshot, [GOLEM]) == Expand(GOLEM, snapshot[GOLEM]) + PairsOver(snapshot, []);
  }

  /** After the first hit: the golem's armor took nothing, its health took 1, and its Reinforce gave it 3 armor. */
  ghost function AfterFirstHit(): State
  {
    Spawned2().(armor := map[PLAYER := Armor(5), GOLEM := Armor(3)],
                health := map[PLAYER := Health(10, 10), GOLEM := Health(2, 3)],
                events := [Emitted(AfterDamage, PLAYER, GOLEM, 0)])
  }

  /**
   * The hit of main.rs: health 3/3 and armor 0 with Reinforce 3, hit for
   * 1, ends at health 2/3 and armor 3 (Reinforce fires one level deeper,
   * so the bound must allow depth 1).
   */
  lemma PlayerHitsGolem(maxDepth: nat)
    requires maxDepth >= 1
    ensures Perform(maxDepth, Spawned2(), Damage(1), PLAYER, GOLEM, 0) == AfterFirstHit()
  {
    var s := Spawned2();
    assert Overflow(s, GOLEM, 1) == 1;
    assert HealthAfter(s, GOLEM, 1) == 2;
    assert ReinforceTotal([Reinforce(3), Spite(50)]) == 3 by {
      assert [Reinforce(3), Spite(50)][1..] == [Spite(50)];
      assert [Spite(50)][1..] == [];
    }
    assert ReinforceGain(maxDepth, 0, s.reactions, GOLEM) == 3;
    DamageSurvived(maxDepth, s, 1, PLAYER, GOLEM, 0);
    assert LoseArmor(Armor(0), 1).0.current == 0;
  }

  ghost const GOLEMS_AT_HOME: Query.EntityQuery :=
    Query.EntityQuery(Query.Include([Golem]), Query.Include([Position(0, 5)]))

  /** After the query hit: the golem's 3 armor absorbs the whole point, so no event is emitted. */
  ghost function AfterQueryHit(): State
  {
    AfterFirstHit().(armor := map[PLAYER := Armor(5), GOLEM := Armor(2)])
  }

  /** The query for golems at (0, 5) finds the golem alone, and the hit it fans out lands in its armor. */
  lemma PlayerHitsGolemsAtHome(maxDepth: nat)
    ensures Query.Resolvable(GOLEMS_AT_HOME)
    ensures Query.Resolve(AfterFirstHit(), GOLEMS_AT_HOME) == {GOLEM}
    ensures Query.PerformWithQuery(maxDepth, AfterFirstHit(), Damage(1), PLAYER, GOLEMS_AT_HOME, 0) == AfterQueryHit()
  {
    var s := AfterFirstHit();
    Query.ResolveMembership(s, GOLEMS_AT_HOME);
    assert Query.Resolve(s, GOLEMS_AT_HOME) == {GOLEM} by {
      assert PLAYER !in Query.Resolve(s, GOLEMS_AT_HOME);
      forall e | e in Query.Resolve(s, GOLEMS_AT_HOME) ensures e == GOLEM {
      }
    }
    assert Min({GOLEM}) == GOLEM;
    assert {GOLEM} - {GOLEM} == {};
    assert Ordered({GOLEM}) == [GOLEM];
    assert [GOLEM][1..] == [];
    assert Overflow(s, GOLEM, 1) == 0;
    assert HealthAfter(s, GOLEM, 1) == 2;
    DamageSurvived(maxDepth, s, 1, PLAYER, GOLEM, 0);
    assert s.health[GOLEM := Health(2, 3)] == s.health;
    assert s.events + [] == s.events;
    assert LoseArmor(Armor(3), 1).0.current == 2;
    var hit := Perform(maxDepth, s, Damage(1), PLAYER, GOLEM, 0);
    assert hit == AfterQueryHit();
    assert Query.PerformAll(maxDepth, s, [GOLEM], Damage(1), PLAYER, 0)
        == Query.PerformAll(maxDepth, hit, [], Damage(1), PLAYER, 0);
  }

  /** After the player's armor gain of 5. */
  ghost function AfterArmorGain(): State
  {
    AfterQueryHit().(armor := map[PLAYER := Armor(10), GOLEM := Armor(2)])
  }

  lemma PlayerGainsArmor(maxDepth: nat)
    ensures Perform(maxDepth, AfterQueryHit(), GainArmor(5), PLAYER, PLAYER, 0) == AfterArmorGain()
  {
    var s := AfterQueryHit();
    assert s.armor[PLAYER := Armor(s.armor[PLAYER].current + 5)] == AfterArmorGain().armor;
    GainArmorOnlyTouchesArmor(maxDepth, s, 5, PLAYER, PLAYER, 0);
  }

  ghost function PlaygroundPairList(): seq<(EntityId, Reaction)>
  {
    [(PLAYER, OpportunityAttack(10)), (GOLEM, Reinforce(3)), (GOLEM, Spite(50))]
  }

  /** The playground pairs, handled one after the other. */
  lemma HandlePlaygroundPairs(maxDepth: nat, s: State, event: Event, source: EntityId, target: EntityId, depth: nat)
    requires depth <= maxDepth
    ensures var first := HandleEvent(maxDepth, s, event, source, target, PLAYER, OpportunityAttack(10), depth);
            var second := HandleEvent(maxDepth, first, event, source, target, GOLEM, Reinforce(3), depth);
            HandleAll(maxDepth, s, PlaygroundPairList(), event, source, target, depth)
            == HandleEvent(maxDepth, second, event, source, target, GOLEM, Spite(50), depth)
  {
    var pairs := PlaygroundPairList();
    assert pairs == [pairs[0]] + pairs[1..];
    HandleAllStep(maxDepth, s, pairs[0], pairs[1..], event, source, target, depth);
    var first := HandleEvent(maxDepth, s, event, source, target, PLAYER, OpportunityAttack(10), depth);
    assert pairs[1..] == [pairs[1]] + pairs[2..];
    HandleAllStep(maxDepth, first, pairs[1], pairs[2..], event, source, target, depth);
    var second := HandleEvent(maxDepth, first, event, source, target, GOLEM, Reinforce(3), depth);
    assert pairs[2..] == [pairs[2]] + [];
    HandleAllStep(maxDepth, second, pairs[2], [], event, source, target, depth);
  }

  /** After the golem's first move: it left (0, 5), where the player does not stand, so nobody reacts. */
  ghost function AfterFirstMove(): State
  {
    AfterArmorGain().(position := map[PLAYER := Position(0, 0), GOLEM := Position(0, 0)],
                      events := AfterArmorGain().events + [Emitted(AfterMove(Position(0, 5)), GOLEM, GOLEM, 0)])
  }

  lemma GolemMovesNextToPlayer(maxDepth: nat)
    ensures Perform(maxDepth, AfterArmorGain(), Move(Position(0, 0)), GOLEM, GOLEM, 0) == AfterFirstMove()
  {
    var s := AfterArmorGain();
    var moved := Moved(s, GOLEM, Position(0, 0));
    assert moved.position == map[PLAYER := Position(0, 0), GOLEM := Position(0, 0)];
    var logged := moved.(events := moved.events + [Emitted(AfterMove(Position(0, 5)), GOLEM, GOLEM, 0)]);
    assert logged == AfterFirstMove();
    PlaygroundPairs();
    HandlePlaygroundPairs(maxDepth, logged, AfterMove(Position(0, 5)), GOLEM, GOLEM, 0);
    assert !OpportunityGiven(logged, GOLEM, PLAYER, Position(0, 5));
    OpportunityAttackFires(maxDepth, logged, Position(0, 5), GOLEM, GOLEM, PLAYER, 10, 0);
    UnmatchedPairsChangeNothing(maxDepth, logged, AfterMove(Position(0, 5)), GOLEM, GOLEM, GOLEM, Reinforce(3), 0);
    UnmatchedPairsChangeNothing(maxDepth, logged, AfterMove(Position(0, 5)), GOLEM, GOLEM, GOLEM, Spite(50), 0);
  }

  /** No store of `s` holds the player or the golem. */
  ghost predicate BothGone(s: State)
  {
    && PLAYER !in s.allegiance && PLAYER !in s.armor && PLAYER !in s.health
    && PLAYER !in s.position && PLAYER !in s.reactions
    && GOLEM !in s.allegiance && GOLEM !in s.armor && GOLEM !in s.health
    && GOLEM !in s.position && GOLEM !in s.reactions
  }

  /**
   * The golem's Spite answers its own destruction by hitting the player
   * for 50, one level deeper, which the player does not survive.
   */
  lemma SpiteTakesThePlayer(maxDepth: nat, s: State)
    requires maxDepth >= 2
    requires PLAYER in s.health && HealthAfter(s, PLAYER, 50) <= 0
    ensures var r := HandleAll(maxDepth, s, PlaygroundPairList(), BeforeDestroy, PLAYER, GOLEM, 1);
            PLAYER !in r.allegiance && PLAYER !in r.armor && PLAYER !in r.health
            && PLAYER !in r.position && PLAYER !in r.reactions
  {
    HandlePlaygroundPairs(maxDepth, s, BeforeDestroy, PLAYER, GOLEM, 1);
    DamageDestroys(maxDepth, s, 50, GOLEM, PLAYER, 2);
  }

  /**
   * The opportunity attack: 10 damage breaks the golem's 2 armor and kills
   * it; its Reinforce still fires on AfterDamage, and its Spite on
   * BeforeDestroy kills the player, whose 10 armor cannot stop 50.
   */
  lemma AttackTakesBoth(maxDepth: nat, s: State)
    requires maxDepth >= 2
    requires s.reactions == PlaygroundReactions()
    requires s.armor == map[PLAYER := Armor(10), GOLEM := Armor(2)]
    requires s.health == map[PLAYER := Health(10, 10), GOLEM := Health(2, 3)]
    ensures BothGone(Perform(maxDepth, s, Damage(10), PLAYER, GOLEM, 1))
  {
    var overflow := Overflow(s, GOLEM, 10);
    assert overflow == 8;
    var absorbed := Absorb(s, GOLEM, 10);
    var hurt := Hurt(absorbed, GOLEM, overflow);
    assert HealthAfter(s, GOLEM, 10) == -6;
    DamageSteps(maxDepth, s, 10, PLAYER, GOLEM, 1);
    EmitAfterDamage(maxDepth, hurt, PLAYER, GOLEM, 1);
    var notified := Emit(maxDepth, hurt, AfterDamage, PLAYER, GOLEM, 1);
    assert notified.reactions == PlaygroundReactions();
    assert notified.health[PLAYER] == Health(10, 10) && notified.armor[PLAYER] == Armor(10);
    var logged := notified.(events := notified.events + [Emitted(BeforeDestroy, PLAYER, GOLEM, 1)]);
    PlaygroundPairs();
    assert HealthAfter(logged, PLAYER, 50) == -30;
    SpiteTakesThePlayer(maxDepth, logged);
    var warned := HandleAll(maxDepth, logged, PlaygroundPairList(), BeforeDestroy, PLAYER, GOLEM, 1);
    assert warned == Emit(maxDepth, notified, BeforeDestroy, PLAYER, GOLEM, 1);
    assert Perform(maxDepth, notified, Destroy, PLAYER, GOLEM, 1) == Purge(warned, GOLEM);
  }

  /** In a world whose allocator stands at 3, only ids 1 and 2 can be stored: once both are gone, every store is empty. */
  lemma BothGoneEmptiesTheWorld(s: State)
    requires WellFormed(s) && s.nextEntity == 3 && BothGone(s)
    ensures s.allegiance == map[] && s.armor == map[] && s.health == map[] && s.position == map[] && s.reactions == map[]
  {
  }

  /**
   * The golem's second move: leaving (0, 0), where the player stands, draws
   * the player's opportunity attack, and the reactions run until neither
   * entity is left in any store.
   */
  lemma GolemWalksAway(maxDepth: nat)
    requires maxDepth >= 2
    ensures BothGone(Perform(maxDepth, AfterFirstMove(), Move(Position(0, 1)), GOLEM, GOLEM, 0))
  {
    var s := AfterFirstMove();
    var moved := Moved(s, GOLEM, Position(0, 1));
    var logged := moved.(events := moved.events + [Emitted(AfterMove(Position(0, 0)), GOLEM, GOLEM, 0)]);
    assert Perform(maxDepth, s, Move(Position(0, 1)), GOLEM, GOLEM, 0)
        == Emit(maxDepth, moved, AfterMove(Position(0, 0)), GOLEM, GOLEM, 0);
    PlaygroundPairs();
    HandlePlaygroundPairs(maxDepth, logged, AfterMove(Position(0, 0)), GOLEM, GOLEM, 0);
    assert OpportunityGiven(logged, GOLEM, PLAYER, Position(0, 0));
    AttackTakesBoth(maxDepth, logged);
    var attacked := Perform(maxDepth, logged, Damage(10), PLAYER, GOLEM, 1);
    var r := HandleAll(maxDepth, logged, PlaygroundPairList(), AfterMove(Position(0, 0)), GOLEM, GOLEM, 0);
    assert Cascades(attacked, r);
  }

  /**
   * The whole session of main.rs: two spawns, a hit, a query hit, an armor
   * gain and two moves leave a world with every store empty, provided the
   * depth bound lets the chain reach depth 2.
   */
  lemma SessionEndsWithAnEmptyWorld(maxDepth: nat)
    requires maxDepth >= 2
    ensures var spawned := Perform(maxDepth, Perform(maxDepth, Initial(), PlayerSpawn(), WORLD_ENTITY, WORLD_ENTITY, 0),
                                   GolemSpawn(), WORLD_ENTITY, WORLD_ENTITY, 0);
            var hit := Perform(maxDepth, spawned, Damage(1), PLAYER, GOLEM, 0);
            var queried := Query.PerformWithQuery(maxDepth, hit, Damage(1), PLAYER, GOLEMS_AT_HOME, 0);
            var armored := Perform(maxDepth, queried, GainArmor(5), PLAYER, PLAYER, 0);
            var closer := Perform(maxDepth, armored, Move(Position(0, 0)), GOLEM, GOLEM, 0);
            var away := Perform(maxDepth, closer, Move(Position(0, 1)), GOLEM, GOLEM, 0);
            && away.allegiance == map[] && away.armor == map[] && away.health == map[]
            && away.position == map[] && away.reactions == map[]
  {
    SpawnPlayerThenGolem(maxDepth);
    PlayerHitsGolem(maxDepth);
    PlayerHitsGolemsAtHome(maxDepth);
    PlayerGainsArmor(maxDepth);
    GolemMovesNextToPlayer(maxDepth);
    GolemWalksAway(maxDepth);
    var away := Perform(maxDepth, AfterFirstMove(), Move(Position(0, 1)), GOLEM, GOLEM, 0);
    InitialWorld();
    assert WellFormed(Spawned2());
    assert WellFormed(AfterFirstMove());
    BothGoneEmptiesTheWorld(away);
  }
}
