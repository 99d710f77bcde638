/**
 * The world itself (crates/world/src/lib.rs) and the `impl World` blocks of
 * crates/world/src/action.rs, event.rs and entity_query.rs, in their
 * imperative form: each method updates the five stores in place, and is
 * proved to leave exactly the state the dispatch functions describe.
 */
module Engine {
  import opened Wrappers
  import opened Ids
  import opened EntitySets
  import opened Allegiances
  import opened Armors
  import opened Healths
  import opened Positions
  import opened Reactions
  import opened WorldState
  import opened Query
  import Dispatch

  class World {
    const allegiance: AllegianceSystem
    const armor: ArmorSystem
    const health: HealthSystem
    const position: PositionSystem
    const reactions: ReactionSystem
    var nextEntity: EntityId
    /** The recursion bound: a perform deeper than this is aborted. */
    const maxDepth: nat
    /** Every `emit` so far, in order. */
    ghost var events: seq<Emitted>
    ghost var Repr: set<object>

    ghost predicate Valid()
      reads this, Repr
    {
      && Repr == {this, allegiance, allegiance.entities, armor, health, position, position.entities, reactions}
      && allegiance.entities != position.entities
      && allegiance.Valid() && position.Valid() && reactions.Valid()
      && WellFormed(Abs())
    }

    /** The world as a value. */
    ghost function Abs(): State
      reads this, allegiance, armor, health, position, reactions
    {
      State(allegiance.allegianceMap, armor.armorMap, health.healthMap, position.positionMap,
            reactions.reactionsMap, nextEntity, events)
    }

    /** `World::new`: empty stores and the allocator at id 1. */
    constructor (maxDepth: nat)
      ensures Valid() && fresh(Repr)
      ensures Abs() == Initial() && this.maxDepth == maxDepth
    {
      allegiance := new AllegianceSystem();
      armor := new ArmorSystem();
      health := new HealthSystem();
      position := new PositionSystem();
      reactions := new ReactionSystem();
      nextEntity := FIRST_ENTITY;
      this.maxDepth := maxDepth;
      events := [];
      new;
      Repr := {this, allegiance, allegiance.entities, armor, health, position, position.entities, reactions};
    }

    /** `World::perform`: dispatches on the action; aborted above `maxDepth`. */
    method Perform(action: Action, source: EntityId, target: EntityId, depth: nat)
      requires Valid()
      modifies Repr
      ensures Valid()
      ensures Abs() == Dispatch.Perform(maxDepth, old(Abs()), action, source, target, depth)
      decreases Dispatch.Budget(maxDepth, depth), Dispatch.Rank(action), 1
    {
      if depth > maxDepth {
        return;
      }
      match action {
        case Spawn(allegianceValue, armorValue, healthValue, positionValue, reactionList) =>
          PerformSpawn(allegianceValue, armorValue, healthValue, positionValue, reactionList);
        case Destroy =>
          PerformDestroy(source, target, depth);
        case Move(toPosition) =>
          PerformMove(toPosition, source, target, depth);
        case Damage(amount) =>
          PerformDamage(amount, source, target, depth);
        case GainArmor(amount) =>
          armor.Gain(target, amount);
      }
    }

    /** The Spawn arm: allocates the next id and inserts the given components. */
    method PerformSpawn(allegianceValue: Option<Allegiance>, armorValue: Option<Armor>, healthValue: Option<Health>,
                        positionValue: Option<Position>, reactionList: seq<Reaction>)
      requires Valid()
      modifies Repr
      ensures Valid()
      ensures Abs() == Dispatch.Spawned(old(Abs()), allegianceValue, armorValue, healthValue, positionValue, reactionList)
    {
      ghost var before := Abs();
      var entity := nextEntity;
      nextEntity := entity + 1;
      SpawnAllegiance(entity, allegianceValue);
      SpawnArmor(entity, armorValue);
      SpawnHealth(entity, healthValue);
      SpawnPosition(entity, positionValue);
      reactions.Insert(entity, reactionList);
      assert Abs() == Dispatch.Spawned(before, allegianceValue, armorValue, healthValue, positionValue, reactionList);
    }

    /** Spawn's allegiance step: the faction is stored only when one is given. */
    method SpawnAllegiance(entity: EntityId, value: Option<Allegiance>)
      requires allegiance.Valid()
      modifies allegiance, allegiance.entities
      ensures allegiance.Valid()
      ensures allegiance.allegianceMap
           == if value.Some? then old(allegiance.allegianceMap)[entity := value.value] else old(allegiance.allegianceMap)
    {
      if value.Some? {
        allegiance.Insert(entity, value.value);
      }
    }

    /** Spawn's armor step. */
    method SpawnArmor(entity: EntityId, value: Option<Armor>)
      modifies armor
      ensures armor.armorMap == if value.Some? then old(armor.armorMap)[entity := value.value] else old(armor.armorMap)
    {
      if value.Some? {
        armor.Insert(entity, value.value);
      }
    }

    /** Spawn's health step. */
    method SpawnHealth(entity: EntityId, value: Option<Health>)
      modifies health
      ensures health.healthMap == if value.Some? then old(health.healthMap)[entity := value.value] else old(health.healthMap)
    {
      if value.Some? {
        health.Insert(entity, value.value);
      }
    }

    /** Spawn's position step. */
    method SpawnPosition(entity: EntityId, value: Option<Position>)
      requires position.Valid()
      modifies position, position.entities
      ensures position.Valid()
      ensures position.positionMap
           == if value.Some? then old(position.positionMap)[entity := value.value] else old(position.positionMap)
    {
      if value.Some? {
        position.Insert(entity, value.value);
      }
    }

    /** The Destroy arm: BeforeDestroy first, then removal from all five stores. */
    method PerformDestroy(source: EntityId, target: EntityId, depth: nat)
      requires Valid() && depth <= maxDepth
      modifies Repr
      ensures Valid()
      ensures Abs() == Dispatch.Perform(maxDepth, old(Abs()), Destroy, source, target, depth)
      decreases Dispatch.Budget(maxDepth, depth), Dispatch.Rank(Destroy), 0
    {
      Emit(BeforeDestroy, source, target, depth);
      ghost var warned := Abs();
      allegiance.Remove(target);
      armor.Remove(target);
      health.Remove(target);
      position.Remove(target);
      reactions.Remove(target);
      assert Abs() == Dispatch.Purge(warned, target);
      assert WellFormed(Abs());
    }

    /** The Move arm: nothing without a position; otherwise move, then AfterMove with the old position. */
    method PerformMove(toPosition: Position, source: EntityId, target: EntityId, depth: nat)
      requires Valid() && depth <= maxDepth
      modifies Repr
      ensures Valid()
      ensures Abs() == Dispatch.Perform(maxDepth, old(Abs()), Move(toPosition), source, target, depth)
      decreases Dispatch.Budget(maxDepth, depth), Dispatch.Rank(Move(toPosition)), 0
    {
      var fromPosition := position.PositionOf(target);
      if fromPosition.None? {
        return;
      }
      position.MoveTo(target, toPosition);
      Emit(AfterMove(fromPosition.value), source, target, depth);
    }

    /** The Damage arm: armor, then health, then AfterDamage and Destroy as the results demand. */
    method PerformDamage(amount: int, source: EntityId, target: EntityId, depth: nat)
      requires Valid() && depth <= maxDepth
      modifies Repr
      ensures Valid()
      ensures Abs() == Dispatch.PerformDamage(maxDepth, old(Abs()), amount, source, target, depth)
      decreases Dispatch.Budget(maxDepth, depth), Dispatch.Rank(Damage(amount)), 0
    {
      ghost var s := Abs();
      var overflowDamage, isAlive := Wound(amount, target);
      if isAlive.None? {
        return;
      }
      ghost var hurt := Abs();
      if overflowDamage > 0 {
        Emit(AfterDamage, source, target, depth);
      }
      assert Abs() == if overflowDamage > 0 then Dispatch.Emit(maxDepth, hurt, AfterDamage, source, target, depth) else hurt;
      if !isAlive.value {
        Perform(Destroy, source, target, depth);
      }
    }

    /**
     * The first two steps of the Damage arm: armor absorbs what it can and
     * health loses the overflow; `isAlive` is `None` when the target has no health.
     */
    method Wound(amount: int, target: EntityId) returns (overflowDamage: int, isAlive: Option<bool>)
      requires Valid()
      modifies armor, health
      ensures Valid()
      ensures overflowDamage == Dispatch.Overflow(old(Abs()), target, amount)
      ensures isAlive.None? <==> target !in old(Abs()).health
      ensures isAlive.None? ==> Abs() == Dispatch.Absorb(old(Abs()), target, amount)
      ensures isAlive.Some? ==>
        && Abs() == Dispatch.Hurt(Dispatch.Absorb(old(Abs()), target, amount), target, overflowDamage)
        && isAlive.value == (old(Abs()).health[target].current - overflowDamage > 0)
    {
      ghost var s := Abs();
      var lost := armor.Lose(target, amount);
      overflowDamage := lost.UnwrapOr(amount);
      assert Abs() == Dispatch.Absorb(s, target, amount);
      isAlive := health.Lose(target, overflowDamage);
    }

    /** `World::emit`: broadcasts to a snapshot of the reaction store, reactor by reactor, in list order. */
    method Emit(event: Event, source: EntityId, target: EntityId, depth: nat)
      requires Valid() && depth <= maxDepth
      modifies Repr
      ensures Valid()
      ensures Abs() == Dispatch.Emit(maxDepth, old(Abs()), event, source, target, depth)
      decreases Dispatch.Budget(maxDepth, depth), 2, 0
    {
      ghost var goal := Dispatch.Emit(maxDepth, Abs(), event, source, target, depth);
      events := events + [Emitted(event, source, target, depth)];
      var snapshot := reactions.reactionsMap;
      var reactors := SortedIds(snapshot.Keys);
      OrderedIsSortedEnumeration(snapshot.Keys);
      assert reactors[0..] == reactors;
      for i := 0 to |reactors|
        invariant Valid()
        invariant Dispatch.HandleAll(maxDepth, Abs(), Dispatch.PairsOver(snapshot, reactors[i..]),
                                     event, source, target, depth) == goal
      {
        var reactor := reactors[i];
        var reactionList := snapshot[reactor];
        ghost var here := Dispatch.Expand(reactor, reactionList);
        ghost var later := Dispatch.PairsOver(snapshot, reactors[i + 1..]);
        Dispatch.PairsOverStep(snapshot, reactors, i);
        Dispatch.HandleAllAppend(maxDepth, Abs(), here, later, event, source, target, depth);
        HandleReactions(event, source, target, reactor, reactionList, depth);
      }
    }

    /** The inner loop of `emit`: one reactor's reactions, in list order. */
    method HandleReactions(event: Event, source: EntityId, target: EntityId, reactor: EntityId,
                           reactionList: seq<Reaction>, depth: nat)
      requires Valid() && depth <= maxDepth
      modifies Repr
      ensures Valid()
      ensures Abs() == Dispatch.HandleAll(maxDepth, old(Abs()), Dispatch.Expand(reactor, reactionList),
                                          event, source, target, depth)
      decreases Dispatch.Budget(maxDepth, depth), 1, 0
    {
      ghost var goal := Dispatch.HandleAll(maxDepth, Abs(), Dispatch.Expand(reactor, reactionList),
                                           event, source, target, depth);
      assert reactionList[0..] == reactionList;
      for j := 0 to |reactionList|
        invariant Valid()
        invariant Dispatch.HandleAll(maxDepth, Abs(), Dispatch.Expand(reactor, reactionList[j..]),
                                     event, source, target, depth) == goal
      {
        Dispatch.ExpandStep(reactor, reactionList, j);
        Dispatch.HandleAllStep(maxDepth, Abs(), (reactor, reactionList[j]),
                               Dispatch.Expand(reactor, reactionList[j + 1..]), event, source, target, depth);
        HandleEvent(event, source, target, reactor, reactionList[j], depth);
      }
      assert reactionList[|reactionList|..] == [];
    }

    /** `World::handle_event`: fires `reaction` of `reactor` when its trigger matches the event. */
    method HandleEvent(event: Event, source: EntityId, target: EntityId, reactor: EntityId,
                       reaction: Reaction, depth: nat)
      requires Valid() && depth <= maxDepth
      modifies Repr
      ensures Valid()
      ensures Abs() == Dispatch.HandleEvent(maxDepth, old(Abs()), event, source, target, reactor, reaction, depth)
      decreases Dispatch.Budget(maxDepth, depth), 0, 0
    {
      match (event, reaction) {
        case (AfterMove(fromPosition), OpportunityAttack(damageAmount)) =>
          var reactorAllegiance := allegiance.AllegianceOf(reactor);
          if reactorAllegiance.None? {
            return;
          }
          var targetAllegiance := allegiance.AllegianceOf(target);
          if targetAllegiance.None? {
            return;
          }
          if !(targetAllegiance.value != reactorAllegiance.value) {
            return;
          }
          var reactorPosition := position.PositionOf(reactor);
          if reactorPosition.None? {
            return;
          }
          if !(fromPosition == reactorPosition.value) {
            return;
          }
          Perform(Damage(damageAmount), reactor, target, depth + 1);
        case (AfterDamage, Reinforce(armorAmount)) =>
          if !(target == reactor) {
            return;
          }
          Perform(GainArmor(armorAmount), reactor, reactor, depth + 1);
        case (BeforeDestroy, Spite(damageAmount)) =>
          if !(target == reactor) {
            return;
          }
          Perform(Damage(damageAmount), reactor, source, depth + 1);
        case _ =>
      }
    }

    /** `World::entities`: resolves a query against the stores and their entity sets. */
    method Entities(query: EntityQuery) returns (r: EntitySet)
      requires Valid() && Resolvable(query)
      ensures fresh(r)
      ensures r.members == Resolve(Abs(), query)
    {
      var allegianceEntities: Option<EntitySet> := None;
      if query.allegianceFilter.Include? {
        var found := allegiance.Entities(query.allegianceFilter.values);
        allegianceEntities := Some(found);
      }
      var positionEntities: Option<EntitySet> := None;
      if query.positionFilter.Include? {
        var found := position.Entities(query.positionFilter.values);
        positionEntities := Some(found);
      }
      var first := match query.allegianceFilter
        case Ignore => None
        case Include(_) => allegianceEntities
        case Any => Some(allegiance.entities);
      var second := match query.positionFilter
        case Ignore => None
        case Include(_) => positionEntities
        case Any => Some(position.entities);
      var sets := [first, second];
      assert MembersOf(sets) == Contributions(Abs(), query);
      assert if query.allegianceFilter.Ignore? then sets[1].Some? else sets[0].Some?;
      r := EntitySet.Intersection(sets);
    }

    /** `World::perform_with_query`: resolves the targets once, then performs on each in turn. */
    method PerformWithQuery(action: Action, source: EntityId, query: EntityQuery, depth: nat)
      requires Valid() && Resolvable(query)
      modifies Repr
      ensures Valid()
      ensures Abs() == Query.PerformWithQuery(maxDepth, old(Abs()), action, source, query, depth)
    {
      var targets := Entities(query);
      var ids := targets.Iter();
      ghost var goal := PerformAll(maxDepth, Abs(), ids, action, source, depth);
      for i := 0 to |ids|
        invariant Valid()
        invariant PerformAll(maxDepth, Abs(), ids[i..], action, source, depth) == goal
      {
        assert ids[i..][1..] == ids[i + 1..];
        Perform(action, source, ids[i], depth);
      }
    }
  }
}
