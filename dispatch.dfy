/**
 * The action and event dispatchers (crates/world/src/action.rs and
 * crates/world/src/event.rs) as functions on world states.
 *
 * `perform` -> `emit` -> `handle_event` -> `perform` has no recursion guard
 * in the source; the model bounds it by `maxDepth`: a perform at a depth
 * above `maxDepth` is aborted and changes nothing. Depth grows only where a
 * reaction fires. `emit` handles the reactors in ascending id order.
 */
module Dispatch {
  import opened Wrappers
  import opened Ids
  import opened EntitySets
  import opened Allegiances
  import opened Armors
  import opened Healths
  import opened Positions
  import opened Reactions
  import opened WorldState

  /** The recursion budget left at `depth`: it shrinks by one each time a reaction fires. */
  function Budget(maxDepth: nat, depth: nat): nat
  {
    if depth <= maxDepth then maxDepth - depth + 1 else 0
  }

  /** Damage may dispatch a Destroy at the same depth, so it ranks above the other actions. */
  function Rank(action: Action): nat
  {
    if action.Damage? then 5 else 3
  }

  /** The damage that reaches health: the armor overflow, or the whole amount without armor. */
  ghost function Overflow(s: State, target: EntityId, amount: int): int
  {
    if target in s.armor then LoseArmor(s.armor[target], amount).1 else amount
  }

  /** The state after `target` loses `amount` armor (armor.rs `lose`). */
  ghost function Absorb(s: State, target: EntityId, amount: int): (r: State)
    ensures Cascades(s, r) && (WellFormed(s) ==> WellFormed(r))
    ensures r.health == s.health
  {
    if target in s.armor then s.(armor := s.armor[target := LoseArmor(s.armor[target], amount).0]) else s
  }

  /** The state after `target`, which has health, loses `amount` health (health.rs `lose`). */
  ghost function Hurt(s: State, target: EntityId, amount: int): (r: State)
    requires target in s.health
    ensures Cascades(s, r) && (WellFormed(s) ==> WellFormed(r))
  {
    var health := s.health[target];
    s.(health := s.health[target := Health(health.current - amount, health.max)])
  }

  /** The state after `target` gains `amount` armor (armor.rs `gain`). */
  ghost function Reinforced(s: State, target: EntityId, amount: int): (r: State)
    ensures Cascades(s, r) && (WellFormed(s) ==> WellFormed(r))
  {
    if target in s.armor then s.(armor := s.armor[target := Armor(s.armor[target].current + amount)]) else s
  }

  /** The state after `target`, which has a position, moves to `to` (position.rs `move_to`). */
  ghost function Moved(s: State, target: EntityId, to: Position): (r: State)
    requires target in s.position
    ensures Descends(s, r) && (WellFormed(s) ==> WellFormed(r))
  {
    s.(position := s.position[target := to])
  }

  /** The state with `target` removed from all five stores. */
  ghost function Purge(s: State, target: EntityId): (r: State)
    ensures Cascades(s, r) && (WellFormed(s) ==> WellFormed(r))
  {
    s.(allegiance := s.allegiance - {target}, armor := s.armor - {target}, health := s.health - {target},
       position := s.position - {target}, reactions := s.reactions - {target})
  }

  /** The state after a spawn: the next id receives exactly the given components. */
  ghost function Spawned(s: State, allegiance: Option<Allegiance>, armor: Option<Armor>, health: Option<Health>,
                         position: Option<Position>, reactions: seq<Reaction>): (r: State)
    ensures WellFormed(s) ==> WellFormed(r)
  {
    var entity := s.nextEntity;
    var r := s.(nextEntity := entity + 1,
                allegiance := if allegiance.Some? then s.allegiance[entity := allegiance.value] else s.allegiance,
                armor := if armor.Some? then s.armor[entity := armor.value] else s.armor,
                health := if health.Some? then s.health[entity := health.value] else s.health,
                position := if position.Some? then s.position[entity := position.value] else s.position,
                reactions := if |reactions| > 0 then s.reactions[entity := reactions] else s.reactions);
    assert WellFormed(s) ==> WellFormed(r) by {
      if WellFormed(s) {
        AllocationGrows(s.allegiance, entity, allegiance);
        AllocationGrows(s.armor, entity, armor);
        AllocationGrows(s.health, entity, health);
        AllocationGrows(s.position, entity, position);
        AllocationGrows(s.reactions, entity, if |reactions| > 0 then Some(reactions) else None);
        assert forall e :: e in r.reactions ==> e == entity || e in s.reactions;
      }
    }
    r
  }

  /** Storing a component for the next id keeps every stored id allocated once the allocator moves on. */
  lemma AllocationGrows<V>(m: map<EntityId, V>, next: EntityId, component: Option<V>)
    requires IdsAllocated(m, next) && FIRST_ENTITY <= next
    ensures IdsAllocated(if component.Some? then m[next := component.value] else m, next + 1)
  {
  }

  lemma DescendsTransitive(a: State, b: State, c: State)
    requires Descends(a, b) && Descends(b, c)
    ensures Descends(a, c)
  {
  }

  lemma CascadesTransitive(a: State, b: State, c: State)
    requires Cascades(a, b) && Cascades(b, c)
    ensures Cascades(a, c)
  {
  }

  /** Losing keys, keeping the allocator and the remaining reaction lists keeps a world well-formed. */
  lemma DescendsKeepsWellFormed(s: State, r: State)
    requires WellFormed(s) && Descends(s, r)
    ensures WellFormed(r)
  {
  }

  /** Four cascading steps in a row cascade, and keep a well-formed world well-formed. */
  lemma CascadeChain(s: State, a: State, b: State, c: State, r: State)
    requires Cascades(s, a) && Cascades(a, b) && Cascades(b, c) && Cascades(c, r)
    ensures Cascades(s, r) && (WellFormed(s) ==> WellFormed(r))
  {
    CascadesTransitive(s, a, b);
    CascadesTransitive(s, b, c);
    CascadesTransitive(s, c, r);
    if WellFormed(s) {
      DescendsKeepsWellFormed(s, r);
    }
  }

  /** `World::perform`. */
  ghost function Perform(maxDepth: nat, s: State, action: Action, source: EntityId, target: EntityId, depth: nat): (r: State)
    ensures WellFormed(s) ==> WellFormed(r)
    ensures !action.Spawn? && !action.Move? ==> Cascades(s, r)
    ensures action.Move? ==> Descends(s, r)
    decreases Budget(maxDepth, depth), Rank(action), 0
  {
    if depth > maxDepth then s
    else match action
      case Spawn(allegiance, armor, health, position, reactions) =>
        Spawned(s, allegiance, armor, health, position, reactions)
      case Destroy =>
        var warned := Emit(maxDepth, s, BeforeDestroy, source, target, depth);
        var r := Purge(warned, target);
        CascadesTransitive(s, warned, r);
        assert WellFormed(s) ==> WellFormed(r) by { if WellFormed(s) { DescendsKeepsWellFormed(s, r); } }
        r
      case Move(toPosition) =>
        if target !in s.position then s
        else
          var moved := Moved(s, target, toPosition);
          var r := Emit(maxDepth, moved, AfterMove(s.position[target]), source, target, depth);
          DescendsTransitive(s, moved, r);
          assert WellFormed(s) ==> WellFormed(r) by { if WellFormed(s) { DescendsKeepsWellFormed(s, r); } }
          r
      case Damage(amount) => PerformDamage(maxDepth, s, amount, source, target, depth)
      case GainArmor(amount) => Reinforced(s, target, amount)
  }

  /**
   * The Damage arm of `perform`: armor first, then health with the
   * overflow; AfterDamage when some damage reached health, and a Destroy at
   * the same depth when health is no longer positive.
   */
  ghost function PerformDamage(maxDepth: nat, s: State, amount: int, source: EntityId, target: EntityId, depth: nat): (r: State)
    requires depth <= maxDepth
    ensures WellFormed(s) ==> WellFormed(r)
    ensures Cascades(s, r)
    decreases Budget(maxDepth, depth), 4, 0
  {
    var overflow := Overflow(s, target, amount);
    var absorbed := Absorb(s, target, amount);
    if target !in absorbed.health then absorbed
    else
      var hurt := Hurt(absorbed, target, overflow);
      var notified := if overflow > 0 then Emit(maxDepth, hurt, AfterDamage, source, target, depth) else hurt;
      var alive := s.health[target].current - overflow > 0;
      var r := if alive then notified else Perform(maxDepth, notified, Destroy, source, target, depth);
      CascadeChain(s, absorbed, hurt, notified, r);
      r
  }

  /** The (reactor, reaction) pairs of one reactor's list, in list order. */
  ghost function Expand(reactor: EntityId, reactions: seq<Reaction>): seq<(EntityId, Reaction)>
    decreases |reactions|
  {
    if reactions == [] then [] else [(reactor, reactions[0])] + Expand(reactor, reactions[1..])
  }

  /** The pairs of the listed reactors, reactor after reactor. */
  ghost function PairsOver(snapshot: map<EntityId, seq<Reaction>>, reactors: seq<EntityId>): seq<(EntityId, Reaction)>
    requires forall e :: e in reactors ==> e in snapshot
    decreases |reactors|
  {
    if reactors == [] then [] else Expand(reactors[0], snapshot[reactors[0]]) + PairsOver(snapshot, reactors[1..])
  }

  /** Every (reactor, reaction) pair of a snapshot of the reaction store, in visiting order. */
  ghost function Pairs(snapshot: map<EntityId, seq<Reaction>>): seq<(EntityId, Reaction)>
  {
    OrderedIsSortedEnumeration(snapshot.Keys);
    PairsOver(snapshot, Ordered(snapshot.Keys))
  }

  lemma ExpandStep(reactor: EntityId, reactions: seq<Reaction>, j: nat)
    requires j < |reactions|
    ensures Expand(reactor, reactions[j..]) == [(reactor, reactions[j])] + Expand(reactor, reactions[j + 1..])
  {
    assert reactions[j..][1..] == reactions[j + 1..];
  }

  lemma PairsOverStep(snapshot: map<EntityId, seq<Reaction>>, reactors: seq<EntityId>, i: nat)
    requires i < |reactors| && forall e :: e in reactors ==> e in snapshot
    ensures PairsOver(snapshot, reactors[i..])
         == Expand(reactors[i], snapshot[reactors[i]]) + PairsOver(snapshot, reactors[i + 1..])
  {
    assert reactors[i..][1..] == reactors[i + 1..];
  }

  /**
   * `World::emit`: the pairs are taken from the reaction store as it is
   * when the event is emitted, so reactions added or removed by the cascade
   * do not change which pairs are handled.
   */
  ghost function Emit(maxDepth: nat, s: State, event: Event, source: EntityId, target: EntityId, depth: nat): (r: State)
    requires depth <= maxDepth
    ensures Cascades(s, r)
    ensures |r.events| > |s.events| && r.events[|s.events|] == Emitted(event, source, target, depth)
    decreases Budget(maxDepth, depth), 2, 0
  {
    var logged := s.(events := s.events + [Emitted(event, source, target, depth)]);
    HandleAll(maxDepth, logged, Pairs(s.reactions), event, source, target, depth)
  }

  /** The loops of `emit`: every pair handled once, in order, each on the state the previous one left. */
  ghost function HandleAll(maxDepth: nat, s: State, pairs: seq<(EntityId, Reaction)>, event: Event,
                           source: EntityId, target: EntityId, depth: nat): (r: State)
    requires depth <= maxDepth
    ensures Cascades(s, r)
    decreases Budget(maxDepth, depth), 1, |pairs|
  {
    if pairs == [] then s
    else
      var next := HandleEvent(maxDepth, s, event, source, target, pairs[0].0, pairs[0].1, depth);
      HandleAll(maxDepth, next, pairs[1..], event, source, target, depth)
  }

  lemma HandleAllStep(maxDepth: nat, s: State, pair: (EntityId, Reaction), rest: seq<(EntityId, Reaction)>,
                      event: Event, source: EntityId, target: EntityId, depth: nat)
    requires depth <= maxDepth
    ensures HandleAll(maxDepth, s, [pair] + rest, event, source, target, depth)
         == HandleAll(maxDepth, HandleEvent(maxDepth, s, event, source, target, pair.0, pair.1, depth),
                      rest, event, source, target, depth)
  {
    assert ([pair] + rest)[1..] == rest;
  }

  /** Handling a concatenation of pair lists is handling one list after the other. */
  lemma {:induction false} HandleAllAppend(maxDepth: nat, s: State, first: seq<(EntityId, Reaction)>,
                                           second: seq<(EntityId, Reaction)>, event: Event,
                                           source: EntityId, target: EntityId, depth: nat)
    requires depth <= maxDepth
    ensures HandleAll(maxDepth, s, first + second, event, source, target, depth)
         == HandleAll(maxDepth, HandleAll(maxDepth, s, first, event, source, target, depth),
                      second, event, source, target, depth)
    decreases |first|
  {
    if first != [] {
      var next := HandleEvent(maxDepth, s, event, source, target, first[0].0, first[0].1, depth);
      assert (first + second)[0] == first[0];
      assert (first + second)[1..] == first[1..] + second;
      HandleAllAppend(maxDepth, next, first[1..], second, event, source, target, depth);
    } else {
      assert first + second == second;
    }
  }

  /** `World::handle_event`: whether `reaction` of `reactor` fires on `event`, and what it performs. */
  ghost function HandleEvent(maxDepth: nat, s: State, event: Event, source: EntityId, target: EntityId,
                             reactor: EntityId, reaction: Reaction, depth: nat): (r: State)
    requires depth <= maxDepth
    ensures Cascades(s, r)
    decreases Budget(maxDepth, depth), 0, 0
  {
    match (event, reaction)
    case (AfterMove(fromPosition), OpportunityAttack(damageAmount)) =>
      if && reactor in s.allegiance && target in s.allegiance
         && s.allegiance[target] != s.allegiance[reactor]
         && reactor in s.position && s.position[reactor] == fromPosition
      then Perform(maxDepth, s, Damage(damageAmount), reactor, target, depth + 1)
      else s
    case (AfterDamage, Reinforce(armorAmount)) =>
      if target == reactor then Perform(maxDepth, s, GainArmor(armorAmount), reactor, reactor, depth + 1) else s
    case (BeforeDestroy, Spite(damageAmount)) =>
      if target == reactor then Perform(maxDepth, s, Damage(damageAmount), reactor, source, depth + 1) else s
    case _ => s
  }
}
