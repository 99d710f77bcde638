/**
 * The query engine (crates/world/src/entity_query.rs): a per-component
 * filter resolved into an entity set by store lookups and intersection, and
 * the fan-out of one action over that set.
 */
module Query {
  import opened Wrappers
  import opened Ids
  import opened EntitySets
  import opened Allegiances
  import opened Positions
  import opened WorldState
  import Dispatch

  /** `ComponentFilter`: ignore the component, require a listed value, or require the component at all. */
  datatype ComponentFilter<T> = Ignore | Include(values: seq<T>) | Any

  datatype EntityQuery = EntityQuery(allegianceFilter: ComponentFilter<Allegiance>,
                                     positionFilter: ComponentFilter<Position>)

  /**
   * A query with every dimension `Ignore` leaves the intersection without
   * operands, where the source's `unwrap` panics: such a query is refused.
   */
  predicate Resolvable(query: EntityQuery)
  {
    !query.allegianceFilter.Ignore? || !query.positionFilter.Ignore?
  }

  /** The set one dimension contributes to the intersection; `Ignore` contributes none. */
  ghost function Contribution<V>(m: map<EntityId, V>, filter: ComponentFilter<V>): Option<set<EntityId>>
  {
    match filter
    case Ignore => None
    case Include(values) => Some(WithValueIn(m, values))
    case Any => Some(m.Keys)
  }

  ghost function Contributions(s: State, query: EntityQuery): seq<Option<set<EntityId>>>
  {
    [Contribution(s.allegiance, query.allegianceFilter), Contribution(s.position, query.positionFilter)]
  }

  /** `World::entities`: the intersection of the contributions of both dimensions. */
  ghost function Resolve(s: State, query: EntityQuery): set<EntityId>
    requires Resolvable(query)
  {
    var sets := Contributions(s, query);
    ReduceIsIntersection(sets);
    assert if query.allegianceFilter.Ignore? then sets[1].Some? else sets[0].Some?;
    Reduce(sets).value
  }

  /** What a filter demands of one entity. */
  ghost predicate Satisfies<V>(m: map<EntityId, V>, filter: ComponentFilter<V>, e: EntityId)
  {
    match filter
    case Ignore => true
    case Include(values) => e in m && m[e] in values
    case Any => e in m
  }

  /**
   * An entity is in the resolved set exactly when it meets both filters: it
   * has every component not ignored, with a listed value where a list is given.
   */
  lemma {:induction false} ResolveMembership(s: State, query: EntityQuery)
    requires Resolvable(query)
    ensures forall e :: e in Resolve(s, query) <==>
      Satisfies(s.allegiance, query.allegianceFilter, e) && Satisfies(s.position, query.positionFilter, e)
  {
    var sets := Contributions(s, query);
    ReduceIsIntersection(sets);
    WithValueInMembership(s.allegiance, if query.allegianceFilter.Include? then query.allegianceFilter.values else []);
    WithValueInMembership(s.position, if query.positionFilter.Include? then query.positionFilter.values else []);
    forall e
      ensures e in Resolve(s, query) <==>
        Satisfies(s.allegiance, query.allegianceFilter, e) && Satisfies(s.position, query.positionFilter, e)
    {
      assert e in Reduce(sets).value <==> (sets[0].Some? ==> e in sets[0].value) && (sets[1].Some? ==> e in sets[1].value);
    }
  }

  /** `Include` of an empty list makes the whole result empty, whatever the other dimension says. */
  lemma IncludeNothingSelectsNothing(s: State, query: EntityQuery)
    requires query.allegianceFilter == Include([]) || query.positionFilter == Include([])
    ensures Resolvable(query) && Resolve(s, query) == {}
  {
    ResolveMembership(s, query);
  }

  /** Querying `Include(allegiances)` alone yields exactly the entities with one of those factions. */
  lemma QueryByAllegiance(s: State, allegiances: seq<Allegiance>)
    ensures var query := EntityQuery(Include(allegiances), Ignore);
      Resolve(s, query) == set e | e in s.allegiance && s.allegiance[e] in allegiances
  {
    ResolveMembership(s, EntityQuery(Include(allegiances), Ignore));
  }

  /** `Any` on both dimensions yields exactly the entities that have both components. */
  lemma AnyAnySelectsBoth(s: State)
    ensures Resolve(s, EntityQuery(Any, Any)) == s.allegiance.Keys * s.position.Keys
  {
    ResolveMembership(s, EntityQuery(Any, Any));
  }

  /** The loop of `perform_with_query`: one perform per target, same action, source and depth. */
  ghost function PerformAll(maxDepth: nat, s: State, targets: seq<EntityId>, action: Action,
                            source: EntityId, depth: nat): (r: State)
    ensures WellFormed(s) ==> WellFormed(r)
    ensures !action.Spawn? ==> Descends(s, r)
    decreases |targets|
  {
    if targets == [] then s
    else
      var next := Dispatch.Perform(maxDepth, s, action, source, targets[0], depth);
      var r := PerformAll(maxDepth, next, targets[1..], action, source, depth);
      assert !action.Spawn? ==> Descends(s, r) by {
        if !action.Spawn? { Dispatch.DescendsTransitive(s, next, r); }
      }
      r
  }

  /** `World::perform_with_query`: the targets are resolved once, on the state before the first perform. */
  ghost function PerformWithQuery(maxDepth: nat, s: State, action: Action, source: EntityId,
                                  query: EntityQuery, depth: nat): State
    requires Resolvable(query)
  {
    PerformAll(maxDepth, s, Ordered(Resolve(s, query)), action, source, depth)
  }

  /** Destroying a query's result removes every matched entity from every store. */
  lemma {:induction false} DestroyAllRemovesEveryTarget(maxDepth: nat, s: State, targets: seq<EntityId>,
                                                       source: EntityId, depth: nat)
    requires depth <= maxDepth
    ensures var r := PerformAll(maxDepth, s, targets, Destroy, source, depth);
      forall e :: e in targets ==>
        e !in r.allegiance && e !in r.armor && e !in r.health && e !in r.position && e !in r.reactions
    decreases |targets|
  {
    if targets != [] {
      var next := Dispatch.Perform(maxDepth, s, Destroy, source, targets[0], depth);
      DestroyAllRemovesEveryTarget(maxDepth, next, targets[1..], source, depth);
      var r := PerformAll(maxDepth, next, targets[1..], Destroy, source, depth);
      assert forall e :: e in targets ==> e == targets[0] || e in targets[1..];
    }
  }
}
