/**
 * The state of a world (crates/world/src/lib.rs) as a value: the five
 * component stores, the id allocator and the log of emitted events, plus the
 * `Action` and `Event` enums of crates/world/src/action.rs and event.rs.
 */
module WorldState {
  import opened Wrappers
  import opened Ids
  import opened Allegiances
  import opened Armors
  import opened Healths
  import opened Positions
  import opened Reactions

  /** `Event`: a fact broadcast after (or, for `BeforeDestroy`, before) an action commits. */
  datatype Event = AfterMove(fromPosition: Position) | AfterDamage | BeforeDestroy

  /** `Action`: the closed set of mutations a source may apply to a target. */
  datatype Action =
    | Spawn(allegiance: Option<Allegiance>, armor: Option<Armor>, health: Option<Health>,
            position: Option<Position>, reactions: seq<Reaction>)
    | Destroy
    | Move(toPosition: Position)
    | Damage(amount: int)
    | GainArmor(amount: int)

  /** One `emit` call: the event and the pair and depth it was emitted with. */
  datatype Emitted = Emitted(event: Event, source: EntityId, target: EntityId, depth: nat)

  datatype State = State(
    allegiance: map<EntityId, Allegiance>,
    armor: map<EntityId, Armor>,
    health: map<EntityId, Health>,
    position: map<EntityId, Position>,
    reactions: map<EntityId, seq<Reaction>>,
    nextEntity: EntityId,
    events: seq<Emitted>)

  /** `World::new`: every store empty and the allocator at the first id. */
  ghost function Initial(): State
  {
    State(map[], map[], map[], map[], map[], FIRST_ENTITY, [])
  }

  /** Every id stored in `m` was handed out by the allocator, and none is the world sentinel. */
  ghost predicate IdsAllocated<V>(m: map<EntityId, V>, next: EntityId)
  {
    forall e :: e in m ==> FIRST_ENTITY <= e < next
  }

  /** The invariant of a world: stored ids were allocated and stored reaction lists are non-empty. */
  ghost predicate WellFormed(s: State)
  {
    && FIRST_ENTITY <= s.nextEntity
    && IdsAllocated(s.allegiance, s.nextEntity)
    && IdsAllocated(s.armor, s.nextEntity)
    && IdsAllocated(s.health, s.nextEntity)
    && IdsAllocated(s.position, s.nextEntity)
    && IdsAllocated(s.reactions, s.nextEntity)
    && forall e :: e in s.reactions ==> |s.reactions[e]| > 0
  }

  ghost predicate SubMap<V>(small: map<EntityId, V>, large: map<EntityId, V>)
  {
    forall e :: e in small ==> e in large && small[e] == large[e]
  }

  /**
   * What any action other than a spawn may do to a state: no id is
   * allocated, the event log only grows, allegiances and reaction lists are
   * only removed, and the other stores only lose keys.
   */
  ghost predicate Descends(s: State, r: State)
  {
    && r.nextEntity == s.nextEntity
    && s.events <= r.events
    && SubMap(r.allegiance, s.allegiance)
    && SubMap(r.reactions, s.reactions)
    && r.armor.Keys <= s.armor.Keys
    && r.health.Keys <= s.health.Keys
    && r.position.Keys <= s.position.Keys
  }

  /** What a reaction cascade may do: as `Descends`, and no remaining entity moves. */
  ghost predicate Cascades(s: State, r: State)
  {
    Descends(s, r) && SubMap(r.position, s.position)
  }

  /** A fresh world has the allocator at 1, above the sentinel 0, and all five stores empty. */
  lemma InitialWorld()
    ensures Initial().nextEntity == FIRST_ENTITY == 1 && WORLD_ENTITY < Initial().nextEntity
    ensures Initial().allegiance == map[] && Initial().armor == map[] && Initial().health == map[]
    ensures Initial().position == map[] && Initial().reactions == map[]
    ensures WellFormed(Initial())
  {
  }
}
