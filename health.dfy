/**
 * The health store (crates/world/src/systems/health.rs): health may fall to
 * zero or below, which signals death; `max` is informational only.
 */
module Healths {
  import opened Wrappers
  import opened Ids

  /** Health points; the source's `i64` fields are unbounded here. */
  datatype Health = Health(current: int, max: int)

  class HealthSystem {
    var healthMap: map<EntityId, Health>

    constructor ()
      ensures healthMap == map[]
    {
      healthMap := map[];
    }

    /** `_health(entity)`: the stored health, `None` when the entity has none. */
    function HealthOf(entity: EntityId): (r: Option<Health>)
      reads this
      ensures r.Some? <==> entity in healthMap
      ensures r.Some? ==> r.value == healthMap[entity]
    {
      if entity in healthMap then Some(healthMap[entity]) else None
    }

    /**
     * Subtracts `amount` from the current health of `entity`, without any
     * clamp, and says whether the entity is still alive; `None` and no change
     * when the entity has no health. `max` never changes.
     */
    method Lose(entity: EntityId, amount: int) returns (isAlive: Option<bool>)
      modifies this
      ensures entity !in old(healthMap) ==> isAlive == None && healthMap == old(healthMap)
      ensures entity in old(healthMap) ==>
        var before := old(healthMap)[entity];
        && healthMap == old(healthMap)[entity := Health(before.current - amount, before.max)]
        && isAlive == Some(before.current - amount > 0)
    {
      if entity !in healthMap {
        return None;
      }
      var health := healthMap[entity];
      health := health.(current := health.current - amount);
      healthMap := healthMap[entity := health];
      isAlive := Some(health.current > 0);
    }

    /** Gives `entity` the health `health`, overwriting any previous value. */
    method Insert(entity: EntityId, health: Health)
      modifies this
      ensures healthMap == old(healthMap)[entity := health]
      ensures HealthOf(entity) == Some(health)
      ensures forall e :: e != entity ==> HealthOf(e) == old(HealthOf(e))
    {
      healthMap := healthMap[entity := health];
    }

    /** Deletes the health of `entity`; a no-op when it has none. */
    method Remove(entity: EntityId)
      modifies this
      ensures healthMap == old(healthMap) - {entity}
      ensures HealthOf(entity) == None
      ensures forall e :: e != entity ==> HealthOf(e) == old(HealthOf(e))
    {
      healthMap := healthMap - {entity};
    }
  }
}
