/**
 * The position store (crates/world/src/systems/position.rs): a map from entity
 * to grid coordinate, together with the entity set of its keys that queries use.
 */
module Positions {
  import opened Wrappers
  import opened Ids
  import opened EntitySets

  /** A grid coordinate; the source's `i64` fields are unbounded here. */
  datatype Position = Position(x: int, y: int)

  class PositionSystem {
    /** The ids that have a position, kept equal to the key set of the map. */
    const entities: EntitySet
    var positionMap: map<EntityId, Position>

    ghost predicate Valid()
      reads this, entities
    {
      entities.members == positionMap.Keys
    }

    constructor ()
      ensures Valid() && fresh(entities)
      ensures positionMap == map[]
    {
      entities := new EntitySet.Empty();
      positionMap := map[];
    }

    /** `position(entity)`: the stored coordinate, `None` when the entity has none, which is when it is not in the index. */
    function PositionOf(entity: EntityId): (r: Option<Position>)
      reads this, entities
      ensures r.Some? <==> entity in positionMap
      ensures r.Some? ==> r.value == positionMap[entity]
      ensures Valid() ==> (r.Some? <==> entity in entities.members)
    {
      if entity in positionMap then Some(positionMap[entity]) else None
    }

    /** `entities(positions)`: the ids standing on a listed coordinate; an empty list yields the empty set. */
    method Entities(positions: seq<Position>) returns (r: EntitySet)
      ensures fresh(r)
      ensures r.members == WithValueIn(positionMap, positions)
    {
      if |positions| == 0 {
        r := new EntitySet.Empty();
        return;
      }
      r := new EntitySet.Empty();
      var rest := positionMap.Keys;
      while rest != {}
        invariant fresh(r)
        invariant rest <= positionMap.Keys
        invariant r.members == set e | e in positionMap && e !in rest && positionMap[e] in positions
        decreases |rest|
      {
        var entity :| entity in rest;
        if positionMap[entity] in positions {
          r.Insert(entity);
        }
        rest := rest - {entity};
      }
    }

    /** Moves an entity that has a position; a no-op for one that has none. */
    method MoveTo(entity: EntityId, position: Position)
      requires Valid()
      modifies this
      ensures Valid()
      ensures positionMap.Keys == old(positionMap.Keys)
      ensures old(entity in positionMap) ==> positionMap == old(positionMap)[entity := position]
      ensures old(entity !in positionMap) ==> positionMap == old(positionMap)
      ensures forall e :: e != entity ==> PositionOf(e) == old(PositionOf(e))
    {
      if entity !in positionMap {
        return;
      }
      positionMap := positionMap[entity := position];
    }

    /** Places `entity` at `position`, overwriting any previous coordinate. */
    method Insert(entity: EntityId, position: Position)
      requires Valid()
      modifies this, entities
      ensures Valid()
      ensures positionMap == old(positionMap)[entity := position]
      ensures PositionOf(entity) == Some(position)
      ensures forall e :: e != entity ==> PositionOf(e) == old(PositionOf(e))
    {
      entities.Insert(entity);
      positionMap := positionMap[entity := position];
    }

    /** Deletes the coordinate of `entity`; a no-op when it has none. */
    method Remove(entity: EntityId)
      requires Valid()
      modifies this, entities
      ensures Valid()
      ensures positionMap == old(positionMap) - {entity}
      ensures PositionOf(entity) == None
      ensures forall e :: e != entity ==> PositionOf(e) == old(PositionOf(e))
    {
      var _ := entities.Remove(entity);
      positionMap := positionMap - {entity};
    }
  }
}
