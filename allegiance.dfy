/**
 * The allegiance store (crates/world/src/systems/allegiance.rs): a map from
 * entity to faction, together with the entity set of its keys that queries use.
 */
module Allegiances {
  import opened Wrappers
  import opened Ids
  import opened EntitySets

  datatype Allegiance = Player | Golem

  class AllegianceSystem {
    /** The ids that have an allegiance, kept equal to the key set of the map. */
    const entities: EntitySet
    var allegianceMap: map<EntityId, Allegiance>

    ghost predicate Valid()
      reads this, entities
    {
      entities.members == allegianceMap.Keys
    }

    constructor ()
      ensures Valid() && fresh(entities)
      ensures allegianceMap == map[]
    {
      entities := new EntitySet.Empty();
      allegianceMap := map[];
    }

    /** `allegiance(entity)`: the stored faction, `None` when the entity has none, which is when it is not in the index. */
    function AllegianceOf(entity: EntityId): (r: Option<Allegiance>)
      reads this, entities
      ensures r.Some? <==> entity in allegianceMap
      ensures r.Some? ==> r.value == allegianceMap[entity]
      ensures Valid() ==> (r.Some? <==> entity in entities.members)
    {
      if entity in allegianceMap then Some(allegianceMap[entity]) else None
    }

    /** `entities(allegiances)`: the ids whose faction is listed; an empty list yields the empty set. */
    method Entities(allegiances: seq<Allegiance>) returns (r: EntitySet)
      ensures fresh(r)
      ensures r.members == WithValueIn(allegianceMap, allegiances)
    {
      if |allegiances| == 0 {
        r := new EntitySet.Empty();
        return;
      }
      r := new EntitySet.Empty();
      var rest := allegianceMap.Keys;
      while rest != {}
        invariant fresh(r)
        invariant rest <= allegianceMap.Keys
        invariant r.members == set e | e in allegianceMap && e !in rest && allegianceMap[e] in allegiances
        decreases |rest|
      {
        var entity :| entity in rest;
        if allegianceMap[entity] in allegiances {
          r.Insert(entity);
        }
        rest := rest - {entity};
      }
    }

    /** Gives `entity` the faction `allegiance`, overwriting any previous one. */
    method Insert(entity: EntityId, allegiance: Allegiance)
      requires Valid()
      modifies this, entities
      ensures Valid()
      ensures allegianceMap == old(allegianceMap)[entity := allegiance]
      ensures AllegianceOf(entity) == Some(allegiance)
      ensures forall e :: e != entity ==> AllegianceOf(e) == old(AllegianceOf(e))
    {
      entities.Insert(entity);
      allegianceMap := allegianceMap[entity := allegiance];
    }

    /** Deletes the faction of `entity`; a no-op when it has none. */
    method Remove(entity: EntityId)
      requires Valid()
      modifies this, entities
      ensures Valid()
      ensures allegianceMap == old(allegianceMap) - {entity}
      ensures AllegianceOf(entity) == None
      ensures forall e :: e != entity ==> AllegianceOf(e) == old(AllegianceOf(e))
    {
      var _ := entities.Remove(entity);
      allegianceMap := allegianceMap - {entity};
    }
  }
}
