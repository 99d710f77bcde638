/**
 * The reaction store (crates/world/src/systems/reaction.rs): each entity may
 * carry an ordered, non-empty list of reactions; an empty list is never stored.
 */
module Reactions {
  import opened Wrappers
  import opened Ids

  /** A declarative reaction; the event dispatcher interprets it. */
  datatype Reaction =
    | OpportunityAttack(damageAmount: int)
    | Reinforce(armorAmount: int)
    | Spite(damageAmount: int)

  class ReactionSystem {
    var reactionsMap: map<EntityId, seq<Reaction>>

    /** No stored list is empty. */
    ghost predicate Valid()
      reads this
    {
      forall e :: e in reactionsMap ==> |reactionsMap[e]| > 0
    }

    constructor ()
      ensures Valid() && reactionsMap == map[]
    {
      reactionsMap := map[];
    }

    /** `_reactions(entity)`: the stored list, in order; `None` when the entity has none. */
    function ReactionsOf(entity: EntityId): (r: Option<seq<Reaction>>)
      reads this
      ensures r.Some? <==> entity in reactionsMap
      ensures r.Some? ==> r.value == reactionsMap[entity]
      ensures Valid() && r.Some? ==> |r.value| > 0
    {
      if entity in reactionsMap then Some(reactionsMap[entity]) else None
    }

    /**
     * Stores a non-empty list for `entity`, overwriting any previous one. An
     * empty list changes nothing: it does not clear an existing entry either.
     */
    method Insert(entity: EntityId, reactions: seq<Reaction>)
      requires Valid()
      modifies this
      ensures Valid()
      ensures |reactions| == 0 ==> reactionsMap == old(reactionsMap)
      ensures |reactions| > 0 ==> reactionsMap == old(reactionsMap)[entity := reactions]
    {
      if |reactions| == 0 {
        return;
      }
      reactionsMap := reactionsMap[entity := reactions];
    }

    /** Deletes the list of `entity`; a no-op when it has none. */
    method Remove(entity: EntityId)
      requires Valid()
      modifies this
      ensures Valid()
      ensures reactionsMap == old(reactionsMap) - {entity}
      ensures ReactionsOf(entity) == None
      ensures forall e :: e != entity ==> ReactionsOf(e) == old(ReactionsOf(e))
    {
      reactionsMap := reactionsMap - {entity};
    }
  }
}
