/**
 * The armor store (crates/world/src/systems/armor.rs): armor absorbs damage,
 * never drops below zero, and passes the excess on as overflow.
 */
module Armors {
  import opened Wrappers
  import opened Ids

  /** Armor points; the source's `i64` is unbounded here. */
  datatype Armor = Armor(current: int)

  function Max0(n: int): int
  {
    if n < 0 then 0 else n
  }

  /**
   * The effect of losing `amount` armor: the new armor and the overflow
   * damage. The armor is clamped at zero, the overflow is what the armor
   * could not absorb, and together they account for the whole amount.
   */
  ghost function LoseArmor(armor: Armor, amount: int): (r: (Armor, int))
    ensures r.0.current == Max0(armor.current - amount) && r.0.current >= 0
    ensures r.1 == Max0(amount - armor.current) && r.1 >= 0
    ensures (armor.current - r.0.current) + r.1 == amount
  {
    var current := armor.current - amount;
    if current < 0 then (Armor(0), -current) else (Armor(current), 0)
  }

  class ArmorSystem {
    var armorMap: map<EntityId, Armor>

    constructor ()
      ensures armorMap == map[]
    {
      armorMap := map[];
    }

    /** `_armor(entity)`: the stored armor, `None` when the entity has none. */
    function ArmorOf(entity: EntityId): (r: Option<Armor>)
      reads this
      ensures r.Some? <==> entity in armorMap
      ensures r.Some? ==> r.value == armorMap[entity]
    {
      if entity in armorMap then Some(armorMap[entity]) else None
    }

    /** Adds `amount` to the armor of `entity`, with no upper clamp; a no-op without armor. */
    method Gain(entity: EntityId, amount: int)
      modifies this
      ensures entity !in old(armorMap) ==> armorMap == old(armorMap)
      ensures entity in old(armorMap) ==>
        armorMap == old(armorMap)[entity := Armor(old(armorMap)[entity].current + amount)]
    {
      if entity !in armorMap {
        return;
      }
      var armor := armorMap[entity];
      armor := armor.(current := armor.current + amount);
      armorMap := armorMap[entity := armor];
    }

    /**
     * Takes `amount` off the armor of `entity`, clamping at zero, and returns
     * the overflow damage; `None` and no change when the entity has no armor.
     */
    method Lose(entity: EntityId, amount: int) returns (overflow: Option<int>)
      modifies this
      ensures entity !in old(armorMap) ==> overflow == None && armorMap == old(armorMap)
      ensures entity in old(armorMap) ==>
        var (after, excess) := LoseArmor(old(armorMap)[entity], amount);
        overflow == Some(excess) && armorMap == old(armorMap)[entity := after]
    {
      if entity !in armorMap {
        return None;
      }
      var armor := armorMap[entity];
      armor := armor.(current := armor.current - amount);
      if armor.current < 0 {
        overflow := Some(-armor.current);
        armor := armor.(current := 0);
      } else {
        overflow := Some(0);
      }
      armorMap := armorMap[entity := armor];
    }

    /** Gives `entity` the armor `armor`, overwriting any previous value. */
    method Insert(entity: EntityId, armor: Armor)
      modifies this
      ensures armorMap == old(armorMap)[entity := armor]
      ensures ArmorOf(entity) == Some(armor)
      ensures forall e :: e != entity ==> ArmorOf(e) == old(ArmorOf(e))
    {
      armorMap := armorMap[entity := armor];
    }

    /** Deletes the armor of `entity`; a no-op when it has none. */
    method Remove(entity: EntityId)
      modifies this
      ensures armorMap == old(armorMap) - {entity}
      ensures ArmorOf(entity) == None
      ensures forall e :: e != entity ==> ArmorOf(e) == old(ArmorOf(e))
    {
      armorMap := armorMap - {entity};
    }
  }
}
