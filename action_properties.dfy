/**
 * What each arm of `perform` (crates/world/src/action.rs) guarantees, stated
 * on the dispatch functions: the id a spawn hands out, the stores it fills,
 * the removal a destroy completes whatever its cascade did, what a move
 * records, and when damage emits AfterDamage and when it destroys.
 */
module ActionProperties {
  import opened Wrappers
  import opened Ids
  import opened Allegiances
  import opened Armors
  import opened Healths
  import opened Positions
  import opened Reactions
  import opened WorldState
  import opened Dispatch
  import opened EventProperties

  /** `after` agrees with `before` on every id other than `entity`. */
  ghost predicate SameExcept<V>(before: map<EntityId, V>, after: map<EntityId, V>, entity: EntityId)
  {
    forall e :: e != entity ==> (e in after <==> e in before) && (e in after ==> after[e] == before[e])
  }

  /** `entity` holds exactly `component` in `m`: present with that value for `Some`, absent for `None`. */
  ghost predicate Holds<V>(m: map<EntityId, V>, entity: EntityId, component: Option<V>)
  {
    (entity in m <==> component.Some?) && (entity in m ==> m[entity] == component.value)
  }

  /** A perform beyond the depth bound is aborted: whatever the action, nothing changes. */
  lemma AbortedPerformChangesNothing(maxDepth: nat, s: State, action: Action, source: EntityId,
                                     target: EntityId, depth: nat)
    requires depth > maxDepth
    ensures Perform(maxDepth, s, action, source, target, depth) == s
  {
  }

  /**
   * Spawn hands out the current `next_entity` and moves the allocator on by
   * one; in a well-formed world that id is in no store and is not the world
   * sentinel.
   */
  lemma SpawnAllocatesFreshId(maxDepth: nat, s: State, allegiance: Option<Allegiance>, armor: Option<Armor>,
                              health: Option<Health>, position: Option<Position>, reactions: seq<Reaction>,
                              source: EntityId, target: EntityId, depth: nat)
    requires WellFormed(s) && depth <= maxDepth
    ensures var r := Perform(maxDepth, s, Spawn(allegiance, armor, health, position, reactions), source, target, depth);
            && r.nextEntity == s.nextEntity + 1
            && s.nextEntity != WORLD_ENTITY
            && s.nextEntity !in s.allegiance && s.nextEntity !in s.armor && s.nextEntity !in s.health
            && s.nextEntity !in s.position && s.nextEntity !in s.reactions
  {
  }

  /**
   * Spawn gives the new id exactly the components that are `Some`, a
   * reaction entry only for a non-empty list, touches no other id and
   * emits no event.
   */
  lemma SpawnStoresExactlyTheGivenComponents(maxDepth: nat, s: State, allegiance: Option<Allegiance>,
                                             armor: Option<Armor>, health: Option<Health>,
                                             position: Option<Position>, reactions: seq<Reaction>,
                                             source: EntityId, target: EntityId, depth: nat)
    requires depth <= maxDepth
    ensures var r := Perform(maxDepth, s, Spawn(allegiance, armor, health, position, reactions), source, target, depth);
            var entity := s.nextEntity;
            && (allegiance.Some? ==> Holds(r.allegiance, entity, allegiance))
            && (armor.Some? ==> Holds(r.armor, entity, armor))
            && (health.Some? ==> Holds(r.health, entity, health))
            && (position.Some? ==> Holds(r.position, entity, position))
            && (|reactions| > 0 ==> Holds(r.reactions, entity, Some(reactions)))
            && SameExcept(s.allegiance, r.allegiance, entity) && SameExcept(s.armor, r.armor, entity)
            && SameExcept(s.health, r.health, entity) && SameExcept(s.position, r.position, entity)
            && SameExcept(s.reactions, r.reactions, entity)
            && r.events == s.events
  {
    var entity := s.nextEntity;
    assert Perform(maxDepth, s, Spawn(allegiance, armor, health, position, reactions), source, target, depth)
        == Spawned(s, allegiance, armor, health, position, reactions);
    StoreFor(s.allegiance, entity, allegiance);
    StoreFor(s.armor, entity, armor);
    StoreFor(s.health, entity, health);
    StoreFor(s.position, entity, position);
    StoreFor(s.reactions, entity, if |reactions| > 0 then Some(reactions) else None);
  }

  /** Storing an optional component for `entity` gives it that component and leaves every other id alone. */
  lemma StoreFor<V>(m: map<EntityId, V>, entity: EntityId, component: Option<V>)
    ensures var r := if component.Some? then m[entity := component.value] else m;
            && (component.Some? ==> Holds(r, entity, component))
            && SameExcept(m, r, entity)
  {
  }

  /** In a well-formed world the new id had nothing before, so a spawn leaves it holding exactly what it was given. */
  lemma SpawnIntoWellFormedWorld(maxDepth: nat, s: State, allegiance: Option<Allegiance>, armor: Option<Armor>,
                                 health: Option<Health>, position: Option<Position>, reactions: seq<Reaction>,
                                 source: EntityId, target: EntityId, depth: nat)
    requires WellFormed(s) && depth <= maxDepth
    ensures var r := Perform(maxDepth, s, Spawn(allegiance, armor, health, position, reactions), source, target, depth);
            var entity := s.nextEntity;
            && Holds(r.allegiance, entity, allegiance) && Holds(r.armor, entity, armor)
            && Holds(r.health, entity, health) && Holds(r.position, entity, position)
            && Holds(r.reactions, entity, if |reactions| > 0 then Some(reactions) else None)
            && WellFormed(r)
  {
    SpawnAllocatesFreshId(maxDepth, s, allegiance, armor, health, position, reactions, source, target, depth);
  }

  /**
   * Destroy broadcasts BeforeDestroy first, at the same depth, and when it
   * returns the target is in none of the five stores, whatever the
   * reactions to BeforeDestroy did.
   */
  lemma DestroyPurgesTheTarget(maxDepth: nat, s: State, source: EntityId, target: EntityId, depth: nat)
    requires depth <= maxDepth
    ensures var r := Perform(maxDepth, s, Destroy, source, target, depth);
            && |r.events| > |s.events| && r.events[|s.events|] == Emitted(BeforeDestroy, source, target, depth)
            && target !in r.allegiance && target !in r.armor && target !in r.health
            && target !in r.position && target !in r.reactions
            && r.nextEntity == s.nextEntity
  {
  }

  /** Move of an entity without a position changes nothing and emits nothing. */
  lemma MoveWithoutPositionChangesNothing(maxDepth: nat, s: State, toPosition: Position, source: EntityId,
                                          target: EntityId, depth: nat)
    requires target !in s.position
    ensures Perform(maxDepth, s, Move(toPosition), source, target, depth) == s
  {
  }

  /**
   * Move of a positioned entity broadcasts AfterMove carrying the position
   * it left, and the entity ends at `toPosition` unless the cascade
   * destroyed it; every other entity that still has a position keeps the
   * one it had.
   */
  lemma MoveRecordsTheDeparture(maxDepth: nat, s: State, toPosition: Position, source: EntityId,
                                target: EntityId, depth: nat)
    requires target in s.position && depth <= maxDepth
    ensures var r := Perform(maxDepth, s, Move(toPosition), source, target, depth);
            && |r.events| > |s.events|
            && r.events[|s.events|] == Emitted(AfterMove(s.position[target]), source, target, depth)
            && (target in r.position ==> r.position[target] == toPosition)
            && forall e :: e != target && e in r.position ==> e in s.position && r.position[e] == s.position[e]
  {
    var moved := Moved(s, target, toPosition);
    var r := Emit(maxDepth, moved, AfterMove(s.position[target]), source, target, depth);
    assert Cascades(moved, r);
  }

  /**
   * Damage to an entity without health stops after the armor: armor alone
   * changes, by the clamped loss, and no event is emitted.
   */
  lemma DamageWithoutHealth(maxDepth: nat, s: State, amount: int, source: EntityId, target: EntityId, depth: nat)
    requires target !in s.health && depth <= maxDepth
    ensures var r := Perform(maxDepth, s, Damage(amount), source, target, depth);
            && (target !in s.armor ==> r == s)
            && (target in s.armor ==> r == s.(armor := s.armor[target := LoseArmor(s.armor[target], amount).0]))
  {
  }

  /** The health of `target` once the overflow of `amount` reached it. */
  ghost function HealthAfter(s: State, target: EntityId, amount: int): int
    requires target in s.health
  {
    s.health[target].current - Overflow(s, target, amount)
  }

  /** The three steps of the Damage arm once the target has health: what it returns in each case. */
  lemma DamageSteps(maxDepth: nat, s: State, amount: int, source: EntityId, target: EntityId, depth: nat)
    requires target in s.health && depth <= maxDepth
    ensures var hurt := Hurt(Absorb(s, target, amount), target, Overflow(s, target, amount));
            var notified := if Overflow(s, target, amount) > 0 then Emit(maxDepth, hurt, AfterDamage, source, target, depth)
                            else hurt;
            Perform(maxDepth, s, Damage(amount), source, target, depth)
              == if HealthAfter(s, target, amount) > 0 then notified else Perform(maxDepth, notified, Destroy, source, target, depth)
  {
    assert Perform(maxDepth, s, Damage(amount), source, target, depth) == PerformDamage(maxDepth, s, amount, source, target, depth);
  }

  /** The overflow that reaches health is the armor's excess over its current value, or the whole amount without armor. */
  lemma OverflowIsWhatArmorCannotAbsorb(s: State, target: EntityId, amount: int)
    ensures Overflow(s, target, amount) == if target in s.armor then Max0(amount - s.armor[target].current) else amount
    ensures target in s.armor ==> Overflow(s, target, amount) >= 0
  {
  }

  /**
   * Damage the target survives: its health drops by the overflow and keeps
   * its max, its armor is what the loss left plus, when AfterDamage was
   * broadcast, its own Reinforce reactions; AfterDamage is the only event,
   * and only for a positive overflow; nothing else changes.
   */
  lemma DamageSurvived(maxDepth: nat, s: State, amount: int, source: EntityId, target: EntityId, depth: nat)
    requires target in s.health && depth <= maxDepth && HealthAfter(s, target, amount) > 0
    ensures var r := Perform(maxDepth, s, Damage(amount), source, target, depth);
            var overflow := Overflow(s, target, amount);
            var gain := if overflow > 0 then ReinforceGain(maxDepth, depth, s.reactions, target) else 0;
            && r.health == s.health[target := Health(HealthAfter(s, target, amount), s.health[target].max)]
            && r.armor == (if target in s.armor
                           then s.armor[target := Armor(LoseArmor(s.armor[target], amount).0.current + gain)]
                           else s.armor)
            && r.events == s.events + (if overflow > 0 then [Emitted(AfterDamage, source, target, depth)] else [])
            && r.allegiance == s.allegiance && r.position == s.position && r.reactions == s.reactions
            && r.nextEntity == s.nextEntity
  {
    if Overflow(s, target, amount) > 0 {
      SurvivedLoudly(maxDepth, s, amount, source, target, depth);
    } else {
      SurvivedQuietly(maxDepth, s, amount, source, target, depth);
      assert s.events + [] == s.events;
      if target in s.armor {
        assert LoseArmor(s.armor[target], amount).0 == Armor(LoseArmor(s.armor[target], amount).0.current + 0);
      }
    }
  }

  /** Survived damage that did not reach past the armor: health and armor change, nothing is emitted. */
  lemma SurvivedQuietly(maxDepth: nat, s: State, amount: int, source: EntityId, target: EntityId, depth: nat)
    requires target in s.health && depth <= maxDepth && HealthAfter(s, target, amount) > 0
    requires Overflow(s, target, amount) <= 0
    ensures Perform(maxDepth, s, Damage(amount), source, target, depth)
         == s.(health := s.health[target := Health(HealthAfter(s, target, amount), s.health[target].max)],
               armor := if target in s.armor then s.armor[target := LoseArmor(s.armor[target], amount).0] else s.armor)
  {
    DamageSteps(maxDepth, s, amount, source, target, depth);
  }

  /** Survived damage that reached health: AfterDamage is logged and the target's own Reinforce amounts come on top. */
  lemma SurvivedLoudly(maxDepth: nat, s: State, amount: int, source: EntityId, target: EntityId, depth: nat)
    requires target in s.health && depth <= maxDepth && HealthAfter(s, target, amount) > 0
    requires Overflow(s, target, amount) > 0
    ensures var gain := ReinforceGain(maxDepth, depth, s.reactions, target);
            Perform(maxDepth, s, Damage(amount), source, target, depth)
            == s.(health := s.health[target := Health(HealthAfter(s, target, amount), s.health[target].max)],
                  armor := if target in s.armor
                           then s.armor[target := Armor(LoseArmor(s.armor[target], amount).0.current + gain)]
                           else s.armor,
                  events := s.events + [Emitted(AfterDamage, source, target, depth)])
  {
    var hurt := Hurt(Absorb(s, target, amount), target, Overflow(s, target, amount));
    DamageSteps(maxDepth, s, amount, source, target, depth);
    EmitAfterDamage(maxDepth, hurt, source, target, depth);
  }

  /**
   * Damage the target does not survive: AfterDamage first when the overflow
   * is positive, then Destroy at the same depth (its BeforeDestroy is the
   * next event), and the target ends in none of the five stores.
   */
  lemma DamageDestroys(maxDepth: nat, s: State, amount: int, source: EntityId, target: EntityId, depth: nat)
    requires target in s.health && depth <= maxDepth && HealthAfter(s, target, amount) <= 0
    ensures var r := Perform(maxDepth, s, Damage(amount), source, target, depth);
            var overflow := Overflow(s, target, amount);
            var next := if overflow > 0 then |s.events| + 1 else |s.events|;
            && target !in r.allegiance && target !in r.armor && target !in r.health
            && target !in r.position && target !in r.reactions
            && |r.events| > next && r.events[next] == Emitted(BeforeDestroy, source, target, depth)
            && (overflow > 0 ==> r.events[|s.events|] == Emitted(AfterDamage, source, target, depth))
  {
    var overflow := Overflow(s, target, amount);
    var hurt := Hurt(Absorb(s, target, amount), target, overflow);
    DamageSteps(maxDepth, s, amount, source, target, depth);
    if overflow > 0 {
      EmitAfterDamage(maxDepth, hurt, source, target, depth);
    }
    var notified := if overflow > 0 then Emit(maxDepth, hurt, AfterDamage, source, target, depth) else hurt;
    DestroyPurgesTheTarget(maxDepth, notified, source, target, depth);
    var r := Perform(maxDepth, notified, Destroy, source, target, depth);
    assert notified.events <= r.events;
  }

  /**
   * Damage that reaches health emits AfterDamage (as its first event)
   * exactly when the overflow is positive, and leaves the target alive
   * exactly when its health is still positive.
   */
  lemma DamageEmitsAndDestroysIff(maxDepth: nat, s: State, amount: int, source: EntityId, target: EntityId, depth: nat)
    requires target in s.health && depth <= maxDepth
    ensures var r := Perform(maxDepth, s, Damage(amount), source, target, depth);
            && ((|r.events| > |s.events| && r.events[|s.events|] == Emitted(AfterDamage, source, target, depth))
                <==> Overflow(s, target, amount) > 0)
            && (target in r.health <==> HealthAfter(s, target, amount) > 0)
  {
    var r := Perform(maxDepth, s, Damage(amount), source, target, depth);
    if HealthAfter(s, target, amount) > 0 {
      DamageSurvived(maxDepth, s, amount, source, target, depth);
      if Overflow(s, target, amount) <= 0 {
        assert r.events == s.events;
      }
    } else {
      DamageDestroys(maxDepth, s, amount, source, target, depth);
    }
  }

  /**
   * Zero damage is a no-op only for a target whose armor is not negative
   * and whose health, if any, is still positive.
   */
  lemma ZeroDamageSparesTheHealthy(maxDepth: nat, s: State, source: EntityId, target: EntityId, depth: nat)
    requires target in s.armor ==> s.armor[target].current >= 0
    requires target in s.health ==> s.health[target].current > 0
    ensures Perform(maxDepth, s, Damage(0), source, target, depth) == s
  {
    if depth <= maxDepth {
      var absorbed := Absorb(s, target, 0);
      assert absorbed == s by {
        if target in s.armor {
          assert s.armor[target := LoseArmor(s.armor[target], 0).0] == s.armor;
        }
      }
      if target in s.health {
        assert Hurt(absorbed, target, 0) == s by {
          assert s.health[target := Health(s.health[target].current - 0, s.health[target].max)] == s.health;
        }
      }
    }
  }

  /** Zero damage destroys a target whose health is already at or below zero, whatever its armor. */
  lemma ZeroDamageDestroysTheDead(maxDepth: nat, s: State, source: EntityId, target: EntityId, depth: nat)
    requires target in s.health && s.health[target].current <= 0 && depth <= maxDepth
    ensures target !in Perform(maxDepth, s, Damage(0), source, target, depth).health
  {
    DamageDestroys(maxDepth, s, 0, source, target, depth);
  }

  /** GainArmor adds `amount` to the target's armor, with no clamp, and changes nothing else. */
  lemma GainArmorOnlyTouchesArmor(maxDepth: nat, s: State, amount: int, source: EntityId, target: EntityId, depth: nat)
    requires depth <= maxDepth
    ensures var r := Perform(maxDepth, s, GainArmor(amount), source, target, depth);
            && (target !in s.armor ==> r == s)
            && (target in s.armor ==> r == s.(armor := s.armor[target := Armor(s.armor[target].current + amount)]))
  {
  }
}
