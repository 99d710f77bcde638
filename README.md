# world: a verified model of the entity-component combat engine

The `world` crate keeps a small game world as five component stores. Each store maps entity ids to a component: allegiance, armor, health, position, or a list of reactions. Allegiance and position also keep an index set of their ids. An id allocator hands out ids from 1 upward; id 0 is `WORLD_ENTITY`, the world itself.

The world changes through actions: Spawn, Destroy, Move, Damage and GainArmor. Some actions broadcast events: AfterMove, AfterDamage and BeforeDestroy. Every stored reaction sees each event. A reaction whose trigger matches performs a further action one stack level deeper. A query engine selects entities by allegiance and position and fans one action out over them.

The model has two layers.

- **The value layer.** The modules `WorldState`, `Dispatch` and `Query` describe a world as a `State` value. `perform`, `emit`, `handle_event` and `perform_with_query` are ghost functions on that value.
- **The imperative layer.** The modules `EntitySets`, `Allegiances`, `Armors`, `Healths`, `Positions`, `Reactions` and `Engine` follow the source's own form. The stores and the world are classes whose methods update their fields in place, with loops where the source loops. Each `World` method is proved to leave exactly the state that the matching dispatch function describes.

The properties are lemmas about the value layer, in the modules `ActionProperties`, `EventProperties` and `Playground`. `Playground` replays the demo session of `crates/playground/src/main.rs` to its end.

### Modelling choices

- **A recursion bound.** The source has no recursion guard: `perform` → `emit` → `handle_event` → `perform` can recurse without end. An example is two Spite entities. A dying entity is still in the stores while BeforeDestroy is handled, so each one's Spite can keep hitting the other.
  - The model gives the world a `maxDepth`. A `perform` at a depth above `maxDepth` is aborted and changes nothing.
  - The depth grows only where a reaction fires. It does not grow on Damage → Destroy or on action → emit.
  - Termination is the lexicographic measure (remaining budget, rank), with rank perform(Damage) > Damage arm > perform(other) > emit > the loop over the pairs > handle_event.
- **Iteration order.** `HashMap` order is unspecified.
  - `emit` is modelled as visiting the reactors in ascending id order. This is also the order in which the bitset behind `EntitySet` iterates.
  - The loops of `AllegianceSystem::entities` and `PositionSystem::entities` pick any remaining id next. Their result is a set, so the order does not matter.
  - Two facts about `emit` hold whatever order the reactors are visited in, as long as each is visited once:
    - every reactor is handed exactly its own list, whole and in order (`AnyOrderVisitsEachListOnce`);
    - an AfterDamage broadcast adds the same armor (`AfterDamageInAnyOrder`).
- **The event log.** Every `emit` call is recorded in a ghost `events` log (the `[Event]` log line of the source). This lets "emits no event" and "emits AfterDamage iff" be stated.
- **Invariants.** `WellFormed` says that:
  - every stored id lies in `[1, next_entity)`;
  - no stored reaction list is empty.

  Allegiance and position each keep their `entities` set equal to their map's keys (`Valid`).

### Where the code and the design description disagree (the model follows the code)

- **Destroy after fatal damage.** The design says this Destroy is dispatched at depth+1. The code dispatches it at the same depth (`crates/world/src/action.rs:99`).
- **Zero damage.** The design says zero damage never changes anything. The code destroys a target whose health is already at or below zero (`ZeroDamageDestroysTheDead`). Against an entity whose armor is negative, zero damage also produces overflow. Zero damage is a no-op only under the hypotheses of `ZeroDamageSparesTheHealthy`.
- **The source does not compile as written.**
  - `impl World` in `crates/world/src/action.rs:25` lacks its generic parameter.
  - `&target` is passed where `armor.rs` and `health.rs` take an id by value.

  The model follows the evident intent: the same `World`, with ids passed by value.

## Model

| member | source | states |
|---|---|---|
| EntitySets.OrderedIsSortedEnumeration | crates/world/src/utils.rs:28-30 | the iteration order has one entry per member, is strictly increasing, and contains exactly the members |
| EntitySets.SortedIds | crates/world/src/utils.rs:39-48 | the loop that repeatedly takes the least remaining id yields exactly the ascending enumeration of the set |
| EntitySets.ReduceIsIntersection | crates/world/src/utils.rs:15-18 | the fold of `reduce(And)` over the optional sets is defined iff some entry is `Some`, and then holds exactly the ids that lie in every `Some` entry; `None` entries impose nothing |
| EntitySets.ReduceWithinEach | crates/world/src/utils.rs:15-18 | the intersection is a subset of every constraining set |
| EntitySets.WithValueInMembership | crates/world/src/systems/allegiance.rs:32-46 | the index query selects exactly the ids whose value is listed, and an empty list selects nothing |
| EntitySets.EntitySet.Empty | crates/world/src/utils.rs:10-12 | the default set is empty |
| EntitySets.EntitySet.FromIds | crates/world/src/utils.rs:33-37 | building from an array gives exactly the set of its elements |
| EntitySets.EntitySet.Insert | crates/world/src/utils.rs:20-22 | insert yields the old members plus the id |
| EntitySets.EntitySet.Remove | crates/world/src/utils.rs:24-26 | remove yields the old members minus the id, the id is no longer a member, and the result says whether it was one |
| EntitySets.EntitySet.Iter | crates/world/src/utils.rs:28-30 | iteration yields every member exactly once, in ascending order |
| EntitySets.EntitySet.Intersection | crates/world/src/utils.rs:15-18 | with at least one `Some` entry (the source's `unwrap` panics otherwise), the result holds exactly the ids in every `Some` entry |
| Allegiances.AllegianceSystem.constructor | crates/world/src/systems/allegiance.rs:20-26 | a new store is empty and its index agrees with it |
| Allegiances.AllegianceSystem.AllegianceOf | crates/world/src/systems/allegiance.rs:28-30 | the lookup and the store's index agree: in a valid store an id has a faction exactly when it is in the entity set, and the faction returned is the stored one |
| Allegiances.AllegianceSystem.Entities | crates/world/src/systems/allegiance.rs:32-46 | an empty list gives the empty set; otherwise the loop over the map yields exactly the ids whose faction is listed |
| Allegiances.AllegianceSystem.Insert | crates/world/src/systems/allegiance.rs:48-51 | insert overwrites, the getter then returns the new faction, other ids keep theirs, and the index still equals the key set |
| Allegiances.AllegianceSystem.Remove | crates/world/src/systems/allegiance.rs:53-56 | remove deletes the entry (a no-op when absent), other ids keep theirs, and the index still equals the key set |
| Armors.LoseArmor | crates/world/src/systems/armor.rs:50-59 | armor loss leaves max(0, start − amount), never negative, with overflow max(0, amount − start), and lost armor plus overflow equals the amount |
| Armors.ArmorSystem.constructor | crates/world/src/systems/armor.rs:24-29 | a new store is empty |
| Armors.ArmorSystem.Gain | crates/world/src/systems/armor.rs:35-42 | without armor nothing changes; otherwise exactly `amount` is added, with no clamp |
| Armors.ArmorSystem.Lose | crates/world/src/systems/armor.rs:45-63 | without armor it returns `None` and changes nothing; otherwise subtract-then-clamp leaves the armor and returns the overflow of `LoseArmor` |
| Armors.ArmorSystem.Insert | crates/world/src/systems/armor.rs:65-67 | insert overwrites that id only, and `_armor` then returns the inserted armor while every other id reads as before |
| Armors.ArmorSystem.Remove | crates/world/src/systems/armor.rs:69-71 | remove deletes that id only (a no-op when absent), and `_armor` then returns `None` for it while every other id reads as before |
| Healths.HealthSystem.constructor | crates/world/src/systems/health.rs:25-30 | a new store is empty |
| Healths.HealthSystem.Lose | crates/world/src/systems/health.rs:37-46 | without health it returns `None` and changes nothing; otherwise `current` drops by exactly `amount`, unclamped, `max` is kept, and the result is `Some(new current > 0)` |
| Healths.HealthSystem.Insert | crates/world/src/systems/health.rs:48-50 | insert overwrites, and `_health` then returns the inserted health while every other id reads as before |
| Healths.HealthSystem.Remove | crates/world/src/systems/health.rs:52-54 | remove makes `_health` return `None` for the id (a no-op when absent) while every other id reads as before |
| Positions.PositionSystem.constructor | crates/world/src/systems/position.rs:26-32 | a new store is empty and its index agrees with it |
| Positions.PositionSystem.PositionOf | crates/world/src/systems/position.rs:34-36 | the lookup and the store's index agree: in a valid store an id has a coordinate exactly when it is in the entity set, and the coordinate returned is the stored one |
| Positions.PositionSystem.Entities | crates/world/src/systems/position.rs:38-52 | an empty list gives the empty set; otherwise exactly the ids standing on a listed coordinate |
| Positions.PositionSystem.MoveTo | crates/world/src/systems/position.rs:54-62 | with no position nothing changes; otherwise only that id's coordinate becomes the new one, the key set and the index are kept |
| Positions.PositionSystem.Insert | crates/world/src/systems/position.rs:64-67 | insert overwrites, other ids unchanged, index equals the key set |
| Positions.PositionSystem.Remove | crates/world/src/systems/position.rs:69-72 | remove deletes (a no-op when absent), other ids unchanged, index equals the key set |
| Reactions.ReactionSystem.constructor | crates/world/src/systems/reaction.rs:20-25 | a new store is empty and holds no empty list |
| Reactions.ReactionSystem.ReactionsOf | crates/world/src/systems/reaction.rs:27-29 | exactly the stored list, in order, and never an empty one |
| Reactions.ReactionSystem.Insert | crates/world/src/systems/reaction.rs:31-37 | an empty list changes nothing, not even an existing entry; a non-empty one overwrites; no stored list is ever empty |
| Reactions.ReactionSystem.Remove | crates/world/src/systems/reaction.rs:39-41 | remove deletes the entry, a no-op when absent, other ids unchanged |
| WorldState.InitialWorld | crates/world/src/lib.rs:34-44 | a fresh world has the allocator at 1, above the sentinel `WORLD_ENTITY` = 0, all five stores empty, and is well-formed |
| Dispatch.Absorb | crates/world/src/action.rs:88 | the armor step of Damage leaves health untouched, allocates nothing, adds no entry, moves nobody and keeps the world well-formed |
| Dispatch.Hurt | crates/world/src/action.rs:90 | the health step of Damage allocates nothing, adds no entry, moves nobody and keeps the world well-formed |
| Dispatch.Reinforced | crates/world/src/action.rs:102 | GainArmor allocates nothing, adds no entry, moves nobody and keeps the world well-formed |
| Dispatch.Moved | crates/world/src/action.rs:78 | the move step allocates nothing, adds no entry and keeps the world well-formed |
| Dispatch.Purge | crates/world/src/action.rs:67-71 | removal from the five stores only loses entries, moves nobody and keeps the world well-formed |
| Dispatch.Spawned | crates/world/src/action.rs:43-62 | a spawn keeps the world well-formed |
| Dispatch.DescendsKeepsWellFormed | crates/world/src/action.rs:64-101 | an action that only loses keys, keeps the allocator and keeps the remaining reaction lists leaves a well-formed world well-formed |
| Dispatch.Perform | crates/world/src/action.rs:26-104 | every action keeps the world well-formed; every action but Spawn allocates no id, adds no entry, keeps the remaining allegiances and reaction lists and only appends to the event log; all of them except Move also move nobody |
| Dispatch.PerformDamage | crates/world/src/action.rs:87-101 | the Damage arm, including its AfterDamage cascade and the Destroy it may dispatch, only removes entries, keeps positions and keeps the world well-formed |
| Dispatch.Emit | crates/world/src/event.rs:92-102 | the broadcast is logged first, at its depth, and its cascade only removes entries and moves nobody |
| Dispatch.HandleAll | crates/world/src/event.rs:97-101 | handling the snapshot's pairs one after the other only removes entries and moves nobody |
| Dispatch.HandleAllAppend | crates/world/src/event.rs:97-101 | handling two runs of pairs is handling the first, then the second, on the state the first left |
| Dispatch.HandleEvent | crates/world/src/event.rs:14-90 | a single (event, reaction) pair only removes entries and moves nobody |
| Query.ResolveMembership | crates/world/src/entity_query.rs:18-43 | an entity is selected iff it has each non-ignored component, with a listed value where a list is given |
| Query.IncludeNothingSelectsNothing | crates/world/src/entity_query.rs:19-29 | `Include` of an empty list in either dimension makes the whole result empty |
| Query.QueryByAllegiance | crates/world/src/entity_query.rs:18-43 | `Include(as)` with position ignored yields exactly the entities whose faction is in `as` |
| Query.AnyAnySelectsBoth | crates/world/src/entity_query.rs:31-42 | `Any` on both dimensions yields exactly the entities that have both an allegiance and a position |
| Query.PerformAll | crates/world/src/entity_query.rs:52-54 | performing one action on each target only loses keys (for every action but Spawn) and keeps the world well-formed |
| Query.DestroyAllRemovesEveryTarget | crates/world/src/entity_query.rs:52-54 | destroying every target leaves none of them in any store |
| Engine.World.constructor | crates/world/src/lib.rs:34-44 | a new world is the initial state: empty stores, allocator at 1 |
| Engine.World.Perform | crates/world/src/action.rs:26-104 | updating the stores in place yields exactly `Dispatch.Perform` of the old state and keeps every invariant |
| Engine.World.PerformSpawn | crates/world/src/action.rs:43-62 | the Spawn arm bumps the allocator and inserts into the stores exactly as `Dispatch.Spawned` says |
| Engine.World.PerformDestroy | crates/world/src/action.rs:64-72 | the Destroy arm emits, then removes from the five stores, as `Dispatch.Perform` says |
| Engine.World.PerformMove | crates/world/src/action.rs:73-86 | the Move arm returns early without a position, otherwise moves and emits, as `Dispatch.Perform` says |
| Engine.World.PerformDamage | crates/world/src/action.rs:87-101 | the Damage arm (armor, then health, then emit and Destroy) yields exactly `Dispatch.PerformDamage` |
| Engine.World.Wound | crates/world/src/action.rs:88-92 | armor absorbs first and health loses the overflow, exactly as `Dispatch.Absorb` and `Dispatch.Hurt` say; there is no liveness result exactly when the target has no health, otherwise it says whether health stays positive |
| Engine.World.Emit | crates/world/src/event.rs:92-102 | the nested loops over a snapshot of the reaction map yield exactly `Dispatch.Emit`, whatever the cascade does to the live map |
| Engine.World.HandleReactions | crates/world/src/event.rs:98-100 | the inner loop over one reactor's list handles its pairs in list order |
| Engine.World.HandleEvent | crates/world/src/event.rs:14-90 | the early-return chain of `handle_event` yields exactly `Dispatch.HandleEvent` |
| Engine.World.Entities | crates/world/src/entity_query.rs:18-43 | the intersection of the per-dimension sets built from the stores and their indexes is exactly `Query.Resolve` |
| Engine.World.PerformWithQuery | crates/world/src/entity_query.rs:45-55 | the targets are resolved once, then performed on in ascending order, with the same action, source and depth |
| EventProperties.PairsVisitEachListOnce | crates/world/src/event.rs:95-101 | the (reactor, reaction) pairs of a snapshot hand every reactor exactly its stored list, once and in order, and nothing to an id without a list |
| EventProperties.AnyOrderVisitsEachListOnce | crates/world/src/event.rs:95-101 | the same for any order of the reactors that visits each one once: the order of a HashMap is not needed for it |
| EventProperties.UnmatchedPairsChangeNothing | crates/world/src/event.rs:88 | every (event, reaction) pair outside the three matched ones leaves the state unchanged |
| EventProperties.OpportunityAttackFires | crates/world/src/event.rs:24-55 | on AfterMove, an opportunity attack fires iff both allegiances exist and differ and the reactor stands on the mover's old square; it then damages the mover from the reactor at depth+1 |
| EventProperties.OpportunityAttackNeverOnSelf | crates/world/src/event.rs:29-35 | an entity never takes an opportunity attack against its own move |
| EventProperties.ReinforceArmorsOnlyTheDamaged | crates/world/src/event.rs:56-71 | Reinforce answers AfterDamage only for the damaged entity itself and then just adds its amount to that entity's armor |
| EventProperties.SpiteStrikesBackAtSource | crates/world/src/event.rs:72-87 | Spite answers BeforeDestroy only for the entity being destroyed and damages the original source at depth+1 |
| EventProperties.HandleEventAfterDamage | crates/world/src/event.rs:56-71 | one AfterDamage pair adds the Reinforce amount to the target's armor iff it belongs to the target and the bound allows depth+1 |
| EventProperties.HandleAllAfterDamage | crates/world/src/event.rs:97-101 | handling AfterDamage pairs only adds to the target's armor, the sum of the Reinforce reactions handed to it |
| EventProperties.EmitAfterDamage | crates/world/src/event.rs:92-102 | an AfterDamage broadcast logs itself and otherwise only adds to the damaged entity's armor the sum of its own Reinforce amounts |
| EventProperties.AfterDamageInAnyOrder | crates/world/src/event.rs:56-101 | whatever order the reactors are visited in, handling AfterDamage adds to the target's armor exactly its own Reinforce amounts, or nothing beyond the depth bound |
| ActionProperties.AbortedPerformChangesNothing | crates/world/src/action.rs:26-32 | a perform beyond the depth bound changes nothing (the modelling bound) |
| ActionProperties.SpawnAllocatesFreshId | crates/world/src/action.rs:43-44 | Spawn uses the current `next_entity` and bumps it by exactly 1; in a well-formed world that id is in no store and is not `WORLD_ENTITY` |
| ActionProperties.SpawnStoresExactlyTheGivenComponents | crates/world/src/action.rs:46-62 | Spawn stores each `Some` component and a non-empty reaction list for the new id, touches no other id and emits no event |
| ActionProperties.SpawnIntoWellFormedWorld | crates/world/src/action.rs:43-62 | in a well-formed world the new id ends holding exactly the given components (none for `None`, none for an empty reaction list) |
| ActionProperties.DestroyPurgesTheTarget | crates/world/src/action.rs:64-72 | Destroy emits BeforeDestroy first, at its depth, and afterwards the target is in no store, whatever the cascade did |
| ActionProperties.MoveWithoutPositionChangesNothing | crates/world/src/action.rs:73-76 | Move of an entity without a position changes nothing and emits nothing |
| ActionProperties.MoveRecordsTheDeparture | crates/world/src/action.rs:73-86 | Move of a positioned entity emits AfterMove with its old position first, and it ends at the new position unless destroyed; every other entity that still has a position keeps the one it had |
| ActionProperties.DamageWithoutHealth | crates/world/src/action.rs:88-92 | Damage to an entity without health changes only its armor, by the clamped loss, and emits nothing |
| ActionProperties.OverflowIsWhatArmorCannotAbsorb | crates/world/src/action.rs:88 | the damage that reaches health is max(0, amount − armor), or the whole amount without armor |
| ActionProperties.DamageSurvived | crates/world/src/action.rs:87-101 | a survivor loses exactly the overflow from its health and keeps `max`; its armor is the clamped remainder plus its Reinforce amounts if AfterDamage fired; AfterDamage is the only event and fires iff the overflow is positive |
| ActionProperties.DamageDestroys | crates/world/src/action.rs:94-100 | a target whose health is no longer positive is destroyed at the same depth, after AfterDamage when the overflow is positive, and ends in no store |
| ActionProperties.DamageEmitsAndDestroysIff | crates/world/src/action.rs:94-100 | after damage that reached health, AfterDamage is the first event iff the overflow is positive, and the target survives iff its health stays positive |
| ActionProperties.ZeroDamageSparesTheHealthy | crates/world/src/action.rs:87-101 | zero damage changes nothing for a target with non-negative armor and, if it has health, positive health |
| ActionProperties.ZeroDamageDestroysTheDead | crates/world/src/action.rs:90-100 | zero damage destroys a target whose health is already at or below zero, whatever its armor |
| ActionProperties.GainArmorOnlyTouchesArmor | crates/world/src/action.rs:102 | GainArmor adds exactly its amount to the target's armor and changes nothing else, no event included |
| Playground.SpawnPlayerThenGolem | crates/playground/src/main.rs:52-82 | the two spawns of the demo give ids 1 and 2 exactly their components |
| Playground.PlaygroundPairs | crates/world/src/event.rs:97-101 | the demo's reaction map is visited player first, then the golem's Reinforce and Spite in list order |
| Playground.PlayerHitsGolem | crates/playground/src/main.rs:92 | health 3/3, armor 0 and Reinforce 3, hit for 1, ends at health 2/3 and armor 3 |
| Playground.PlayerHitsGolemsAtHome | crates/playground/src/main.rs:94-99 | the query for golems at (0, 5) selects the golem alone, and its 3 armor absorbs the hit |
| Playground.PlayerGainsArmor | crates/playground/src/main.rs:100 | GainArmor 5 brings the player's armor to 10 |
| Playground.GolemMovesNextToPlayer | crates/playground/src/main.rs:102-109 | leaving (0, 5), where nobody stands, draws no reaction |
| Playground.SpiteTakesThePlayer | crates/world/src/event.rs:72-87 | the golem's Spite of 50 answers its own destruction and kills the player |
| Playground.AttackTakesBoth | crates/world/src/action.rs:87-101 | the player's 10-point opportunity attack kills the golem, and the golem's Spite kills the player |
| Playground.BothGoneEmptiesTheWorld | crates/world/src/lib.rs:37 | with the allocator at 3, once ids 1 and 2 are gone every store is empty |
| Playground.GolemWalksAway | crates/playground/src/main.rs:111-118 | leaving (0, 0), where the player stands, sets off the chain that removes both entities |
| Playground.SessionEndsWithAnEmptyWorld | crates/playground/src/main.rs:52-118 | the whole demo session, with a bound that allows depth 2, ends with all five stores empty |

## Left out

- Notifications: every `notification_handler` call and `notification.rs` are left out. They are a side channel into a foreign closure and never affect world state. The world's constructor therefore takes `maxDepth` in place of the handler.
- Logging: `log_with_indentation!` and the `Debug` implementations only print. The `[Event]` line is kept as the ghost event log.
- `EntityHasher` and the bitset library behind `EntitySet` are left out. Both are replaced by Dafny maps and sets, so the bitset's capacity limit is not modelled.
- Fixed-width integers: `i64`, `u64` and `usize` are unbounded `int` and `nat`. Wrap-around on overflow is not modelled.
- HashMap iteration order in `emit` is modelled as ascending id order. This is one admissible order; the source promises none. The any-order lemmas above cover the other orders for list visiting and AfterDamage.
- Unbounded recursion: a cascade deeper than `maxDepth` is aborted in the model. The source would recurse until the stack overflows.
- World.Emit, World.HandleReactions, World.HandleEvent: they require `depth <= maxDepth`. Only a perform within the bound calls them, so they say nothing about an emit deeper than the bound.
- The demo driver `crates/playground/src/main.rs` is not modelled. Its session is replayed only as the lemmas of `Playground`.
- `crates/world/src/systems.rs` only re-exports modules.
