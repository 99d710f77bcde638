/**
 * Entity identifiers (crates/world/src/lib.rs). An `EntityId` wraps a `usize`;
 * the model uses an unbounded natural number, compared by plain equality.
 */
module Ids {

  type EntityId = nat

  /** The reserved id that stands for the world itself as source or target. */
  const WORLD_ENTITY: EntityId := 0

  /** The first id the allocator hands out (`next_entity: EntityId(1)`). */
  const FIRST_ENTITY: EntityId := 1
}
