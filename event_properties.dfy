/**
 * What `emit` and `handle_event` (crates/world/src/event.rs) guarantee:
 * which (event, reaction) pairs fire and what they perform, that every
 * reactor's list is visited exactly once and in order, and what an
 * AfterDamage broadcast can do to the world.
 */
module EventProperties {
  import opened Ids
  import opened EntitySets
  import opened Armors
  import opened Positions
  import opened Reactions
  import opened WorldState
  import opened Dispatch

  /** The reactions that `pairs` hands to `reactor`, in visiting order. */
  ghost function ListOf(pairs: seq<(EntityId, Reaction)>, reactor: EntityId): seq<Reaction>
    decreases |pairs|
  {
    if pairs == [] then []
    else (if pairs[0].0 == reactor then [pairs[0].1] else []) + ListOf(pairs[1..], reactor)
  }

  lemma {:induction false} ListOfAppend(first: seq<(EntityId, Reaction)>, second: seq<(EntityId, Reaction)>,
                                        reactor: EntityId)
    ensures ListOf(first + second, reactor) == ListOf(first, reactor) + ListOf(second, reactor)
    decreases |first|
  {
    if first == [] {
      assert first + second == second;
    } else {
      var whole := first + second;
      var head := if first[0].0 == reactor then [first[0].1] else [];
      assert whole[0] == first[0];
      assert whole[1..] == first[1..] + second;
      assert ListOf(whole, reactor) == head + ListOf(first[1..] + second, reactor);
      assert ListOf(first, reactor) == head + ListOf(first[1..], reactor);
      ListOfAppend(first[1..], second, reactor);
      assert head + (ListOf(first[1..], reactor) + ListOf(second, reactor))
          == (head + ListOf(first[1..], reactor)) + ListOf(second, reactor);
    }
  }

  /** One reactor's expansion hands exactly its own list, in order, and nothing to anyone else. */
  lemma {:induction false} ListOfExpand(owner: EntityId, reactions: seq<Reaction>, reactor: EntityId)
    ensures ListOf(Expand(owner, reactions), reactor) == if owner == reactor then reactions else []
    decreases |reactions|
  {
    if reactions != [] {
      ListOfExpand(owner, reactions[1..], reactor);
      assert [reactions[0]] + reactions[1..] == reactions;
    }
  }

  /** A sequence of ids in which no id occurs twice: any enumeration of a set. */
  ghost predicate NoDuplicates(ids: seq<EntityId>)
  {
    forall i, j :: 0 <= i < j < |ids| ==> ids[i] != ids[j]
  }

  /** The tail of a duplicate-free sequence is duplicate-free and does not contain its head. */
  lemma NoDuplicatesTail(ids: seq<EntityId>)
    requires NoDuplicates(ids) && ids != []
    ensures NoDuplicates(ids[1..]) && ids[0] !in ids[1..]
    ensures forall e :: e in ids[1..] ==> e in ids
  {
    var rest := ids[1..];
    forall i, j | 0 <= i < j < |rest| ensures rest[i] != rest[j] {
      assert rest[i] == ids[i + 1] && rest[j] == ids[j + 1];
    }
    forall k | 0 <= k < |rest| ensures rest[k] != ids[0] {
      assert rest[k] == ids[k + 1];
    }
  }

  lemma {:induction false} ListOfPairsOver(snapshot: map<EntityId, seq<Reaction>>, reactors: seq<EntityId>,
                                           reactor: EntityId)
    requires forall e :: e in reactors ==> e in snapshot
    requires NoDuplicates(reactors)
    ensures ListOf(PairsOver(snapshot, reactors), reactor) == if reactor in reactors then snapshot[reactor] else []
    decreases |reactors|
  {
    if reactors != [] {
      var rest := reactors[1..];
      NoDuplicatesTail(reactors);
      ListOfAppend(Expand(reactors[0], snapshot[reactors[0]]), PairsOver(snapshot, rest), reactor);
      ListOfExpand(reactors[0], snapshot[reactors[0]], reactor);
      ListOfPairsOver(snapshot, rest, reactor);
      assert PairsOver(snapshot, reactors) == Expand(reactors[0], snapshot[reactors[0]]) + PairsOver(snapshot, rest);
      assert reactor in reactors <==> reactor == reactors[0] || reactor in rest by {
        assert reactors == [reactors[0]] + rest;
      }
      if reactor == reactors[0] {
        assert snapshot[reactor] + [] == snapshot[reactor];
      } else {
        assert [] + ListOf(PairsOver(snapshot, rest), reactor) == ListOf(PairsOver(snapshot, rest), reactor);
      }
    }
  }

  /**
   * `emit` visits every (reactor, reaction) pair of the snapshot once: the
   * reactions handed to a reactor are exactly its stored list, in list
   * order, and a reactor without a list is handed nothing.
   */
  lemma PairsVisitEachListOnce(snapshot: map<EntityId, seq<Reaction>>, reactor: EntityId)
    ensures ListOf(Pairs(snapshot), reactor) == if reactor in snapshot then snapshot[reactor] else []
  {
    OrderedIsSortedEnumeration(snapshot.Keys);
    assert NoDuplicates(Ordered(snapshot.Keys));
    ListOfPairsOver(snapshot, Ordered(snapshot.Keys), reactor);
  }

  /**
   * The same holds whatever order the reactors are visited in: any
   * enumeration of the snapshot's reactors, each once, hands every reactor
   * exactly its stored list.
   */
  lemma AnyOrderVisitsEachListOnce(snapshot: map<EntityId, seq<Reaction>>, reactors: seq<EntityId>,
                                   reactor: EntityId)
    requires NoDuplicates(reactors) && forall e :: e in reactors <==> e in snapshot
    ensures ListOf(PairsOver(snapshot, reactors), reactor) == if reactor in snapshot then snapshot[reactor] else []
  {
    ListOfPairsOver(snapshot, reactors, reactor);
  }

  /** Only the three (event, reaction) pairs of the match fire; every other pair changes nothing. */
  lemma UnmatchedPairsChangeNothing(maxDepth: nat, s: State, event: Event, source: EntityId, target: EntityId,
                                    reactor: EntityId, reaction: Reaction, depth: nat)
    requires depth <= maxDepth
    requires !(event.AfterMove? && reaction.OpportunityAttack?)
    requires !(event.AfterDamage? && reaction.Reinforce?)
    requires !(event.BeforeDestroy? && reaction.Spite?)
    ensures HandleEvent(maxDepth, s, event, source, target, reactor, reaction, depth) == s
  {
  }

  /** The conditions under which an opportunity attack fires. */
  ghost predicate OpportunityGiven(s: State, target: EntityId, reactor: EntityId, fromPosition: Position)
  {
    && reactor in s.allegiance && target in s.allegiance
    && s.allegiance[target] != s.allegiance[reactor]
    && reactor in s.position && s.position[reactor] == fromPosition
  }

  /**
   * An opportunity attack fires on AfterMove exactly when both sides have
   * an allegiance, the allegiances differ and the reactor stands where the
   * mover left from; it then damages the mover one level deeper.
   */
  lemma OpportunityAttackFires(maxDepth: nat, s: State, fromPosition: Position, source: EntityId, target: EntityId,
                               reactor: EntityId, damageAmount: int, depth: nat)
    requires depth <= maxDepth
    ensures var r := HandleEvent(maxDepth, s, AfterMove(fromPosition), source, target, reactor,
                                 OpportunityAttack(damageAmount), depth);
            && (OpportunityGiven(s, target, reactor, fromPosition)
                ==> r == Perform(maxDepth, s, Damage(damageAmount), reactor, target, depth + 1))
            && (!OpportunityGiven(s, target, reactor, fromPosition) ==> r == s)
  {
  }

  /** An entity never takes an opportunity attack against its own move. */
  lemma OpportunityAttackNeverOnSelf(maxDepth: nat, s: State, fromPosition: Position, source: EntityId,
                                     mover: EntityId, damageAmount: int, depth: nat)
    requires depth <= maxDepth
    ensures HandleEvent(maxDepth, s, AfterMove(fromPosition), source, mover, mover,
                        OpportunityAttack(damageAmount), depth) == s
  {
    assert !OpportunityGiven(s, mover, mover, fromPosition);
  }

  /**
   * Reinforce answers AfterDamage only when the reactor is the damaged
   * entity: within the depth bound it adds `armorAmount` to the reactor's
   * own armor, if it has any, and leaves everything else as it was.
   */
  lemma ReinforceArmorsOnlyTheDamaged(maxDepth: nat, s: State, source: EntityId, target: EntityId,
                                      reactor: EntityId, armorAmount: int, depth: nat)
    requires depth <= maxDepth
    ensures var r := HandleEvent(maxDepth, s, AfterDamage, source, target, reactor, Reinforce(armorAmount), depth);
            && (reactor != target || depth + 1 > maxDepth || reactor !in s.armor ==> r == s)
            && (reactor == target && depth + 1 <= maxDepth && reactor in s.armor
                ==> r == s.(armor := s.armor[reactor := Armor(s.armor[reactor].current + armorAmount)]))
  {
  }

  /**
   * Spite answers BeforeDestroy only when the reactor is the entity being
   * destroyed, and then damages the original source one level deeper.
   */
  lemma SpiteStrikesBackAtSource(maxDepth: nat, s: State, source: EntityId, target: EntityId,
                                 reactor: EntityId, damageAmount: int, depth: nat)
    requires depth <= maxDepth
    ensures var r := HandleEvent(maxDepth, s, BeforeDestroy, source, target, reactor, Spite(damageAmount), depth);
            && (reactor != target ==> r == s)
            && (reactor == target ==> r == Perform(maxDepth, s, Damage(damageAmount), target, source, depth + 1))
  {
  }

  /** The armor the Reinforce reactions of a list add up to. */
  ghost function ReinforceTotal(reactions: seq<Reaction>): int
    decreases |reactions|
  {
    if reactions == [] then 0
    else (if reactions[0].Reinforce? then reactions[0].armorAmount else 0) + ReinforceTotal(reactions[1..])
  }

  /** The armor an AfterDamage broadcast at `depth` gives `target`: nothing once the bound is reached. */
  ghost function ReinforceGain(maxDepth: nat, depth: nat, reactions: map<EntityId, seq<Reaction>>,
                               target: EntityId): int
  {
    if depth + 1 <= maxDepth && target in reactions then ReinforceTotal(reactions[target]) else 0
  }

  lemma ReinforcedTwice(s: State, target: EntityId, first: int, second: int)
    ensures Reinforced(Reinforced(s, target, first), target, second) == Reinforced(s, target, first + second)
  {
    if target in s.armor {
      var once := s.armor[target := Armor(s.armor[target].current + first)];
      assert once[target := Armor(once[target].current + second)]
          == s.armor[target := Armor(s.armor[target].current + first + second)];
    }
  }

  lemma ReinforcedByNothing(s: State, target: EntityId)
    ensures Reinforced(s, target, 0) == s
  {
    if target in s.armor {
      assert s.armor[target := Armor(s.armor[target].current + 0)] == s.armor;
    }
  }

  /** One AfterDamage pair adds the Reinforce amount to the target's armor when it belongs to the target. */
  lemma HandleEventAfterDamage(maxDepth: nat, s: State, source: EntityId, target: EntityId,
                               reactor: EntityId, reaction: Reaction, depth: nat)
    requires depth <= maxDepth
    ensures HandleEvent(maxDepth, s, AfterDamage, source, target, reactor, reaction, depth)
         == Reinforced(s, target, if depth + 1 <= maxDepth && reactor == target then ReinforceTotal([reaction]) else 0)
  {
    assert ReinforceTotal([reaction]) == if reaction.Reinforce? then reaction.armorAmount else 0 by {
      assert [reaction][1..] == [];
    }
    ReinforcedByNothing(s, target);
    if reaction.Reinforce? {
      ReinforceArmorsOnlyTheDamaged(maxDepth, s, source, target, reactor, reaction.armorAmount, depth);
    } else {
      UnmatchedPairsChangeNothing(maxDepth, s, AfterDamage, source, target, reactor, reaction, depth);
    }
  }

  lemma ReinforceTotalAppend(first: seq<Reaction>, second: seq<Reaction>)
    requires |first| <= 1
    ensures ReinforceTotal(first + second) == ReinforceTotal(first) + ReinforceTotal(second)
  {
    if first == [] {
      assert first + second == second;
    } else {
      assert (first + second)[1..] == second;
      assert first[1..] == [];
    }
  }

  /** Handling AfterDamage pairs only adds armor to the target, the sum of the Reinforce reactions handed to it. */
  lemma {:induction false} HandleAllAfterDamage(maxDepth: nat, s: State, pairs: seq<(EntityId, Reaction)>,
                                                source: EntityId, target: EntityId, depth: nat)
    requires depth <= maxDepth
    ensures HandleAll(maxDepth, s, pairs, AfterDamage, source, target, depth)
         == Reinforced(s, target, if depth + 1 <= maxDepth then ReinforceTotal(ListOf(pairs, target)) else 0)
    decreases |pairs|
  {
    if pairs == [] {
      ReinforcedByNothing(s, target);
    } else {
      var reactor := pairs[0].0;
      var reaction := pairs[0].1;
      var first := if reactor == target then [reaction] else [];
      var gainFirst := if depth + 1 <= maxDepth && reactor == target then ReinforceTotal([reaction]) else 0;
      var gainRest := if depth + 1 <= maxDepth then ReinforceTotal(ListOf(pairs[1..], target)) else 0;
      HandleEventAfterDamage(maxDepth, s, source, target, reactor, reaction, depth);
      var next := Reinforced(s, target, gainFirst);
      HandleAllAfterDamage(maxDepth, next, pairs[1..], source, target, depth);
      ReinforcedTwice(s, target, gainFirst, gainRest);
      assert ListOf(pairs, target) == first + ListOf(pairs[1..], target);
      ReinforceTotalAppend(first, ListOf(pairs[1..], target));
      assert first == [] ==> ReinforceTotal(first) == 0;
    }
  }

  /**
   * An AfterDamage broadcast logs itself and otherwise only adds armor to
   * the damaged entity: the sum of its Reinforce reactions, once each, as
   * long as the depth bound leaves room for them.
   */
  lemma EmitAfterDamage(maxDepth: nat, s: State, source: EntityId, target: EntityId, depth: nat)
    requires depth <= maxDepth
    ensures var r := Emit(maxDepth, s, AfterDamage, source, target, depth);
            var logged := s.events + [Emitted(AfterDamage, source, target, depth)];
            var gain := ReinforceGain(maxDepth, depth, s.reactions, target);
            && (target !in s.armor ==> r == s.(events := logged))
            && (target in s.armor
                ==> r == s.(events := logged, armor := s.armor[target := Armor(s.armor[target].current + gain)]))
  {
    var logged := s.(events := s.events + [Emitted(AfterDamage, source, target, depth)]);
    HandleAllAfterDamage(maxDepth, logged, Pairs(s.reactions), source, target, depth);
    PairsVisitEachListOnce(s.reactions, target);
  }

  /**
   * AfterDamage adds up to the same armor whatever order the reactors are
   * visited in: for any enumeration of the snapshot's reactors, handling
   * their pairs adds the target's own Reinforce amounts to its armor.
   */
  lemma AfterDamageInAnyOrder(maxDepth: nat, s: State, snapshot: map<EntityId, seq<Reaction>>,
                              reactors: seq<EntityId>, source: EntityId, target: EntityId, depth: nat)
    requires depth <= maxDepth
    requires NoDuplicates(reactors) && forall e :: e in reactors <==> e in snapshot
    ensures HandleAll(maxDepth, s, PairsOver(snapshot, reactors), AfterDamage, source, target, depth)
         == Reinforced(s, target, ReinforceGain(maxDepth, depth, snapshot, target))
  {
    HandleAllAfterDamage(maxDepth, s, PairsOver(snapshot, reactors), source, target, depth);
    AnyOrderVisitsEachListOnce(snapshot, reactors, target);
  }
}
