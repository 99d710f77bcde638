/**
 * The entity set of crates/world/src/utils.rs: a set of ids backed by a
 * sparse bitset. The model keeps the members as a `set<EntityId>`; the
 * bitset's capacity limit is not modelled.
 */
module EntitySets {
  import opened Wrappers
  import opened Ids

  /** The least member of a non-empty set. */
  ghost function Min(s: set<EntityId>): (m: EntityId)
    requires s != {}
    ensures m in s && forall y :: y in s ==> m <= y
  {
    MinExists(s);
    var m :| m in s && forall y :: y in s ==> m <= y; m
  }

  lemma {:induction false} MinExists(s: set<EntityId>)
    requires s != {}
    ensures exists m :: m in s && forall y :: y in s ==> m <= y
    decreases |s|
  {
    var x :| x in s;
    if s - {x} == {} {
      SingletonLeast(s, x);
    } else {
      MinExists(s - {x});
      var m :| m in s - {x} && forall y :: y in s - {x} ==> m <= y;
      LeastOfAdded(s, x, m);
    }
  }

  lemma SingletonLeast(s: set<EntityId>, x: EntityId)
    requires x in s && s - {x} == {}
    ensures forall y :: y in s ==> x <= y
  {
    forall y | y in s
      ensures x <= y
    {
      assert y == x || y in s - {x};
    }
  }

  lemma LeastOfAdded(s: set<EntityId>, x: EntityId, m: EntityId)
    requires x in s && m in s - {x} && forall y :: y in s - {x} ==> m <= y
    ensures var least := if x <= m then x else m; least in s && forall y :: y in s ==> least <= y
  {
    forall y | y in s
      ensures (if x <= m then x else m) <= y
    {
      assert y == x || y in s - {x};
    }
  }

  /** The members of a set in ascending order: the order in which the bitset is iterated. */
  ghost function Ordered(s: set<EntityId>): seq<EntityId>
    decreases |s|
  {
    if s == {} then [] else [Min(s)] + Ordered(s - {Min(s)})
  }

  ghost predicate StrictlyIncreasing(ids: seq<EntityId>)
  {
    forall i, j :: 0 <= i < j < |ids| ==> ids[i] < ids[j]
  }

  /** Iteration yields every member exactly once, in ascending order. */
  lemma {:induction false} OrderedIsSortedEnumeration(s: set<EntityId>)
    ensures |Ordered(s)| == |s|
    ensures StrictlyIncreasing(Ordered(s))
    ensures forall e :: e in Ordered(s) <==> e in s
    decreases |s|
  {
    if s != {} {
      var m := Min(s);
      var rest := s - {m};
      OrderedIsSortedEnumeration(rest);
      var tail := Ordered(rest);
      assert Ordered(s) == [m] + tail;
      forall i | 0 < i < |Ordered(s)|
        ensures m < Ordered(s)[i]
      {
        assert Ordered(s)[i] == tail[i - 1];
        assert tail[i - 1] in rest;
      }
    }
  }

  /** The members of `keys` in ascending order, computed by repeatedly taking the least remaining id. */
  method SortedIds(keys: set<EntityId>) returns (ids: seq<EntityId>)
    ensures ids == Ordered(keys)
  {
    ids := [];
    var rest := keys;
    while rest != {}
      invariant ids + Ordered(rest) == Ordered(keys)
      decreases |rest|
    {
      ghost var least := Min(rest);
      var m :| m in rest && forall y :: y in rest ==> m <= y;
      assert m == least;
      ids := ids + [m];
      rest := rest - {m};
    }
  }

  /**
   * One step of `reduce(And, ...)` over the `Some` entries: a `None` entry
   * is skipped, the first constraining set starts the accumulator, and every
   * further one is intersected into it.
   */
  function Step(acc: Option<set<EntityId>>, next: Option<set<EntityId>>): Option<set<EntityId>>
  {
    match next
    case None => acc
    case Some(x) => if acc.None? then Some(x) else Some(acc.value * x)
  }

  /** `reduce(And, sets.filter_map(..))`, a left fold; `None` when no entry constrains. */
  ghost function Reduce(sets: seq<Option<set<EntityId>>>): Option<set<EntityId>>
    decreases |sets|
  {
    if sets == [] then None else Step(Reduce(sets[..|sets| - 1]), sets[|sets| - 1])
  }

  ghost predicate Constrained(sets: seq<Option<set<EntityId>>>)
  {
    exists i :: 0 <= i < |sets| && sets[i].Some?
  }

  /**
   * The reduction is defined exactly when some entry constrains, and then
   * holds exactly the ids that lie in every `Some` entry: `None` entries
   * impose no restriction.
   */
  lemma {:induction false} ReduceIsIntersection(sets: seq<Option<set<EntityId>>>)
    ensures Reduce(sets).Some? <==> Constrained(sets)
    ensures Reduce(sets).Some? ==>
      forall e :: e in Reduce(sets).value <==> forall i :: 0 <= i < |sets| && sets[i].Some? ==> e in sets[i].value
    decreases |sets|
  {
    if sets != [] {
      var init := sets[..|sets| - 1];
      var last := sets[|sets| - 1];
      ReduceIsIntersection(init);
      assert forall i :: 0 <= i < |init| ==> init[i] == sets[i];
      if Constrained(init) {
        var i :| 0 <= i < |init| && init[i].Some?;
        assert sets[i].Some?;
      }
    }
  }

  /** The result of an intersection is a subset of every constraining set. */
  lemma ReduceWithinEach(sets: seq<Option<set<EntityId>>>, i: nat)
    requires i < |sets| && sets[i].Some?
    ensures Reduce(sets).Some? && Reduce(sets).value <= sets[i].value
  {
    ReduceIsIntersection(sets);
  }

  /** The ids whose value in `m` occurs in `values`; an empty list of values selects nothing. */
  ghost function WithValueIn<V>(m: map<EntityId, V>, values: seq<V>): set<EntityId>
  {
    if |values| == 0 then {} else set e | e in m && m[e] in values
  }

  /** `entities(values)` is exactly {e | m[e] in values}, for every list including the empty one. */
  lemma WithValueInMembership<V>(m: map<EntityId, V>, values: seq<V>)
    ensures forall e :: e in WithValueIn(m, values) <==> e in m && m[e] in values
    ensures |values| == 0 ==> WithValueIn(m, values) == {}
  {
  }

  /** The entity set itself: a mutable set of ids. */
  class EntitySet {
    var members: set<EntityId>

    /** `EntitySet::default()`. */
    constructor Empty()
      ensures members == {}
    {
      members := {};
    }

    /** `From<[EntityId; N]>`: exactly the elements of the array. */
    constructor FromIds(ids: seq<EntityId>)
      ensures members == set i | 0 <= i < |ids| :: ids[i]
    {
      var acc: set<EntityId> := {};
      for k := 0 to |ids|
        invariant acc == set i | 0 <= i < k :: ids[i]
      {
        assert (set i | 0 <= i < k + 1 :: ids[i]) == acc + {ids[k]};
        acc := acc + {ids[k]};
      }
      members := acc;
    }

    method Insert(entity: EntityId)
      modifies this
      ensures members == old(members) + {entity}
    {
      members := members + {entity};
    }

    /** Removes `entity`; the result says whether it was a member. */
    method Remove(entity: EntityId) returns (wasMember: bool)
      modifies this
      ensures members == old(members) - {entity}
      ensures entity !in members
      ensures wasMember <==> entity in old(members)
    {
      wasMember := entity in members;
      members := members - {entity};
    }

    /** Every member exactly once, in ascending order. */
    method Iter() returns (ids: seq<EntityId>)
      ensures ids == Ordered(members)
      ensures forall e :: e in ids <==> e in members
      ensures StrictlyIncreasing(ids)
    {
      ids := SortedIds(members);
      OrderedIsSortedEnumeration(members);
    }

    /**
     * `EntitySet::intersection`: the intersection of the `Some` entries.
     * With no `Some` entry the source's `unwrap` panics, hence the precondition.
     */
    static method Intersection(sets: seq<Option<EntitySet>>) returns (r: EntitySet)
      requires exists i :: 0 <= i < |sets| && sets[i].Some?
      ensures fresh(r)
      ensures Reduce(MembersOf(sets)).Some? && r.members == Reduce(MembersOf(sets)).value
      ensures forall e :: e in r.members <==>
        forall i :: 0 <= i < |sets| && sets[i].Some? ==> e in sets[i].value.members
    {
      var acc: Option<set<EntityId>> := None;
      for k := 0 to |sets|
        invariant acc == Reduce(MembersOf(sets)[..k])
      {
        assert MembersOf(sets)[..k + 1][..k] == MembersOf(sets)[..k];
        var next := if sets[k].Some? then Some(sets[k].value.members) else None;
        acc := Step(acc, next);
      }
      assert MembersOf(sets)[..|sets|] == MembersOf(sets);
      var i :| 0 <= i < |sets| && sets[i].Some?;
      ReduceIsIntersection(MembersOf(sets));
      assert MembersOf(sets)[i].Some?;
      r := new EntitySet.Empty();
      r.members := acc.value;
    }
  }

  /** The member sets behind a list of optional entity-set references. */
  ghost function MembersOf(sets: seq<Option<EntitySet>>): (r: seq<Option<set<EntityId>>>)
    reads set i | 0 <= i < |sets| && sets[i].Some? :: sets[i].value
    ensures |r| == |sets|
    ensures forall i :: 0 <= i < |sets| ==> r[i] == if sets[i].Some? then Some(sets[i].value.members) else None
  {
    seq(|sets|, i reads set i | 0 <= i < |sets| && sets[i].Some? :: sets[i].value
                 requires 0 <= i < |sets| => if sets[i].Some? then Some(sets[i].value.members) else None)
  }
}
