/** `ShuffledSet`: a set with removal of a random member. Members live in a list for random
 *  access; `remove` only marks an element (a tombstone in `removed`) and leaves it in the list,
 *  and `removeRandom` discards the tombstones it draws. */
module ShuffledSets {
  import opened Wrappers
  import opened Seqs

  datatype ShuffledSet<T> = ShuffledSet(elements: set<T>, removed: set<T>, list: seq<T>)

  /** Every member is in the list exactly once, every other list entry is a tombstone. */
  ghost predicate Valid<T>(s: ShuffledSet<T>) {
    && s.elements !! s.removed
    && Elems(s.list) == s.elements + s.removed
    && Distinct(s.list)
  }

  /** What the source's operations keep: list entries are members or tombstones, without
   *  repeats. It does not say that every member is listed. */
  ghost predicate Listed<T>(s: ShuffledSet<T>) {
    && s.elements !! s.removed
    && Elems(s.list) <= s.elements + s.removed
    && Distinct(s.list)
  }

  function Empty<T>(): (s: ShuffledSet<T>)
    ensures Valid(s) && s.elements == {}
  {
    ShuffledSet({}, {}, [])
  }

  /** The collection constructor; `xs` lists a Java set, so it has no duplicates. */
  function FromSeq<T>(xs: seq<T>): (s: ShuffledSet<T>)
    requires Distinct(xs)
    ensures Valid(s) && s.elements == Elems(xs)
  {
    ShuffledSet(Elems(xs), {}, xs)
  }

  /** `add`: true and a new member, or false and no change for a present element. A
   *  tombstoned element is revived in place instead of being listed twice. */
  function Add<T(==)>(s: ShuffledSet<T>, x: T): (r: Step<ShuffledSet<T>, bool>)
    ensures r.value <==> x !in s.elements
    ensures !r.value ==> r.state == s
    ensures r.state.elements == s.elements + {x}
    ensures Valid(s) ==> Valid(r.state)
    ensures Listed(s) ==> Listed(r.state)
  {
    if x in s.elements then Step(s, false)
    else
      var list := if x in s.removed then s.list else s.list + [x];
      assert Listed(s) && x !in s.removed ==> Distinct(list) by {
        if Listed(s) && x !in s.removed {
          assert x !in Elems(s.list);
          forall i, j | 0 <= i < j < |list| ensures list[i] != list[j] {
            if j == |s.list| { assert list[i] in Elems(s.list); }
          }
        }
      }
      assert Elems(list) == Elems(s.list) + (if x in s.removed then {} else {x});
      Step(ShuffledSet(s.elements + {x}, s.removed - {x}, list), true)
  }

  /** `remove`: true and no longer a member, or false and no change for an absent element. */
  function Remove<T(==)>(s: ShuffledSet<T>, x: T): (r: Step<ShuffledSet<T>, bool>)
    ensures r.value <==> x in s.elements
    ensures !r.value ==> r.state == s
    ensures r.state.elements == s.elements - {x}
    ensures Valid(s) ==> Valid(r.state)
    ensures Listed(s) ==> Listed(r.state)
  {
    if x !in s.elements then Step(s, false)
    else Step(ShuffledSet(s.elements - {x}, s.removed + {x}, s.list), true)
  }

  /** `clear`. */
  function Clear<T>(s: ShuffledSet<T>): (r: ShuffledSet<T>)
    ensures Valid(r) && r.elements == {} && r.list == [] && r.removed == {}
  {
    Empty()
  }

  /** `popRandomListElement` at index `i`: the last entry takes the place of entry `i`. */
  function Pop<T>(list: seq<T>, i: nat): (r: seq<T>)
    requires i < |list|
    ensures |r| == |list| - 1
    ensures Distinct(list) ==> Distinct(r) && Elems(r) == Elems(list) - {list[i]}
  {
    var r := list[i := list[|list| - 1]][..|list| - 1];
    assert Distinct(list) ==> Distinct(r) && Elems(r) == Elems(list) - {list[i]} by {
      if Distinct(list) {
        forall a, b | 0 <= a < b < |r| ensures r[a] != r[b] {
          if a == i { assert r[a] == list[|list| - 1]; }
          else if b == i { assert r[b] == list[|list| - 1]; }
        }
        forall y | y in Elems(list) - {list[i]} ensures y in Elems(r) {
          var k :| 0 <= k < |list| && list[k] == y;
          if k == |list| - 1 { assert r[i] == y; } else { assert r[k] == y; }
        }
        forall y | y in Elems(r) ensures y in Elems(list) - {list[i]} {
          var k :| 0 <= k < |r| && r[k] == y;
          if k == i { assert y == list[|list| - 1]; } else { assert y == list[k]; }
        }
      }
    }
    r
  }

  /** The list index `random.nextInt(size)` selects; `rng` stands for the generator. */
  function Pick(rng: nat -> nat, size: nat): (i: nat)
    requires size > 0
    ensures i < size
  {
    rng(size) % size
  }

  /** `removeRandom` as the source writes it. `None` stands for `EmptySetException`; the set
   *  is changed even then, because the tombstones drawn are gone from the list. A drawn
   *  tombstone is dropped from the list but stays in `removed`. */
  function RemoveRandomAsWritten<T(==)>(s: ShuffledSet<T>, rng: nat -> nat): (r: Step<ShuffledSet<T>, Option<T>>)
    ensures Listed(s) ==> Listed(r.state)
    ensures Listed(s) && r.value.Some? ==> r.value.value in s.elements
    ensures r.value.Some? ==> r.state.elements == s.elements - {r.value.value}
    ensures r.value.None? ==> r.state.elements == s.elements && r.state.list == []
    decreases |s.list|
  {
    if |s.list| == 0 then Step(s, None)
    else
      var i := Pick(rng, |s.list|);
      var popped := s.list[i];
      var list := Pop(s.list, i);
      if popped !in s.removed then Step(ShuffledSet(s.elements - {popped}, s.removed, list), Some(popped))
      else RemoveRandomAsWritten(ShuffledSet(s.elements, s.removed, list), rng)
  }

  /** `removeRandom` with the tombstone dropped from `removed` as well as from the list when
   *  it is drawn, which keeps `Valid`: it fails exactly on an empty set, and otherwise
   *  returns and removes a member. */
  function RemoveRandom<T(==)>(s: ShuffledSet<T>, rng: nat -> nat): (r: Step<ShuffledSet<T>, Option<T>>)
    ensures Valid(s) ==> Valid(r.state)
    ensures Valid(s) ==> (r.value.None? <==> s.elements == {})
    ensures Valid(s) && r.value.Some? ==> r.value.value in s.elements
    ensures r.value.Some? ==> r.state.elements == s.elements - {r.value.value}
    ensures Valid(s) && r.value.None? ==> r.state == Empty()
    decreases |s.list|
  {
    if |s.list| == 0 then Step(s, None)
    else
      var i := Pick(rng, |s.list|);
      var popped := s.list[i];
      assert popped in Elems(s.list);
      var list := Pop(s.list, i);
      if popped !in s.removed then Step(ShuffledSet(s.elements - {popped}, s.removed, list), Some(popped))
      else RemoveRandom(ShuffledSet(s.elements, s.removed - {popped}, list), rng)
  }

  /** A drawn tombstone survives in `removed`, so adding the element again skips the list:
   *  the element is a member that `removeRandom` can never return, and the set reports
   *  `EmptySetException` while it has a member. */
  lemma AsWrittenLosesReaddedMember<T>(x: T, rng: nat -> nat)
    ensures var s := AsWrittenReadded(x, rng);
            s.elements == {x} && Listed(s) && !Valid(s) &&
            RemoveRandomAsWritten(s, rng).value == None
  {
    var s1 := Add(Empty(), x).state;
    assert s1 == ShuffledSet({x}, {}, [x]);
    var s2 := Remove(s1, x).state;
    assert s2 == ShuffledSet({}, {x}, [x]);
    assert Pick(rng, 1) == 0;
    assert Pop([x], 0) == [];
    var drained: ShuffledSet<T> := ShuffledSet({}, {x}, []);
    assert RemoveRandomAsWritten(drained, rng) == Step(drained, None);
    assert s2.list[Pick(rng, 1)] == x;
    assert RemoveRandomAsWritten(s2, rng) == RemoveRandomAsWritten(drained, rng);
    var s := AsWrittenReadded(x, rng);
    assert s == ShuffledSet({x}, {}, []);
    assert Elems(s.list) == {};
  }

  /** add(x), remove(x), an unsuccessful removeRandom (it draws the tombstone), add(x). */
  function AsWrittenReadded<T(==)>(x: T, rng: nat -> nat): ShuffledSet<T> {
    var s2 := Remove(Add(Empty(), x).state, x).state;
    Add(RemoveRandomAsWritten(s2, rng).state, x).state
  }

  /** Remove, then add again: the element is drawn once, and then the set is empty. */
  lemma RemoveThenAddDrawsOnce<T>(x: T, rng: nat -> nat)
    ensures var s := Add(Remove(Add(Empty(), x).state, x).state, x).state;
            var d := RemoveRandom(s, rng);
            d.value == Some(x) && RemoveRandom(d.state, rng).value == None
  {
    var s := Add(Remove(Add(Empty(), x).state, x).state, x).state;
    assert s == ShuffledSet({x}, {}, [x]);
    assert Pick(rng, 1) == 0;
  }

  /** A draw that picks a member returns it and drops it from the list. */
  lemma DrawPicked<T>(s: ShuffledSet<T>, rng: nat -> nat)
    requires Valid(s) && |s.list| > 0 && s.list[Pick(rng, |s.list|)] in s.elements
    ensures var i := Pick(rng, |s.list|);
            RemoveRandom(s, rng) == Step(ShuffledSet(s.elements - {s.list[i]}, s.removed, Pop(s.list, i)), Some(s.list[i]))
  {
  }

  /** A removed element is never drawn, even though its tombstone is still listed. */
  lemma RemovedIsNeverDrawn<T>(s: ShuffledSet<T>, x: T, rng: nat -> nat)
    requires Valid(s)
    ensures RemoveRandom(Remove(s, x).state, rng).value != Some(x)
  {
  }
}
