/** Sequence helpers: the insertion-ordered collections of the engine are sequences. */
module Seqs {

  ghost predicate Distinct<T>(s: seq<T>) {
    forall i, j :: 0 <= i < j < |s| ==> s[i] != s[j]
  }

  function Elems<T>(s: seq<T>): set<T> {
    set x | x in s
  }

  /** The members of `s`, in the order in which they occur in `order`. */
  function Filter<T(==)>(order: seq<T>, s: set<T>): (r: seq<T>)
    ensures Elems(r) == Elems(order) * s
    ensures |r| <= |order|
  {
    if |order| == 0 then []
    else
      ElemsSplit(order);
      var rest := Filter(order[1..], s);
      if order[0] in s then ElemsCons(order[0], rest); [order[0]] + rest
      else rest
  }

  /** The members of `s` that `order` lists, each once, in the order of their first
   *  occurrence: how the model iterates a hash set, whose iteration order the engine does
   *  not fix. */
  function Enumerate<T(==)>(order: seq<T>, s: set<T>): (r: seq<T>)
    ensures Elems(r) == Elems(order) * s
    ensures Distinct(r)
    decreases |order|
  {
    if |order| == 0 then []
    else
      ElemsSplit(order);
      var x := order[0];
      if x in s then
        var rest := Enumerate(order[1..], s - {x});
        ElemsCons(x, rest);
        DistinctCons(x, rest);
        [x] + rest
      else Enumerate(order[1..], s)
  }

  /** An enumeration has no more entries than the set, and all of them when `order` lists
   *  every member. */
  lemma EnumerateCard<T>(order: seq<T>, s: set<T>)
    ensures |Enumerate(order, s)| <= |s|
    ensures s <= Elems(order) ==> Elems(Enumerate(order, s)) == s && |Enumerate(order, s)| == |s|
  {
    DistinctCard(Enumerate(order, s));
    SubsetCard(Elems(Enumerate(order, s)), s);
  }

  lemma ElemsCons<T>(x: T, s: seq<T>)
    ensures Elems([x] + s) == {x} + Elems(s)
  {
    assert forall y :: y in [x] + s <==> y == x || y in s;
  }

  lemma ElemsSplit<T>(s: seq<T>)
    requires |s| > 0
    ensures Elems(s) == {s[0]} + Elems(s[1..])
    ensures Distinct(s) ==> Distinct(s[1..]) && s[0] !in Elems(s[1..])
  {
    assert s == [s[0]] + s[1..];
    ElemsCons(s[0], s[1..]);
    if Distinct(s) {
      forall y | y in s[1..] ensures y != s[0] {
        var k :| 0 <= k < |s[1..]| && s[1..][k] == y;
        assert s[k + 1] == y;
      }
    }
  }

  lemma DistinctCons<T>(x: T, s: seq<T>)
    ensures Distinct(s) && x !in Elems(s) ==> Distinct([x] + s)
  {
    if Distinct(s) && x !in Elems(s) {
      var r := [x] + s;
      forall i, j | 0 <= i < j < |r| ensures r[i] != r[j] {
        if i == 0 {
          assert r[j] == s[j - 1];
          assert r[j] in Elems(s);
        } else {
          assert r[i] == s[i - 1] && r[j] == s[j - 1];
        }
      }
    }
  }

  lemma {:induction false} FilterDistinct<T>(order: seq<T>, s: set<T>)
    requires Distinct(order)
    ensures Distinct(Filter(order, s))
  {
    if |order| > 0 {
      ElemsSplit(order);
      FilterDistinct(order[1..], s);
      if order[0] in s {
        DistinctCons(order[0], Filter(order[1..], s));
      }
    }
  }

  /** Filtering a duplicate-free order that lists every member of `s` enumerates `s`
   *  exactly once, so the enumeration has `|s|` entries. */
  lemma FilterCovers<T>(order: seq<T>, s: set<T>)
    requires Distinct(order) && s <= Elems(order)
    ensures Distinct(Filter(order, s))
    ensures Elems(Filter(order, s)) == s
    ensures |Filter(order, s)| == |s|
  {
    FilterDistinct(order, s);
    DistinctCard(Filter(order, s));
  }

  lemma {:induction false} DistinctCard<T>(s: seq<T>)
    requires Distinct(s)
    ensures |Elems(s)| == |s|
  {
    if |s| > 0 {
      ElemsSplit(s);
      DistinctCard(s[1..]);
    }
  }

  /** Disjoint sets add up. */
  lemma DisjointUnionCard<T>(a: set<T>, b: set<T>)
    requires a !! b
    ensures |a + b| == |a| + |b|
  {
    assert a * b == {};
  }

  lemma {:induction false} ElemsCard<T>(s: seq<T>)
    ensures |Elems(s)| <= |s|
  {
    if |s| > 0 {
      ElemsSplit(s);
      ElemsCard(s[1..]);
    }
  }

  lemma SubsetCard<T>(a: set<T>, b: set<T>)
    requires a <= b
    ensures |a| <= |b|
  {
    assert b == a + (b - a);
  }

  lemma ElemsSnoc<T>(s: seq<T>, x: T)
    ensures Elems(s + [x]) == Elems(s) + {x}
    ensures Distinct(s) && x !in Elems(s) ==> Distinct(s + [x])
  {
    assert forall y :: y in s + [x] <==> y in s || y == x;
  }

  /** `s` without the first occurrence of `x` (`ArrayList.remove(Object)`). */
  function RemoveFirst<T(==)>(s: seq<T>, x: T): (r: seq<T>)
    ensures x !in s ==> r == s
    ensures x in s ==> |r| == |s| - 1
    ensures Elems(r) <= Elems(s)
    ensures Distinct(s) ==> Distinct(r) && Elems(r) == Elems(s) - {x}
  {
    if |s| == 0 then []
    else
      ElemsSplit(s);
      if s[0] == x then s[1..]
      else
        var rest := RemoveFirst(s[1..], x);
        ElemsCons(s[0], rest);
        DistinctCons(s[0], rest);
        [s[0]] + rest
  }

  /** `s` with `x` moved to the front, when `x` occurs in it. */
  function MoveToFront<T(==)>(s: seq<T>, x: T): (r: seq<T>)
    ensures x in s ==> |r| == |s| && r[0] == x && r[1..] == RemoveFirst(s, x)
    ensures x !in s ==> r == s
  {
    if x in s then [x] + RemoveFirst(s, x) else s
  }
}
