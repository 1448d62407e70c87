/** `UniformPairBiSet` in its insertion-ordered (`UniformPairLinkedBiSet`) form: a set of
 *  pairings indexed by entrant, where an entrant may be in many pairings. An emptied bucket
 *  stays in the index. */
module PairIndex {
  import opened Wrappers
  import opened Seqs
  import opened Pairs

  datatype MultiIndex<E> = MultiIndex(order: seq<Pairing<E>>, index: map<E, set<Pairing<E>>>)

  /** The stored pairings. */
  function Elements<E>(m: MultiIndex<E>): set<Pairing<E>> {
    Elems(m.order)
  }

  /** The pairings of `ps` that contain `e`. */
  function PairsWith<E(==)>(ps: set<Pairing<E>>, e: E): set<Pairing<E>> {
    set p | p in ps && Contains(p, e)
  }

  /** Each pairing is stored once, each bucket holds exactly the stored pairings of its
   *  entrant, and every entrant of a stored pairing has a bucket. */
  ghost predicate Valid<E>(m: MultiIndex<E>) {
    && Distinct(m.order)
    && (forall k :: k in m.index ==> m.index[k] == PairsWith(Elements(m), k))
    && EntrantsOf(Elements(m)) <= m.index.Keys
  }

  function Empty<E>(): (m: MultiIndex<E>)
    ensures Valid(m) && Elements(m) == {} && ElementSet(m) == {}
  {
    MultiIndex([], map[])
  }

  function Bucket<E>(m: MultiIndex<E>, e: E): set<Pairing<E>> {
    if e in m.index then m.index[e] else {}
  }

  /** `add`: false for a stored pairing; otherwise the pairing is stored last and filed
   *  under both of its entrants. */
  function Add<E>(m: MultiIndex<E>, p: Pairing<E>): (r: Step<MultiIndex<E>, bool>)
    ensures r.value <==> p !in Elements(m)
    ensures !r.value ==> r.state == m
    ensures r.value ==> r.state.order == m.order + [p]
    ensures Elements(r.state) == Elements(m) + {p}
    ensures Valid(m) ==> p in FindByElement(r.state, p.first) && p in FindByElement(r.state, p.second)
    ensures ElementSet(r.state) == ElementSet(m) + (if r.value then Sides(p) else {})
    ensures Valid(m) ==> Valid(r.state)
  {
    if p in Elements(m) then
      assert Valid(m) ==> p in FindByElement(m, p.first) && p in FindByElement(m, p.second) by {
        if Valid(m) { InEntrantsOf(Elements(m), p.first); InEntrantsOf(Elements(m), p.second); }
      }
      Step(m, false)
    else
      var i1 := m.index[p.first := Bucket(m, p.first) + {p}];
      var i2 := i1[p.second := (if p.second in i1 then i1[p.second] else {}) + {p}];
      var r := MultiIndex(m.order + [p], i2);
      assert Elems(m.order + [p]) == Elems(m.order) + {p};
      assert Valid(m) ==> Valid(r) by {
        if Valid(m) {
          assert Distinct(r.order) by {
            forall i, j | 0 <= i < j < |r.order| ensures r.order[i] != r.order[j] {
              if j == |m.order| { assert r.order[i] in Elems(m.order); }
            }
          }
          forall x | x in EntrantsOf(Elements(r)) ensures x in r.index {
            InEntrantsOf(Elements(r), x);
            InEntrantsOf(Elements(m), x);
          }
        }
      }
      Step(r, true)
  }

  /** `remove`: false for a pairing that is not stored; otherwise the pairing leaves the set
   *  and both buckets, and the buckets stay in the index even when emptied. */
  function Remove<E>(m: MultiIndex<E>, p: Pairing<E>): (r: Step<MultiIndex<E>, bool>)
    ensures r.value <==> p in Elements(m)
    ensures !r.value ==> r.state == m
    ensures Elements(r.state) <= Elements(m)
    ensures Valid(m) ==> Elements(r.state) == Elements(m) - {p}
    ensures Valid(m) ==> p !in FindByElement(r.state, p.first) && p !in FindByElement(r.state, p.second)
    ensures Valid(m) ==> ElementSet(r.state) == ElementSet(m)
    ensures Valid(m) ==> Valid(r.state)
  {
    if p !in Elements(m) then
      assert Valid(m) ==> p !in FindByElement(m, p.first) && p !in FindByElement(m, p.second);
      Step(m, false)
    else
      var r := Without(m, p);
      WithoutIsValid(m, p);
      Step(r, true)
  }

  /** `m` with `p` out of the order and out of both of its buckets. */
  function Without<E>(m: MultiIndex<E>, p: Pairing<E>): MultiIndex<E> {
    var i1 := m.index[p.first := Bucket(m, p.first) - {p}];
    var i2 := i1[p.second := (if p.second in i1 then i1[p.second] else {}) - {p}];
    MultiIndex(RemoveFirst(m.order, p), i2)
  }

  lemma WithoutIsValid<E>(m: MultiIndex<E>, p: Pairing<E>)
    requires p in Elements(m)
    ensures Elements(Without(m, p)) <= Elements(m)
    ensures Valid(m) ==>
              Valid(Without(m, p)) && ElementSet(Without(m, p)) == ElementSet(m) &&
              Elements(Without(m, p)) == Elements(m) - {p} &&
              p !in FindByElement(Without(m, p), p.first) && p !in FindByElement(Without(m, p), p.second)
  {
    var r := Without(m, p);
    if Valid(m) {
      InEntrantsOf(Elements(m), p.first);
      InEntrantsOf(Elements(m), p.second);
      forall x | x in EntrantsOf(Elements(r)) ensures x in r.index {
        InEntrantsOf(Elements(r), x);
        InEntrantsOf(Elements(m), x);
      }
      assert Valid(r);
    }
  }

  /** Removes every pairing of `ps`, as a loop of `remove` calls does. */
  function RemoveAll<E>(m: MultiIndex<E>, ps: set<Pairing<E>>): (r: MultiIndex<E>)
    ensures Elements(r) == Elements(m) - ps
    ensures r.index.Keys == m.index.Keys
    ensures Valid(m) ==> Valid(r)
  {
    var order := Filter(m.order, Elements(m) - ps);
    var r := MultiIndex(order, map k | k in m.index :: m.index[k] - ps);
    assert Valid(m) ==> Valid(r) by {
      if Valid(m) {
        FilterDistinct(m.order, Elements(m) - ps);
        forall x | x in EntrantsOf(Elements(r)) ensures x in r.index {
          InEntrantsOf(Elements(r), x);
          InEntrantsOf(Elements(m), x);
        }
      }
    }
    r
  }

  /** `removeByElement`: removes every pairing of `e` and returns exactly those. */
  function RemoveByElement<E>(m: MultiIndex<E>, e: E): (r: Step<MultiIndex<E>, set<Pairing<E>>>)
    ensures r.value == FindByElement(m, e)
    ensures Valid(m) ==> r.value == PairsWith(Elements(m), e)
    ensures Elements(r.state) == Elements(m) - r.value
    ensures Valid(m) ==> Valid(r.state) && FindByElement(r.state, e) == {}
  {
    var ps := FindByElement(m, e);
    Step(RemoveAll(m, ps), ps)
  }

  /** `findByElement`: the pairings of `e`; the empty set, never null, for an unknown entrant. */
  function FindByElement<E>(m: MultiIndex<E>, e: E): (r: set<Pairing<E>>)
    ensures Valid(m) ==> r == PairsWith(Elements(m), e)
    ensures e !in ElementSet(m) ==> r == {}
  {
    assert Valid(m) && e !in m.index ==> PairsWith(Elements(m), e) == {} by {
      if Valid(m) && e !in m.index {
        forall p | p in Elements(m) ensures !Contains(p, e) {
          InEntrantsOf(Elements(m), e);
        }
      }
    }
    Bucket(m, e)
  }

  /** The last entry of `order` that contains `e`. */
  function LastWith<E(==)>(order: seq<Pairing<E>>, e: E): (r: Option<Pairing<E>>)
    ensures r.None? <==> forall i :: 0 <= i < |order| ==> !Contains(order[i], e)
    ensures r.Some? ==> exists i :: 0 <= i < |order| && order[i] == r.value && Contains(r.value, e) &&
                          forall j :: i < j < |order| ==> !Contains(order[j], e)
  {
    if |order| == 0 then None
    else if Contains(order[|order| - 1], e) then Some(order[|order| - 1])
    else LastWith(order[..|order| - 1], e)
  }

  /** `findLastByElement`: the pairing of `e` inserted last, or null. */
  function FindLastByElement<E>(m: MultiIndex<E>, e: E): (r: Option<Pairing<E>>)
    ensures r.None? <==> PairsWith(Elements(m), e) == {}
    ensures r.Some? ==> r.value in PairsWith(Elements(m), e)
    ensures r.Some? ==> exists i :: 0 <= i < |m.order| && m.order[i] == r.value &&
                          forall j :: i < j < |m.order| ==> !Contains(m.order[j], e)
    ensures r == LastWith(m.order, e)
  {
    var r := LastWith(m.order, e);
    assert r.None? <==> PairsWith(Elements(m), e) == {} by {
      if r.None? {
        forall p | p in Elements(m) ensures !Contains(p, e) {
          var i :| 0 <= i < |m.order| && m.order[i] == p;
        }
      } else {
        var i :| 0 <= i < |m.order| && m.order[i] == r.value && Contains(r.value, e);
        assert r.value in PairsWith(Elements(m), e);
      }
    }
    r
  }

  /** `getPairElementSet`: every entrant that has a bucket, emptied buckets included. */
  function ElementSet<E>(m: MultiIndex<E>): (r: set<E>)
    ensures Valid(m) ==> EntrantsOf(Elements(m)) <= r
  {
    m.index.Keys
  }

  /** `clear`. */
  function Clear<E>(m: MultiIndex<E>): (r: MultiIndex<E>)
    ensures Valid(r) && Elements(r) == {} && ElementSet(r) == {}
  {
    Empty()
  }

  /** After the only pairing of two entrants is removed, both still count as pair elements
   *  although no stored pairing contains them. */
  lemma EmptiedBucketsAreKept<E>(p: Pairing<E>)
    ensures var m := Remove(Add(Empty(), p).state, p).state;
            Elements(m) == {} && ElementSet(m) == Sides(p) && FindByElement(m, p.first) == {}
  {
  }
}
