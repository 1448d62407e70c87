/** `UniformPairUniqueBiSet`: a set of pairings in which an entrant belongs to at most one
 *  pairing, indexed by entrant. */
module UniquePairIndex {
  import opened Wrappers
  import opened Errors
  import opened Pairs

  datatype UniqueIndex<E> = UniqueIndex(pairs: set<Pairing<E>>, index: map<E, Pairing<E>>)

  /** Every key maps to a stored pairing that contains it, and both entrants of every stored
   *  pairing are keys that map to it; so no entrant is in two stored pairings. */
  ghost predicate Valid<E>(u: UniqueIndex<E>) {
    && (forall k :: k in u.index ==> u.index[k] in u.pairs && Contains(u.index[k], k))
    && (forall p :: p in u.pairs ==>
          p.first in u.index && p.second in u.index && u.index[p.first] == p && u.index[p.second] == p)
  }

  function Empty<E>(): (u: UniqueIndex<E>)
    ensures Valid(u) && u.pairs == {} && u.index == map[]
  {
    UniqueIndex({}, map[])
  }

  /** `add`: false for a stored pairing, `IllegalArgumentException` when an entrant of `p`
   *  is already in a stored pairing, true and stored otherwise. */
  function Add<E>(u: UniqueIndex<E>, p: Pairing<E>): (r: Result<Step<UniqueIndex<E>, bool>, Error>)
    ensures r.Err? <==> p !in u.pairs && (p.first in u.index || p.second in u.index)
    ensures r.Err? ==> r.error == IllegalArgument
    ensures r.Ok? ==> (r.value.value <==> p !in u.pairs)
    ensures r.Ok? && !r.value.value ==> r.value.state == u
    ensures r.Ok? ==> r.value.state.pairs == u.pairs + {p}
    ensures r.Ok? && r.value.value ==>
              FindByElement(r.value.state, p.first) == Some(p) && FindByElement(r.value.state, p.second) == Some(p)
    ensures r.Ok? ==> r.value.state.index - Sides(p) == u.index - Sides(p)
    ensures Valid(u) && r.Ok? ==> Valid(r.value.state)
  {
    if p in u.pairs then Ok(Step(u, false))
    else if p.first in u.index || p.second in u.index then Err(IllegalArgument)
    else Ok(Step(UniqueIndex(u.pairs + {p}, u.index[p.first := p][p.second := p]), true))
  }

  /** `remove`: false for a pairing that is not stored; otherwise the pairing and both of its
   *  index entries are gone. */
  function Remove<E>(u: UniqueIndex<E>, p: Pairing<E>): (r: Step<UniqueIndex<E>, bool>)
    ensures r.value <==> p in u.pairs
    ensures !r.value ==> r.state == u
    ensures r.state.pairs == u.pairs - {p}
    ensures r.value ==> FindByElement(r.state, p.first) == None && FindByElement(r.state, p.second) == None
    ensures r.state.index - Sides(p) == u.index - Sides(p)
    ensures Valid(u) ==> Valid(r.state)
  {
    if p !in u.pairs then Step(u, false)
    else Step(UniqueIndex(u.pairs - {p}, u.index - {p.first, p.second}), true)
  }

  /** `removeByElement`: removes and returns the pairing of `e`, or returns null. */
  function RemoveByElement<E>(u: UniqueIndex<E>, e: E): (r: Step<UniqueIndex<E>, Option<Pairing<E>>>)
    ensures r.value == FindByElement(u, e)
    ensures r.value.None? ==> r.state == u
    ensures Valid(u) && r.value.Some? ==> r.state.pairs == u.pairs - {r.value.value} && Contains(r.value.value, e)
    ensures Valid(u) ==> Valid(r.state) && FindByElement(r.state, e) == None
  {
    match FindByElement(u, e)
    case None => Step(u, None)
    case Some(p) => Step(Remove(u, p).state, Some(p))
  }

  /** `clear`. */
  function Clear<E>(u: UniqueIndex<E>): (r: UniqueIndex<E>)
    ensures Valid(r) && r.pairs == {} && ElementSet(r) == {}
  {
    Empty()
  }

  /** `findByElement`: the pairing of `e`, or null. */
  function FindByElement<E>(u: UniqueIndex<E>, e: E): (r: Option<Pairing<E>>)
    ensures Valid(u) ==> (r.Some? <==> e in EntrantsOf(u.pairs))
    ensures Valid(u) && r.Some? ==> r.value in u.pairs && Contains(r.value, e)
  {
    KeysAreEntrants(u);
    if e in u.index then Some(u.index[e]) else None
  }

  /** `findLastByElement`: with at most one pairing per entrant, the last one is the one. */
  function FindLastByElement<E>(u: UniqueIndex<E>, e: E): (r: Option<Pairing<E>>)
    ensures Valid(u) && r.Some? ==> r.value in u.pairs && Contains(r.value, e)
    ensures Valid(u) ==> forall p :: p in u.pairs && Contains(p, e) ==> r == Some(p)
  {
    FindByElement(u, e)
  }

  /** `getPairElementSet`: the entrants of the stored pairings. */
  function ElementSet<E>(u: UniqueIndex<E>): (r: set<E>)
    ensures Valid(u) ==> r == EntrantsOf(u.pairs)
  {
    KeysAreEntrants(u);
    u.index.Keys
  }

  lemma KeysAreEntrants<E>(u: UniqueIndex<E>)
    ensures Valid(u) ==> u.index.Keys == EntrantsOf(u.pairs)
  {
    if Valid(u) {
      forall k | k in u.index ensures k in EntrantsOf(u.pairs) {
        InEntrantsOf(u.pairs, k);
      }
      forall x | x in EntrantsOf(u.pairs) ensures x in u.index {
        InEntrantsOf(u.pairs, x);
      }
    }
  }

  predicate ContainsPair<E>(u: UniqueIndex<E>, p: Pairing<E>) {
    p in u.pairs
  }

  /** Two stored pairings that share an entrant are the same pairing. */
  lemma PairsAreDisjoint<E>(u: UniqueIndex<E>, p: Pairing<E>, q: Pairing<E>, e: E)
    requires Valid(u) && p in u.pairs && q in u.pairs && Contains(p, e) && Contains(q, e)
    ensures p == q
  {
  }
}
