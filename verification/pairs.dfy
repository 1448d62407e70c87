/** `Pair`, `UniformPair` and `Pairing`: an ordered pair of values, compared by position. */
module Pairs {
  import opened Wrappers
  import opened Errors

  /** `getFirst` and `getSecond` are the fields. */
  datatype Pair<A, B> = Pair(first: A, second: B)

  /** A pairing of two entrants: a pair whose components have one type. */
  type Pairing<E> = Pair<E, E>

  /** `Pair.equals`: both components equal, position by position. */
  predicate Equals<A(==), B(==)>(p: Pair<A, B>, q: Pair<A, B>) {
    p.first == q.first && p.second == q.second
  }

  /** `UniformPair.contains`, and also `containsEqual`: entrants are values, so `==` and
   *  `equals` agree and the two tests coincide. */
  predicate Contains<E(==)>(p: Pairing<E>, x: E) {
    x == p.first || x == p.second
  }

  /** The entrants of a pairing. */
  function Sides<E>(p: Pairing<E>): set<E> {
    {p.first, p.second}
  }

  /** The entrants of a set of pairings. */
  function EntrantsOf<E>(ps: set<Pairing<E>>): set<E> {
    (set p | p in ps :: p.first) + (set p | p in ps :: p.second)
  }

  lemma InEntrantsOf<E>(ps: set<Pairing<E>>, x: E)
    ensures x in EntrantsOf(ps) <==> exists p :: p in ps && Contains(p, x)
  {
    if x in EntrantsOf(ps) {
      if x in (set p | p in ps :: p.first) {
        var p :| p in ps && p.first == x;
      } else {
        var p :| p in ps && p.second == x;
      }
    }
    if exists p :: p in ps && Contains(p, x) {
      var p :| p in ps && Contains(p, x);
      if x == p.first { assert x in (set q | q in ps :: q.first); }
      else { assert x in (set q | q in ps :: q.second); }
    }
  }

  /** `UniformPair.getOther`: the component that is not `x`. */
  function GetOther<E(==)>(p: Pairing<E>, x: E): (r: Result<E, Error>)
    ensures r.Err? <==> !Contains(p, x)
    ensures r.Err? ==> r.error == NoSuchElement
    ensures r.Ok? ==> Contains(p, r.value)
    ensures r.Ok? && p.first != p.second ==> r.value != x
    ensures r.Ok? ==> Sides(p) == {x, r.value}
  {
    if !Contains(p, x) then Err(NoSuchElement)
    else if x == p.first then Ok(p.second)
    else Ok(p.first)
  }

  /** The component that is not `x`, for a member `x`; `GetOther` without its error path. */
  function Other<E(==)>(p: Pairing<E>, x: E): E {
    if x == p.first then p.second else p.first
  }

  lemma ConstructorAccessors<A, B>(a: A, b: B)
    ensures Pair(a, b).first == a && Pair(a, b).second == b
  {
  }

  /** Equality is sensitive to order: swapping distinct components gives a different pair. */
  lemma EqualsIsOrdered<E>(a: E, b: E)
    requires a != b
    ensures !Equals(Pair(a, b), Pair(b, a))
  {
  }

  /** Asking twice for the other side returns the side first asked about. */
  lemma GetOtherInvolution<E>(p: Pairing<E>, x: E)
    requires Contains(p, x) && p.first != p.second
    ensures GetOther(p, x).Ok?
    ensures GetOther(p, GetOther(p, x).value) == Ok(x)
  {
  }

  lemma OtherIsGetOther<E>(p: Pairing<E>, x: E)
    requires Contains(p, x)
    ensures GetOther(p, x) == Ok(Other(p, x))
  {
  }
}
