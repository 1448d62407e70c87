/** `PairingManager`: the active pairings (an entrant is in at most one) and the finished
 *  pairings (in the order in which they finished). */
module PairingManagers {
  import opened Wrappers
  import opened Errors
  import opened Pairs
  import U = UniquePairIndex
  import M = PairIndex

  datatype PairingManager<E> = PairingManager(active: U.UniqueIndex<E>, finished: M.MultiIndex<E>)

  /** Both indices are consistent and no pairing is both active and finished. */
  ghost predicate Valid<E>(m: PairingManager<E>) {
    U.Valid(m.active) && M.Valid(m.finished) && Active(m) !! Finished(m)
  }

  function Empty<E>(): (m: PairingManager<E>)
    ensures Valid(m) && Active(m) == {} && Finished(m) == {}
  {
    PairingManager(U.Empty(), M.Empty())
  }

  /** `getActive`. */
  function Active<E>(m: PairingManager<E>): set<Pairing<E>> {
    m.active.pairs
  }

  /** `getFinished`. */
  function Finished<E>(m: PairingManager<E>): set<Pairing<E>> {
    M.Elements(m.finished)
  }

  predicate IsActive<E>(m: PairingManager<E>, p: Pairing<E>) {
    p in Active(m)
  }

  predicate IsFinished<E>(m: PairingManager<E>, p: Pairing<E>) {
    p in Finished(m)
  }

  /** `contains`: active or finished. */
  predicate Contains<E>(m: PairingManager<E>, p: Pairing<E>) {
    IsActive(m, p) || IsFinished(m, p)
  }

  /** `add`: false for a finished pairing; otherwise the unique active index decides: false
   *  when already active, `IllegalArgumentException` when an entrant is in another active
   *  pairing, true and active otherwise. */
  function Add<E>(m: PairingManager<E>, p: Pairing<E>): (r: Result<Step<PairingManager<E>, bool>, Error>)
    ensures IsFinished(m, p) ==> r == Ok(Step(m, false))
    ensures r.Err? <==> !Contains(m, p) && (p.first in ActiveEntrants(m) || p.second in ActiveEntrants(m))
    ensures r.Err? ==> r.error == IllegalArgument
    ensures r.Ok? ==> (r.value.value <==> !Contains(m, p))
    ensures r.Ok? && !r.value.value ==> r.value.state == m
    ensures r.Ok? && r.value.value ==> ActiveEntrants(r.value.state) == ActiveEntrants(m) + Sides(p)
    ensures r.Ok? && r.value.value ==>
              Active(r.value.state) == Active(m) + {p} && r.value.state.finished == m.finished &&
              FindActiveByEntrant(r.value.state, p.first) == Some(p) &&
              FindActiveByEntrant(r.value.state, p.second) == Some(p)
    ensures Valid(m) && r.Ok? ==> Valid(r.value.state)
  {
    if IsFinished(m, p) then Ok(Step(m, false))
    else
      match U.Add(m.active, p)
      case Err(e) => Err(e)
      case Ok(s) => Ok(Step(PairingManager(s.state, m.finished), s.value))
  }

  /** `finish`: false for a finished pairing, `NoSuchPairingException` for one that is not
   *  active, and otherwise the pairing moves from active to finished. */
  function Finish<E>(m: PairingManager<E>, p: Pairing<E>): (r: Result<Step<PairingManager<E>, bool>, Error>)
    ensures IsFinished(m, p) ==> r == Ok(Step(m, false))
    ensures r.Err? <==> !IsFinished(m, p) && !IsActive(m, p)
    ensures r.Err? ==> r.error == NoSuchPairing
    ensures r.Ok? && r.value.value ==>
              Active(r.value.state) == Active(m) - {p} && Finished(r.value.state) == Finished(m) + {p} &&
              FindActiveByEntrant(r.value.state, p.first) == None &&
              FindActiveByEntrant(r.value.state, p.second) == None
    ensures r.Ok? && r.value.value ==> r.value.state.finished.order == m.finished.order + [p]
    ensures r.Ok? && r.value.value ==> FinishedEntrants(r.value.state) == FinishedEntrants(m) + Sides(p)
    ensures r.Ok? && r.value.value ==> ActiveEntrants(r.value.state) == ActiveEntrants(m) - Sides(p)
    ensures r.Ok? ==> (r.value.value <==> !IsFinished(m, p))
    ensures Valid(m) && r.Ok? ==> Valid(r.value.state)
  {
    if IsFinished(m, p) then Ok(Step(m, false))
    else if !IsActive(m, p) then Err(NoSuchPairing)
    else Ok(Step(PairingManager(U.Remove(m.active, p).state, M.Add(m.finished, p).state), true))
  }

  /** `removeActive`. */
  function RemoveActive<E>(m: PairingManager<E>, p: Pairing<E>): (r: Step<PairingManager<E>, bool>)
    ensures r.value <==> IsActive(m, p)
    ensures Active(r.state) == Active(m) - {p} && r.state.finished == m.finished
    ensures r.value ==> FindActiveByEntrant(r.state, p.first) == None && FindActiveByEntrant(r.state, p.second) == None
    ensures r.value ==> ActiveEntrants(r.state) == ActiveEntrants(m) - Sides(p)
    ensures !r.value ==> r.state == m
    ensures Valid(m) ==> Valid(r.state)
  {
    var s := U.Remove(m.active, p);
    Step(PairingManager(s.state, m.finished), s.value)
  }

  /** `removeFinished`. */
  function RemoveFinished<E>(m: PairingManager<E>, p: Pairing<E>): (r: Step<PairingManager<E>, bool>)
    ensures r.value <==> IsFinished(m, p)
    ensures r.state.active == m.active
    ensures Valid(m) ==> Finished(r.state) == Finished(m) - {p} && FinishedEntrants(r.state) == FinishedEntrants(m)
    ensures Valid(m) ==> Valid(r.state)
  {
    var s := M.Remove(m.finished, p);
    Step(PairingManager(m.active, s.state), s.value)
  }

  /** `remove`: from the active pairings if it is there, from the finished ones otherwise. */
  function Remove<E>(m: PairingManager<E>, p: Pairing<E>): (r: Step<PairingManager<E>, bool>)
    ensures r.value <==> Contains(m, p)
    ensures !r.value ==> r.state == m
    ensures IsActive(m, p) ==> r == RemoveActive(m, p)
    ensures !IsActive(m, p) ==> r == RemoveFinished(m, p)
    ensures Valid(m) ==> Valid(r.state) && !Contains(r.state, p)
    ensures Valid(m) ==> Active(r.state) == Active(m) - {p} && Finished(r.state) == Finished(m) - {p}
  {
    var a := RemoveActive(m, p);
    if a.value then a else RemoveFinished(m, p)
  }

  /** `removeActiveByEntrant`: cancels and returns the active pairing of `e`, or null. */
  function RemoveActiveByEntrant<E>(m: PairingManager<E>, e: E): (r: Step<PairingManager<E>, Option<Pairing<E>>>)
    ensures r.value == FindActiveByEntrant(m, e)
    ensures r.value.None? ==> r.state == m
    ensures Valid(m) && r.value.Some? ==> r.state == RemoveActive(m, r.value.value).state
    ensures Valid(m) ==> Valid(r.state) && FindActiveByEntrant(r.state, e) == None
  {
    var s := U.RemoveByElement(m.active, e);
    Step(PairingManager(s.state, m.finished), s.value)
  }

  /** `removeFinishedByEntrant`: removes and returns every finished pairing of `e`. */
  function RemoveFinishedByEntrant<E>(m: PairingManager<E>, e: E): (r: Step<PairingManager<E>, set<Pairing<E>>>)
    ensures r.value == FindFinishedByEntrant(m, e)
    ensures Finished(r.state) == Finished(m) - r.value && r.state.active == m.active
    ensures Valid(m) ==> Valid(r.state) && FindFinishedByEntrant(r.state, e) == {}
  {
    var s := M.RemoveByElement(m.finished, e);
    Step(PairingManager(m.active, s.state), s.value)
  }

  /** `getLastPairingOfEntrant`: the active pairing of `e` if there is one, otherwise the
   *  finished pairing of `e` that finished last, otherwise null. */
  function GetLastPairingOfEntrant<E>(m: PairingManager<E>, e: E): (r: Option<Pairing<E>>)
    ensures FindActiveByEntrant(m, e).Some? ==> r == FindActiveByEntrant(m, e)
    ensures FindActiveByEntrant(m, e).None? ==> r == M.FindLastByElement(m.finished, e)
    ensures Valid(m) ==> (r.None? <==> !HasEntrant(m, e))
    ensures Valid(m) && r.Some? ==> Pairs.Contains(r.value, e) && Contains(m, r.value)
  {
    var lastActive := U.FindLastByElement(m.active, e);
    if lastActive.Some? then lastActive else M.FindLastByElement(m.finished, e)
  }

  /** `findActiveByEntrant`: the active pairing of `e`, or null. */
  function FindActiveByEntrant<E>(m: PairingManager<E>, e: E): (r: Option<Pairing<E>>)
    ensures Valid(m) && r.Some? ==> IsActive(m, r.value) && Pairs.Contains(r.value, e)
    ensures Valid(m) ==> (r.None? <==> e !in ActiveEntrants(m))
  {
    U.FindByElement(m.active, e)
  }

  /** `findFinishedByEntrant`: the finished pairings of `e`. */
  function FindFinishedByEntrant<E>(m: PairingManager<E>, e: E): (r: set<Pairing<E>>)
    ensures Valid(m) ==> r == M.PairsWith(Finished(m), e)
  {
    M.FindByElement(m.finished, e)
  }

  /** `getActiveEntrants`: the entrants of the active pairings. */
  function ActiveEntrants<E>(m: PairingManager<E>): (r: set<E>)
    ensures U.Valid(m.active) ==> r == EntrantsOf(Active(m))
  {
    U.ElementSet(m.active)
  }

  /** `getFinishedEntrants`: every entrant that ever had a finished pairing here, since emptied
   *  buckets are kept. */
  function FinishedEntrants<E>(m: PairingManager<E>): (r: set<E>)
    ensures M.Valid(m.finished) ==> EntrantsOf(Finished(m)) <= r
  {
    M.ElementSet(m.finished)
  }

  predicate HasActive<E>(m: PairingManager<E>) {
    Active(m) != {}
  }

  predicate HasFinished<E>(m: PairingManager<E>) {
    Finished(m) != {}
  }

  /** `isEmpty`: neither active nor finished pairings. */
  predicate IsEmpty<E>(m: PairingManager<E>) {
    !HasActive(m) && !HasFinished(m)
  }

  /** `hasActiveEntrant`: `e` is in an active pairing. */
  function HasActiveEntrant<E>(m: PairingManager<E>, e: E): (b: bool)
    ensures Valid(m) ==> (b <==> exists p :: p in Active(m) && Pairs.Contains(p, e))
  {
    InEntrantsOf(Active(m), e);
    FindActiveByEntrant(m, e).Some?
  }

  /** `hasFinishedEntrant` as the source writes it: it compares a set with null, and
   *  `findByElement` never returns null, so the answer is always true. */
  function HasFinishedEntrantAsWritten<E>(m: PairingManager<E>, e: E): (b: bool)
    ensures b
  {
    true
  }

  /** `hasFinishedEntrant` as intended: `e` is in a finished pairing. */
  function HasFinishedEntrant<E>(m: PairingManager<E>, e: E): (b: bool)
    ensures Valid(m) ==> (b <==> exists p :: p in Finished(m) && Pairs.Contains(p, e))
  {
    var ps := FindFinishedByEntrant(m, e);
    assert Valid(m) && (exists p :: p in Finished(m) && Pairs.Contains(p, e)) ==> ps != {} by {
      if Valid(m) && exists p :: p in Finished(m) && Pairs.Contains(p, e) {
        var p :| p in Finished(m) && Pairs.Contains(p, e);
        assert p in M.PairsWith(Finished(m), e);
      }
    }
    ps != {}
  }

  /** `hasEntrant`, with the intended `hasFinishedEntrant`. */
  function HasEntrant<E>(m: PairingManager<E>, e: E): (b: bool)
    ensures Valid(m) ==> (b <==> e in EntrantsOf(Active(m) + Finished(m)))
  {
    InEntrantsOf(Active(m) + Finished(m), e);
    HasActiveEntrant(m, e) || HasFinishedEntrant(m, e)
  }

  /** The source's `hasFinishedEntrant` is true even for an entrant that has never played. */
  lemma HasFinishedEntrantAsWrittenIsWrong<E>(e: E)
    ensures HasFinishedEntrantAsWritten(Empty(), e) && !HasFinishedEntrant(Empty<E>(), e)
  {
  }

  /** `isEmpty` iff there is no pairing at all. */
  lemma IsEmptyIffNoPairings<E>(m: PairingManager<E>)
    ensures IsEmpty(m) <==> forall p :: !Contains(m, p)
  {
    if !IsEmpty(m) {
      if HasActive(m) { var p :| p in Active(m); assert Contains(m, p); }
      else { var p :| p in Finished(m); assert Contains(m, p); }
    }
  }
}
