/** `Final`: the last round of four (or two) entrants. A queue holds the third-place pairing
 *  and then the first-place pairing; each pairing's result is recorded as placements. An
 *  entrant who leaves before their pairing is decided forfeits it, and coming back puts the
 *  pairing back into the queue. */
module Finals {
  import opened Wrappers
  import opened Errors
  import opened Seqs
  import opened Pairs
  import opened Placements
  import PM = PairingManagers
  import PL = PlacementManagers

  datatype Final<E> = Final(
    first: Pairing<E>,
    third: Option<Pairing<E>>,
    entrants: set<E>,
    queue: seq<Pairing<E>>,
    pairings: PM.PairingManager<E>,
    placements: PL.PlacementManager<E>)

  /** The pairings the final is made of. */
  function Scheduled<E>(f: Final<E>): set<Pairing<E>> {
    if f.third.Some? then {f.first, f.third.value} else {f.first}
  }

  /** Everyone who plays in one of the final's pairings. */
  function Members<E>(f: Final<E>): set<E> {
    if f.third.Some? then Sides(f.first) + Sides(f.third.value) else Sides(f.first)
  }

  predicate InFirst<E>(f: Final<E>, e: E) {
    Pairs.Contains(f.first, e)
  }

  predicate InThird<E>(f: Final<E>, e: E) {
    f.third.Some? && Pairs.Contains(f.third.value, e)
  }

  /** The two pairings share nobody, the entrants play in them, and each pairing is queued at
   *  most once and then only while it is neither active nor finished. */
  ghost predicate Valid<E>(f: Final<E>) {
    && (f.third.Some? ==> Sides(f.first) !! Sides(f.third.value))
    && f.entrants <= Members(f)
    && Distinct(f.queue) && Elems(f.queue) <= Scheduled(f)
    && PM.Valid(f.pairings)
    && PM.Active(f.pairings) <= Scheduled(f) && PM.Finished(f.pairings) <= Scheduled(f)
    && Elems(f.queue) !! PM.Active(f.pairings) && Elems(f.queue) !! PM.Finished(f.pairings)
    && PL.Sound(f.placements)
  }

  /** The constructor: `IllegalArgumentException` when the third-place pairing holds a side of
   *  the first-place pairing; otherwise the third-place pairing is played first, and everyone
   *  in the two pairings is an entrant with placement TBD. */
  function Create<E>(first: Pairing<E>, third: Option<Pairing<E>>): (r: Result<Final<E>, Error>)
    ensures r.Err? <==> third.Some? && !(Sides(first) !! Sides(third.value))
    ensures r.Err? ==> r.error == IllegalArgument
    ensures r.Ok? ==> r.value.first == first && r.value.third == third
    ensures r.Ok? ==> r.value.queue == (if third.Some? then [third.value, first] else [first])
    ensures r.Ok? ==> r.value.entrants == Members(r.value)
    ensures r.Ok? ==> PM.IsEmpty(r.value.pairings) && r.value.placements == PL.Empty()
    ensures r.Ok? ==> Valid(r.value)
  {
    if third.Some? && Pairs.Contains(third.value, first.first) then Err(IllegalArgument)
    else if third.Some? && Pairs.Contains(third.value, first.second) then Err(IllegalArgument)
    else
      var queue := if third.Some? then [third.value, first] else [first];
      var entrants := if third.Some? then Sides(third.value) + Sides(first) else Sides(first);
      assert Elems(queue) == (if third.Some? then {third.value, first} else {first});
      Ok(Final(first, third, entrants, queue, PM.Empty(), PL.Empty()))
  }

  /** `getPairingForEntrant`: the first-place pairing if it holds `e`, else the third-place
   *  pairing, which may be null. */
  function PairingFor<E>(f: Final<E>, e: E): (r: Option<Pairing<E>>)
    ensures r.Some? ==> r.value in Scheduled(f)
    ensures e in Members(f) ==> r.Some? && Pairs.Contains(r.value, e)
    ensures (f.third.Some? ==> Sides(f.first) !! Sides(f.third.value)) && e in Members(f) ==>
              (r == Some(f.first) <==> InFirst(f, e))
  {
    if InFirst(f, e) then Some(f.first) else f.third
  }

  /** Both sides of `p` back to TBD. */
  function ResetSides<E>(m: PL.PlacementManager<E>, p: Pairing<E>, e: E): (r: PL.PlacementManager<E>)
    ensures PL.GetPlacement(r, e) == Tbd && PL.GetPlacement(r, Other(p, e)) == Tbd
    ensures r.placements - {e, Other(p, e)} == m.placements - {e, Other(p, e)}
    ensures PL.Sound(m) ==> PL.Sound(r)
  {
    PL.SetPlacement(PL.SetPlacement(m, e, Tbd).state, Other(p, e), Tbd).state
  }

  /** The pairing back into the queue: the first-place pairing at the end, the third-place
   *  pairing at the front. */
  function Requeue<E>(queue: seq<Pairing<E>>, p: Pairing<E>, isFirst: bool): (r: seq<Pairing<E>>)
    ensures Elems(r) == Elems(queue) + {p}
    ensures Distinct(queue) && p !in queue ==> Distinct(r)
  {
    if isFirst then
      ElemsSnoc(queue, p);
      queue + [p]
    else
      ElemsCons(p, queue);
      DistinctCons(p, queue);
      [p] + queue
  }

  /** `addEntrant` as the source writes it: the pairing goes back into the queue whenever it
   *  is neither active nor finished, even when it is queued already. */
  function AddEntrantAsWritten<E>(f: Final<E>, e: E): (r: Result<Step<Final<E>, bool>, Error>)
    ensures r.Err? <==> e !in f.entrants && e !in Members(f)
    ensures r.Ok? ==> (r.value.value <==> e !in f.entrants) && r.value.state.entrants == f.entrants + {e}
    ensures r.Ok? && r.value.value ==>
              var p := PairingFor(f, e).value;
              r.value.state.queue == (if PM.Contains(f.pairings, p) then f.queue else Requeue(f.queue, p, InFirst(f, e)))
  {
    if e in f.entrants then Ok(Step(f, false))
    else if !InFirst(f, e) && f.third.None? then Err(Fault)
    else if !InFirst(f, e) && !Pairs.Contains(f.third.value, e) then Err(InvalidEntrant)
    else
      var p := if InFirst(f, e) then f.first else f.third.value;
      var placements := if !PM.IsFinished(f.pairings, p) then ResetSides(f.placements, p, e) else f.placements;
      var queue := if !PM.Contains(f.pairings, p) then Requeue(f.queue, p, InFirst(f, e)) else f.queue;
      Ok(Step(f.(entrants := f.entrants + {e}, queue := queue, placements := placements), true))
  }

  /** `addEntrant`: false for an entrant; `InvalidEntrantException` for someone outside both
   *  pairings (with no third-place pairing the source dereferences null: `Fault`). A
   *  returning entrant whose pairing is not finished has both sides at TBD again, and a
   *  pairing that is neither played, in play nor queued is queued again. */
  function AddEntrant<E>(f: Final<E>, e: E): (r: Result<Step<Final<E>, bool>, Error>)
    ensures r.Err? <==> e !in f.entrants && e !in Members(f)
    ensures r.Err? ==> r.error == (if InFirst(f, e) || f.third.Some? then InvalidEntrant else Fault)
    ensures r.Ok? ==> (r.value.value <==> e !in f.entrants) && r.value.state.entrants == f.entrants + {e}
    ensures r.Ok? ==> r.value.state.pairings == f.pairings
    ensures r.Ok? && !r.value.value ==> r.value.state == f
    ensures r.Ok? && r.value.value ==>
              var p := PairingFor(f, e).value;
              Elems(r.value.state.queue) == Elems(f.queue) + (if PM.Contains(f.pairings, p) then {} else {p}) &&
              (!PM.IsFinished(f.pairings, p) ==>
                 PL.GetPlacement(r.value.state.placements, e) == Tbd &&
                 PL.GetPlacement(r.value.state.placements, Other(p, e)) == Tbd)
  {
    if e in f.entrants then Ok(Step(f, false))
    else if !InFirst(f, e) && f.third.None? then Err(Fault)
    else if !InFirst(f, e) && !Pairs.Contains(f.third.value, e) then Err(InvalidEntrant)
    else
      var p := if InFirst(f, e) then f.first else f.third.value;
      var placements := if !PM.IsFinished(f.pairings, p) then ResetSides(f.placements, p, e) else f.placements;
      var queue := if !PM.Contains(f.pairings, p) && p !in f.queue then Requeue(f.queue, p, InFirst(f, e)) else f.queue;
      Ok(Step(f.(entrants := f.entrants + {e}, queue := queue, placements := placements), true))
  }

  /** `removeEntrant`: false for a non-entrant. An entrant whose pairing is not finished
   *  forfeits it: NONE for the entrant, FIRST or THIRD for the opponent, and the pairing is
   *  neither active nor queued any more. A finished pairing keeps its placements. */
  function RemoveEntrant<E>(f: Final<E>, e: E): (r: Result<Step<Final<E>, bool>, Error>)
    ensures r.Ok? ==> (r.value.value <==> e in f.entrants) && r.value.state.entrants == f.entrants - {e}
    ensures r.Ok? && !r.value.value ==> r.value.state == f
    ensures r.Err? ==> r.error == Fault || r.error == NoSuchElement
    ensures e in f.entrants && e in Members(f) ==> r.Ok?
    ensures r.Ok? && r.value.value ==> PairingFor(f, e).Some?
    ensures r.Ok? && r.value.value && PM.IsFinished(f.pairings, PairingFor(f, e).value) ==>
              r.value.state == f.(entrants := f.entrants - {e})
    ensures r.Ok? && r.value.value && !PM.IsFinished(f.pairings, PairingFor(f, e).value) ==>
              var p := PairingFor(f, e).value;
              p.first != p.second ==>
                PL.GetPlacement(r.value.state.placements, e) == NoPlacement &&
                PL.GetPlacement(r.value.state.placements, Other(p, e)) == (if InFirst(f, e) then First else Third)
  {
    if e !in f.entrants then Ok(Step(f, false))
    else
      match PairingFor(f, e)
      case None => Err(Fault)
      case Some(p) =>
        if PM.IsFinished(f.pairings, p) then Ok(Step(f.(entrants := f.entrants - {e}), true))
        else
          match GetOther(p, e)
          case Err(x) => Err(x)
          case Ok(o) =>
            var forfeited := PL.SetPlacement(f.placements, e, NoPlacement).state;
            var placements := PL.SetPlacement(forfeited, o, if InFirst(f, e) then First else Third).state;
            var pairings := PM.Remove(f.pairings, p).state;
            var queue := if !PM.Contains(pairings, p) then RemoveFirst(f.queue, p) else f.queue;
            Ok(Step(f.(entrants := f.entrants - {e}, queue := queue, pairings := pairings, placements := placements), true))
  }

  /** `nextPairing`: `NoMorePairingsException` on an empty queue; otherwise the head of the
   *  queue is taken off and made active. */
  function NextPairing<E>(f: Final<E>): (r: Result<Step<Final<E>, Pairing<E>>, Error>)
    ensures r == Err(NoMorePairings) <==> |f.queue| == 0
    ensures r.Err? && |f.queue| > 0 ==> r.error == IllegalArgument
    ensures r.Ok? ==> r.value.value == f.queue[0] && r.value.state.queue == f.queue[1..] &&
                      r.value.state.entrants == f.entrants && r.value.state.placements == f.placements
    ensures r.Ok? && !PM.IsFinished(f.pairings, f.queue[0]) ==> PM.IsActive(r.value.state.pairings, f.queue[0])
  {
    if |f.queue| == 0 then Err(NoMorePairings)
    else
      match PM.Add(f.pairings, f.queue[0])
      case Err(x) => Err(x)
      case Ok(s) => Ok(Step(f.(queue := f.queue[1..], pairings := s.state), f.queue[0]))
  }

  /** `replayPairing`: false for an active pairing, `NoSuchPairingException` for one that is
   *  not finished; otherwise both sides are TBD again and the pairing is active again. No
   *  side has to be an entrant. */
  function ReplayPairing<E>(f: Final<E>, p: Pairing<E>): (r: Result<Step<Final<E>, bool>, Error>)
    ensures PM.IsActive(f.pairings, p) ==> r == Ok(Step(f, false))
    ensures r == Err(NoSuchPairing) <==> !PM.Contains(f.pairings, p)
    ensures r.Ok? ==> r.value.state.entrants == f.entrants && r.value.state.queue == f.queue
    ensures r.Ok? && r.value.value ==>
              PL.GetPlacement(r.value.state.placements, p.first) == Tbd &&
              PL.GetPlacement(r.value.state.placements, p.second) == Tbd
  {
    if PM.IsActive(f.pairings, p) then Ok(Step(f, false))
    else if !PM.IsFinished(f.pairings, p) then Err(NoSuchPairing)
    else
      var placements := PL.ResetPlacement(PL.ResetPlacement(f.placements, p.first).state, p.second).state;
      var pairings := PM.RemoveFinished(f.pairings, p).state;
      match PM.Add(pairings, p)
      case Err(x) => Err(x)
      case Ok(s) => Ok(Step(f.(pairings := s.state, placements := placements), true))
  }

  /** Placements for the winner `w` and the loser `l` of `p`: FIRST and SECOND for the
   *  first-place pairing, THIRD and NONE for the third-place pairing. */
  function Award<E>(f: Final<E>, p: Pairing<E>, w: E, l: E): (r: PL.PlacementManager<E>)
    ensures w != l && p == f.first ==>
              PL.GetPlacement(r, w) == First && PL.GetPlacement(r, l) == Second
    ensures w != l && p != f.first && f.third == Some(p) ==>
              PL.GetPlacement(r, w) == Third && PL.GetPlacement(r, l) == NoPlacement
    ensures r.placements - {w, l} == f.placements.placements - {w, l}
    ensures PL.Sound(f.placements) ==> PL.Sound(r)
  {
    if p == f.first then
      PL.SetPlacement(PL.SetPlacement(f.placements, w, First).state, l, Second).state
    else if f.third == Some(p) then
      PL.SetPlacement(PL.SetPlacement(f.placements, w, Third).state, l, NoPlacement).state
    else f.placements
  }

  /** `declareWinner(entrant, pairing)`: `IllegalArgumentException` when the winner is not in
   *  the pairing, `NoSuchEntrantException` for a non-entrant, `NoSuchPairingException` when
   *  the pairing is not active; otherwise the placements are awarded and the pairing is
   *  finished. */
  function DeclareWinnerIn<E>(f: Final<E>, w: E, p: Pairing<E>): (r: Result<Final<E>, Error>)
    ensures r == Err(IllegalArgument) <==> !Pairs.Contains(p, w)
    ensures r == Err(NoSuchEntrant) <==> Pairs.Contains(p, w) && w !in f.entrants
    ensures r == Err(NoSuchPairing) <==> Pairs.Contains(p, w) && w in f.entrants && !PM.IsActive(f.pairings, p)
    ensures r.Ok? ==> r.value.entrants == f.entrants && r.value.queue == f.queue
    ensures r.Ok? ==> PM.IsFinished(r.value.pairings, p)
    ensures r.Ok? && PM.Valid(f.pairings) ==>
              PM.Active(r.value.pairings) == PM.Active(f.pairings) - {p} &&
              PM.Finished(r.value.pairings) == PM.Finished(f.pairings) + {p} && PM.Valid(r.value.pairings)
    ensures r.Ok? && p.first != p.second ==> r.value.placements == Award(f, p, w, Other(p, w))
  {
    if !Pairs.Contains(p, w) then Err(IllegalArgument)
    else if w !in f.entrants then Err(NoSuchEntrant)
    else if !PM.IsActive(f.pairings, p) then Err(NoSuchPairing)
    else
      var placements := Award(f, p, w, Other(p, w));
      Ok(f.(pairings := PM.Finish(f.pairings, p).value.state, placements := placements))
  }

  /** `declareWinner(entrant)`: `NoSuchEntrantException` for a non-entrant,
   *  `MissingPairingException` when the entrant's pairing is not active; otherwise that
   *  pairing is decided and returned. */
  function DeclareWinner<E>(f: Final<E>, w: E): (r: Result<Step<Final<E>, Pairing<E>>, Error>)
    ensures r == Err(NoSuchEntrant) <==> w !in f.entrants
    ensures w in f.entrants && w in Members(f) && !PM.IsActive(f.pairings, PairingFor(f, w).value) ==>
              r == Err(MissingPairing)
    ensures w in f.entrants && w in Members(f) && PM.IsActive(f.pairings, PairingFor(f, w).value) ==> r.Ok?
    ensures r.Ok? ==> Some(r.value.value) == PairingFor(f, w) && Ok(r.value.state) == DeclareWinnerIn(f, w, r.value.value)
  {
    if w !in f.entrants then Err(NoSuchEntrant)
    else
      match PairingFor(f, w)
      case None => Err(MissingPairing)
      case Some(p) =>
        if !PM.IsActive(f.pairings, p) then Err(MissingPairing)
        else
          match DeclareWinnerIn(f, w, p)
          case Err(x) => Err(x)
          case Ok(s) => Ok(Step(s, p))
  }

  /** `resetEntrant`, unsupported in a ranking round. */
  function ResetEntrant<E>(f: Final<E>, e: E): (r: Result<Step<Final<E>, bool>, Error>)
    ensures r.Err? && r.error == Unsupported
  {
    Err(Unsupported)
  }

  /** `declareTie`, unsupported in a ranking round. */
  function DeclareTie<E>(f: Final<E>, p: Pairing<E>): (r: Result<Final<E>, Error>)
    ensures r.Err? && r.error == Unsupported
  {
    Err(Unsupported)
  }

  /** `hasEntrantResult`: the entrant's placement is not TBD. */
  predicate HasEntrantResult<E>(f: Final<E>, e: E) {
    PL.GetPlacement(f.placements, e) != Tbd
  }

  /** `isFinished`: nothing queued and nothing active. */
  predicate IsFinished<E>(f: Final<E>) {
    |f.queue| == 0 && !PM.HasActive(f.pairings)
  }

  /** `setFirstPlacePairingFirst`: the first-place pairing moves to the head of the queue if
   *  it is queued. */
  function SetFirstPlacePairingFirst<E>(f: Final<E>): (r: Final<E>)
    ensures |r.queue| == |f.queue| && r == f.(queue := r.queue)
    ensures f.first in f.queue ==> r.queue[0] == f.first
    ensures Valid(f) ==> Valid(r) && Elems(r.queue) == Elems(f.queue)
  {
    MoveToFrontKeepsElems(f.queue, f.first);
    f.(queue := MoveToFront(f.queue, f.first))
  }

  /** `setThirdPlacePairingFirst`: the third-place pairing moves to the head of the queue if
   *  there is one and it is queued. */
  function SetThirdPlacePairingFirst<E>(f: Final<E>): (r: Final<E>)
    ensures |r.queue| == |f.queue| && r == f.(queue := r.queue)
    ensures f.third.Some? && f.third.value in f.queue ==> r.queue[0] == f.third.value
    ensures Valid(f) ==> Valid(r) && Elems(r.queue) == Elems(f.queue)
  {
    if f.third.Some? then
      MoveToFrontKeepsElems(f.queue, f.third.value);
      f.(queue := MoveToFront(f.queue, f.third.value))
    else f
  }

  lemma MoveToFrontKeepsElems<T>(s: seq<T>, x: T)
    ensures Distinct(s) ==> Distinct(MoveToFront(s, x)) && Elems(MoveToFront(s, x)) == Elems(s)
  {
    if x in s && Distinct(s) {
      ElemsCons(x, RemoveFirst(s, x));
      DistinctCons(x, RemoveFirst(s, x));
    }
  }
}
