/** `DynamicElimination`: an elimination round that draws each pairing at random from the
 *  pending entrants, while entrants may still join, leave and be reset. An entrant of the
 *  round is pending, paired (in an active pairing) or has a result. A removed entrant's
 *  result is kept as a floating result, so that adding the entrant again restores it. */
module DynamicEliminations {
  import opened Wrappers
  import opened Errors
  import opened Seqs
  import opened Pairs
  import SS = ShuffledSets
  import RM = ResultManagers
  import PM = PairingManagers

  datatype DynamicElimination<E> = DynamicElimination(
    entrants: set<E>,
    pending: SS.ShuffledSet<E>,
    results: RM.ResultManager<E>,
    floating: RM.ResultManager<E>,
    pairings: PM.PairingManager<E>)

  function Empty<E>(): (d: DynamicElimination<E>)
    ensures d.entrants == {} && Pending(d) == {} && Decided(d) == {} && Floating(d) == {}
    ensures PM.IsEmpty(d.pairings)
  {
    DynamicElimination({}, SS.Empty(), RM.Empty(), RM.Empty(), PM.Empty())
  }

  /** `getPendingEntrants`. */
  function Pending<E>(d: DynamicElimination<E>): set<E> {
    d.pending.elements
  }

  /** The entrants in an active pairing. */
  function Paired<E>(d: DynamicElimination<E>): set<E> {
    PM.ActiveEntrants(d.pairings)
  }

  /** The entrants with a result: `getAdvancedEntrants` and `getEliminatedEntrants`. */
  function Decided<E>(d: DynamicElimination<E>): set<E> {
    d.results.advanced + d.results.eliminated
  }

  /** The entrants with a floating result: removed after their pairing was decided. */
  function Floating<E>(d: DynamicElimination<E>): set<E> {
    d.floating.advanced + d.floating.eliminated
  }

  /** How the round keeps its entrants apart. Every entrant is exactly one of pending, paired
   *  and decided, and a removed entrant keeps at most a floating result. A pairing is between
   *  two different entrants, and a finished one has a side with a (possibly floating) result;
   *  `resetEntrant` drops the finished pairings for which that stops being so. */
  ghost predicate Valid<E>(d: DynamicElimination<E>) {
    && SS.Valid(d.pending) && RM.Valid(d.results) && RM.Valid(d.floating) && PM.Valid(d.pairings)
    && Pending(d) !! Paired(d) && Pending(d) !! Decided(d) && Paired(d) !! Decided(d)
    && d.entrants == Pending(d) + Paired(d) + Decided(d)
    && d.entrants !! Floating(d)
    && (forall p :: p in PM.Active(d.pairings) ==> p.first != p.second)
    && (forall p :: p in PM.Finished(d.pairings) ==> p.first != p.second)
    && (forall p :: p in PM.Finished(d.pairings) ==>
          p.first in Decided(d) + Floating(d) || p.second in Decided(d) + Floating(d))
  }

  /** `contains`. */
  predicate Contains<E>(d: DynamicElimination<E>, e: E) {
    e in d.entrants
  }

  /** `hasStateAbout`: an entrant of the round, or one with a floating result. */
  predicate HasStateAbout<E>(d: DynamicElimination<E>, e: E) {
    Contains(d, e) || RM.Contains(d.floating, e)
  }

  /** `hasResult`. */
  predicate HasResult<E>(d: DynamicElimination<E>, e: E) {
    RM.Contains(d.results, e)
  }

  /** `isPending`. */
  predicate IsPending<E>(d: DynamicElimination<E>, e: E) {
    e in d.pending.elements
  }

  /** `isPaired`. */
  predicate IsPaired<E>(d: DynamicElimination<E>, e: E) {
    PM.HasActiveEntrant(d.pairings, e)
  }

  predicate IsAdvanced<E>(d: DynamicElimination<E>, e: E) {
    RM.IsAdvanced(d.results, e)
  }

  predicate IsEliminated<E>(d: DynamicElimination<E>, e: E) {
    RM.IsEliminated(d.results, e)
  }

  /** `hasActivePairings`. */
  predicate HasActivePairings<E>(d: DynamicElimination<E>) {
    PM.HasActive(d.pairings)
  }

  /** `isFinished`: nobody pending and no active pairing. */
  predicate IsFinished<E>(d: DynamicElimination<E>) {
    d.pending.elements == {} && !PM.HasActive(d.pairings)
  }

  /** `addEntrant` as the source writes it: an entrant with a floating result gets the result
   *  back, but is not put back into `entrants`. */
  function AddEntrantAsWritten<E>(d: DynamicElimination<E>, e: E): (r: Step<DynamicElimination<E>, bool>)
    ensures r.value <==> e !in d.entrants
    ensures r.value && RM.Contains(d.floating, e) ==> !Contains(r.state, e) && HasResult(r.state, e)
    ensures r.value && !RM.Contains(d.floating, e) ==> r == AddEntrant(d, e)
  {
    if e in d.entrants then Step(d, false)
    else if RM.Contains(d.floating, e) then
      var t := RM.MoveTo(d.floating, d.results, e);
      Step(d.(floating := t.source, results := t.target), true)
    else Step(d.(entrants := d.entrants + {e}, pending := SS.Add(d.pending, e).state), true)
  }

  /** `addEntrant`: false for an entrant of the round; a returning entrant gets its floating
   *  result back, a new one becomes pending, and either way it is an entrant again. */
  function AddEntrant<E>(d: DynamicElimination<E>, e: E): (r: Step<DynamicElimination<E>, bool>)
    ensures r.value <==> e !in d.entrants
    ensures !r.value ==> r.state == d
    ensures r.state.entrants == d.entrants + {e}
    ensures r.value ==> !RM.Contains(r.state.floating, e)
    ensures r.value && RM.Contains(d.floating, e) ==>
              HasResult(r.state, e) && (IsAdvanced(r.state, e) <==> RM.IsAdvanced(d.floating, e)) &&
              Pending(r.state) == Pending(d)
    ensures r.value && !RM.Contains(d.floating, e) ==>
              Pending(r.state) == Pending(d) + {e} && r.state.results == d.results
    ensures r.state.pairings == d.pairings
    ensures Floating(r.state) <= Floating(d)
  {
    if e in d.entrants then Step(d, false)
    else if RM.Contains(d.floating, e) then
      var t := RM.MoveTo(d.floating, d.results, e);
      Step(d.(entrants := d.entrants + {e}, floating := t.source, results := t.target), true)
    else Step(d.(entrants := d.entrants + {e}, pending := SS.Add(d.pending, e).state), true)
  }

  /** The collection constructor: the entrants are added in the collection's order. */
  function FromSeq<E>(es: seq<E>): (d: DynamicElimination<E>)
    ensures d.entrants == Elems(es) && Pending(d) == Elems(es)
    ensures Decided(d) == {} && Floating(d) == {} && d.pairings == PM.Empty()
    decreases |es|
  {
    if |es| == 0 then Empty()
    else
      var init := FromSeq(es[..|es| - 1]);
      assert es == es[..|es| - 1] + [es[|es| - 1]];
      assert Elems(es) == Elems(es[..|es| - 1]) + {es[|es| - 1]};
      AddEntrant(init, es[|es| - 1]).state
  }

  /** `registerPairing`: the pairing of `a` and `b` becomes active; the source checks neither
   *  entrant. */
  function RegisterPairing<E>(d: DynamicElimination<E>, a: E, b: E): (r: Result<Step<DynamicElimination<E>, Pairing<E>>, Error>)
    ensures r.Err? <==> PM.Add(d.pairings, Pair(a, b)).Err?
    ensures r.Err? ==> r.error == IllegalArgument
    ensures r.Ok? ==> r.value.value == Pair(a, b)
    ensures r.Ok? && !PM.IsFinished(d.pairings, Pair(a, b)) ==> PM.IsActive(r.value.state.pairings, Pair(a, b))
    ensures r.Ok? ==> r.value.state == d.(pairings := r.value.state.pairings)
  {
    match PM.Add(d.pairings, Pair(a, b))
    case Err(x) => Err(x)
    case Ok(s) => Ok(Step(d.(pairings := s.state), Pair(a, b)))
  }

  /** A set holding `x` has a second member iff it has two. */
  lemma AnotherMember<E>(s: set<E>, x: E)
    requires x in s
    ensures |s| >= 2 <==> s - {x} != {}
  {
    if s - {x} == {} {
      assert s == {x};
    } else {
      var y :| y in s - {x};
      assert s == (s - {x, y}) + {x, y};
      assert |s| == |s - {x, y}| + |{x, y}|;
    }
  }

  /** The two `removeRandom` calls of `nextPairing`: two members in the order drawn, or
   *  `None` when a draw finds the set empty. */
  function DrawTwo<E>(s: SS.ShuffledSet<E>, rng: nat -> nat): (r: Step<SS.ShuffledSet<E>, Option<Pairing<E>>>)
    ensures r.value.Some? ==> r.state.elements == s.elements - Sides(r.value.value)
    ensures SS.Valid(s) && r.value.Some? ==> r.value.value.first != r.value.value.second
    ensures SS.Valid(s) ==> SS.Valid(r.state)
    ensures SS.Valid(s) && r.value.Some? ==> Sides(r.value.value) <= s.elements
    ensures SS.Valid(s) ==> (r.value.Some? <==> |s.elements| >= 2)
  {
    var draw1 := SS.RemoveRandom(s, rng);
    if draw1.value.None? then Step(draw1.state, None)
    else
      var a := draw1.value.value;
      assert SS.Valid(s) ==> (|s.elements| >= 2 <==> draw1.state.elements != {}) by {
        if SS.Valid(s) { AnotherMember(s.elements, a); }
      }
      var draw2 := SS.RemoveRandom(draw1.state, rng);
      if draw2.value.None? then Step(draw2.state, None)
      else
        var b := draw2.value.value;
        assert draw2.state.elements == s.elements - {a, b};
        Step(draw2.state, Some(Pair(a, b)))
  }

  /** `nextPairing`: `NoEntrantsException` with nobody pending, `NoOpponentException` with one
   *  pending entrant, and otherwise two pending entrants drawn with `rng` are paired. An
   *  empty draw, which the source wraps in a `RuntimeException`, is `Fault`. */
  function NextPairing<E>(d: DynamicElimination<E>, rng: nat -> nat): (r: Result<Step<DynamicElimination<E>, Pairing<E>>, Error>)
    ensures r == Err(NoEntrants) <==> |Pending(d)| == 0
    ensures |Pending(d)| == 1 ==> r == Err(NoOpponent)
    ensures SS.Valid(d.pending) && |Pending(d)| >= 2 && r.Err? ==> r.error == IllegalArgument
    ensures r.Ok? ==> var p := r.value.value;
              Pending(r.value.state) == Pending(d) - Sides(p) &&
              r.value.state.entrants == d.entrants && r.value.state.results == d.results &&
              r.value.state.floating == d.floating
    ensures r.Ok? && !PM.IsFinished(d.pairings, r.value.value) ==> PM.IsActive(r.value.state.pairings, r.value.value)
    ensures SS.Valid(d.pending) && r.Ok? ==>
              r.value.value.first != r.value.value.second && Sides(r.value.value) <= Pending(d) &&
              SS.Valid(r.value.state.pending)
  {
    if |Pending(d)| == 0 then Err(NoEntrants)
    else if |Pending(d)| == 1 then Err(NoOpponent)
    else
      var draw := DrawTwo(d.pending, rng);
      match draw.value
      case None => Err(Fault)
      case Some(p) => RegisterPairing(d.(pending := draw.state), p.first, p.second)
  }

  /** `finishPairing`: the active pairing moves to the finished ones. A pairing that is not
   *  active, which the source wraps in a `RuntimeException`, is `Fault`. */
  function FinishPairing<E>(d: DynamicElimination<E>, p: Pairing<E>): (r: Result<DynamicElimination<E>, Error>)
    ensures r.Err? <==> !PM.Contains(d.pairings, p)
    ensures r.Err? ==> r.error == Fault
    ensures PM.IsActive(d.pairings, p) && !PM.IsFinished(d.pairings, p) ==>
              (r.Ok? &&
               PM.Active(r.value.pairings) == PM.Active(d.pairings) - {p} &&
               PM.Finished(r.value.pairings) == PM.Finished(d.pairings) + {p} &&
               Paired(r.value) == Paired(d) - Sides(p) &&
               PM.FinishedEntrants(r.value.pairings) == PM.FinishedEntrants(d.pairings) + Sides(p))
    ensures r.Ok? ==> r.value == d.(pairings := r.value.pairings)
  {
    match PM.Finish(d.pairings, p)
    case Err(_) => Err(Fault)
    case Ok(s) => Ok(d.(pairings := s.state))
  }

  /** `declareWinner(entrant, pairing)`: `IllegalArgumentException` when the winner is not in
   *  the pairing, `NoSuchEntrantException` when it is not an entrant, `NoSuchPairingException`
   *  when the pairing is not active; otherwise the winner advances, the other side is
   *  eliminated and the pairing is finished. */
  function DeclareWinnerIn<E>(d: DynamicElimination<E>, w: E, p: Pairing<E>): (r: Result<DynamicElimination<E>, Error>)
    ensures r == Err(IllegalArgument) <==> !Pairs.Contains(p, w)
    ensures r == Err(NoSuchEntrant) <==> Pairs.Contains(p, w) && !Contains(d, w)
    ensures r == Err(NoSuchPairing) <==>
              Pairs.Contains(p, w) && Contains(d, w) && !PM.IsActive(d.pairings, p)
    ensures r.Err? ==> r.error in {IllegalArgument, NoSuchEntrant, NoSuchPairing}
    ensures r.Ok? && p.first != p.second ==>
              IsAdvanced(r.value, w) && IsEliminated(r.value, Other(p, w))
    ensures r.Ok? ==> r.value.results.advanced - Sides(p) == d.results.advanced - Sides(p)
    ensures r.Ok? ==> r.value.results.eliminated - Sides(p) == d.results.eliminated - Sides(p)
    ensures r.Ok? ==> r.value.entrants == d.entrants && r.value.pending == d.pending &&
                      r.value.floating == d.floating
    ensures r.Ok? && PM.Valid(d.pairings) ==>
              PM.Active(r.value.pairings) == PM.Active(d.pairings) - {p} &&
              PM.Finished(r.value.pairings) == PM.Finished(d.pairings) + {p} &&
              Paired(r.value) == Paired(d) - Sides(p) &&
              PM.FinishedEntrants(r.value.pairings) == PM.FinishedEntrants(d.pairings) + Sides(p)
  {
    if !Pairs.Contains(p, w) then Err(IllegalArgument)
    else if !Contains(d, w) then Err(NoSuchEntrant)
    else if !PM.IsActive(d.pairings, p) then Err(NoSuchPairing)
    else FinishPairing(d.(results := RM.Eliminate(RM.Advance(d.results, w), Other(p, w))), p)
  }

  /** `declareWinner(entrant)`: `NoSuchEntrantException` for a non-entrant,
   *  `MissingPairingException` when the entrant is not paired; otherwise its pairing is
   *  decided and returned. A `NoSuchPairingException` from the inner call, which the source
   *  wraps in a `RuntimeException`, is `Fault`. */
  function DeclareWinner<E>(d: DynamicElimination<E>, w: E): (r: Result<Step<DynamicElimination<E>, Pairing<E>>, Error>)
    ensures r == Err(NoSuchEntrant) <==> !Contains(d, w)
    ensures Contains(d, w) && PM.FindActiveByEntrant(d.pairings, w).None? ==> r == Err(MissingPairing)
    ensures r.Ok? ==> Some(r.value.value) == PM.FindActiveByEntrant(d.pairings, w) &&
                      Ok(r.value.state) == DeclareWinnerIn(d, w, r.value.value)
  {
    if !Contains(d, w) then Err(NoSuchEntrant)
    else
      match PM.FindActiveByEntrant(d.pairings, w)
      case None => Err(MissingPairing)
      case Some(p) =>
        match DeclareWinnerIn(d, w, p)
        case Err(x) => if x == NoSuchPairing then Err(Fault) else Err(x)
        case Ok(s) => Ok(Step(s, p))
  }

  /** `declareTie` as the source writes it: the pairing is finished and nobody gets a
   *  result. */
  function DeclareTieAsWritten<E>(d: DynamicElimination<E>, p: Pairing<E>): (r: Result<DynamicElimination<E>, Error>)
    ensures r.Err? <==> !PM.IsActive(d.pairings, p)
    ensures r.Err? ==> r.error == NoSuchPairing
    ensures r.Ok? ==> r.value.results == d.results && r.value.pending == d.pending
    ensures r.Ok? && PM.Valid(d.pairings) ==> Paired(r.value) == Paired(d) - Sides(p)
  {
    if !PM.IsActive(d.pairings, p) then Err(NoSuchPairing)
    else FinishPairing(d, p)
  }

  /** `declareTie`: `NoSuchPairingException` for a pairing that is not active; otherwise both
   *  sides are eliminated and the pairing is finished. */
  function DeclareTie<E>(d: DynamicElimination<E>, p: Pairing<E>): (r: Result<DynamicElimination<E>, Error>)
    ensures r.Err? <==> !PM.IsActive(d.pairings, p)
    ensures r.Err? ==> r.error == NoSuchPairing
    ensures r.Ok? ==> IsEliminated(r.value, p.first) && IsEliminated(r.value, p.second)
    ensures r.Ok? ==> r.value.results.advanced == d.results.advanced - Sides(p)
    ensures r.Ok? ==> r.value.results.eliminated == d.results.eliminated + Sides(p)
    ensures r.Ok? ==> r.value.entrants == d.entrants && r.value.pending == d.pending &&
                      r.value.floating == d.floating
    ensures r.Ok? && PM.Valid(d.pairings) ==>
              PM.Active(r.value.pairings) == PM.Active(d.pairings) - {p} &&
              PM.Finished(r.value.pairings) == PM.Finished(d.pairings) + {p} &&
              Paired(r.value) == Paired(d) - Sides(p)
  {
    if !PM.IsActive(d.pairings, p) then Err(NoSuchPairing)
    else FinishPairing(d.(results := RM.Eliminate(RM.Eliminate(d.results, p.first), p.second)), p)
  }

  /** `isPairingOrphaned`: false for an active pairing, `NoSuchPairingException` for one that
   *  is not finished; a finished pairing is orphaned when a side is paired again, or a side
   *  that is not pending has finished another pairing since. */
  function IsPairingOrphaned<E>(d: DynamicElimination<E>, p: Pairing<E>): (r: Result<bool, Error>)
    ensures r.Err? <==> !PM.Contains(d.pairings, p)
    ensures r.Err? ==> r.error == NoSuchPairing
    ensures PM.IsActive(d.pairings, p) ==> r == Ok(false)
    ensures !PM.IsActive(d.pairings, p) && PM.IsFinished(d.pairings, p) ==>
              (r == Ok(true) <==>
                 IsPaired(d, p.first) || IsPaired(d, p.second) ||
                 (|PM.FindFinishedByEntrant(d.pairings, p.first)| > 1 && !IsPending(d, p.first)) ||
                 (|PM.FindFinishedByEntrant(d.pairings, p.second)| > 1 && !IsPending(d, p.second)))
  {
    if PM.IsActive(d.pairings, p) then Ok(false)
    else if !PM.IsFinished(d.pairings, p) then Err(NoSuchPairing)
    else if IsPaired(d, p.first) || IsPaired(d, p.second) then Ok(true)
    else
      var nFirst := |PM.FindFinishedByEntrant(d.pairings, p.first)|;
      var nSecond := |PM.FindFinishedByEntrant(d.pairings, p.second)|;
      Ok((nFirst > 1 && !IsPending(d, p.first)) || (nSecond > 1 && !IsPending(d, p.second)))
  }

  /** `replayPairing`: false for an active pairing; `NoSuchPairingException` for one that is
   *  not finished, `MissingEntrantException` when a side left the round,
   *  `OrphanedPairingException` for an orphaned one; otherwise both sides lose their results
   *  and the pairing is registered anew. */
  function ReplayPairing<E>(d: DynamicElimination<E>, p: Pairing<E>): (r: Result<Step<DynamicElimination<E>, bool>, Error>)
    ensures PM.IsActive(d.pairings, p) ==> r == Ok(Step(d, false))
    ensures r == Err(NoSuchPairing) <==> !PM.Contains(d.pairings, p)
    ensures r == Err(MissingEntrant) <==>
              PM.IsFinished(d.pairings, p) && !PM.IsActive(d.pairings, p) &&
              (!Contains(d, p.first) || !Contains(d, p.second))
    ensures r == Err(OrphanedPairing) <==>
              PM.IsFinished(d.pairings, p) && !PM.IsActive(d.pairings, p) &&
              Contains(d, p.first) && Contains(d, p.second) && IsPairingOrphaned(d, p) == Ok(true)
    ensures r.Ok? && r.value.value && PM.Valid(d.pairings) ==> PM.IsActive(r.value.state.pairings, p)
    ensures r.Ok? && r.value.value ==>
              !HasResult(r.value.state, p.first) && !HasResult(r.value.state, p.second) &&
              !IsPending(r.value.state, p.first) && !IsPending(r.value.state, p.second) &&
              r.value.state.entrants == d.entrants && r.value.state.floating == d.floating
  {
    if PM.IsActive(d.pairings, p) then Ok(Step(d, false))
    else if !PM.IsFinished(d.pairings, p) then Err(NoSuchPairing)
    else if !Contains(d, p.first) || !Contains(d, p.second) then Err(MissingEntrant)
    else if IsPairingOrphaned(d, p) == Ok(true) then Err(OrphanedPairing)
    else
      var results := RM.Reset(RM.Reset(d.results, p.first), p.second);
      var pairings := PM.Remove(d.pairings, p).state;
      var pending := SS.Remove(SS.Remove(d.pending, p.first).state, p.second).state;
      match RegisterPairing(d.(results := results, pairings := pairings, pending := pending), p.first, p.second)
      case Err(x) => Err(x)
      case Ok(s) => Ok(Step(s.state, true))
  }

  /** The first half of `resetEntrant`: a paired entrant's pairing is cancelled and both sides
   *  are pending again; a decided entrant loses its result and is pending again; a removed
   *  entrant loses its floating result. A pairing that does not contain the entrant, which
   *  the source reports with a `RuntimeException`, is `Fault`. */
  function ClearEntrant<E>(d: DynamicElimination<E>, e: E): (r: Result<DynamicElimination<E>, Error>)
    ensures PM.Valid(d.pairings) ==> r.Ok? && PM.Valid(r.value.pairings)
    ensures r.Err? ==> r.error == Fault
    ensures r.Ok? ==> r.value.entrants == d.entrants && r.value.pairings.finished == d.pairings.finished
    ensures Valid(d) && r.Ok? ==>
              !HasResult(r.value, e) && !RM.Contains(r.value.floating, e) && !IsPaired(r.value, e)
    ensures Valid(d) && r.Ok? ==> Decided(r.value) == Decided(d) - {e} && Floating(r.value) == Floating(d) - {e}
    ensures Valid(d) && r.Ok? && IsPaired(d, e) ==>
              Pending(r.value) == Pending(d) + Sides(PM.FindActiveByEntrant(d.pairings, e).value)
    ensures Valid(d) && r.Ok? && !IsPaired(d, e) && HasResult(d, e) ==> Pending(r.value) == Pending(d) + {e}
    ensures Valid(d) && r.Ok? && !IsPaired(d, e) && !HasResult(d, e) ==> Pending(r.value) == Pending(d)
  {
    match PM.FindActiveByEntrant(d.pairings, e)
    case Some(p) =>
      (match GetOther(p, e)
       case Err(_) => Err(Fault)
       case Ok(o) =>
         var pairings := PM.RemoveActiveByEntrant(d.pairings, e).state;
         Ok(d.(pairings := pairings, pending := SS.Add(SS.Add(d.pending, o).state, e).state)))
    case None =>
      if HasResult(d, e) then Ok(d.(results := RM.Reset(d.results, e), pending := SS.Add(d.pending, e).state))
      else if RM.Contains(d.floating, e) then Ok(d.(floating := RM.Reset(d.floating, e)))
      else Ok(d)
  }

  /** The finished pairings of `e` in `ps` whose other side has no result and no floating
   *  result: the ones `resetEntrant` drops. */
  function Unbacked<E>(d: DynamicElimination<E>, e: E, ps: seq<Pairing<E>>): set<Pairing<E>> {
    set q | q in ps && Pairs.Contains(q, e) && !HasResult(d, Other(q, e)) && !RM.Contains(d.floating, Other(q, e))
  }

  lemma UnbackedSplit<E>(d: DynamicElimination<E>, e: E, ps: seq<Pairing<E>>)
    requires |ps| > 0 && Pairs.Contains(ps[0], e)
    ensures var o := Other(ps[0], e);
            Unbacked(d, e, ps) ==
            Unbacked(d, e, ps[1..]) + (if !HasResult(d, o) && !RM.Contains(d.floating, o) then {ps[0]} else {})
  {
    assert forall q :: q in ps <==> q == ps[0] || q in ps[1..];
  }

  /** The loop of `resetEntrant` over the finished pairings `ps` of `e`: each whose other side
   *  has no result in `d` is removed from `m`. */
  function Prune<E>(d: DynamicElimination<E>, m: PM.PairingManager<E>, e: E, ps: seq<Pairing<E>>): (r: Result<PM.PairingManager<E>, Error>)
    ensures r.Err? <==> exists i :: 0 <= i < |ps| && !Pairs.Contains(ps[i], e)
    ensures r.Err? ==> r.error == Fault
    ensures r.Ok? ==> r.value.active == m.active
    ensures r.Ok? && PM.Valid(m) ==>
              PM.Valid(r.value) && PM.Finished(r.value) == PM.Finished(m) - Unbacked(d, e, ps) &&
              PM.FinishedEntrants(r.value) == PM.FinishedEntrants(m)
    decreases |ps|
  {
    if |ps| == 0 then Ok(m)
    else
      match GetOther(ps[0], e)
      case Err(_) => Err(Fault)
      case Ok(o) =>
        var next := if !HasResult(d, o) && !RM.Contains(d.floating, o) then PM.RemoveFinished(m, ps[0]).state else m;
        var r := Prune(d, next, e, ps[1..]);
        assert Elems(ps) == {ps[0]} + Elems(ps[1..]) by { ElemsSplit(ps); }
        assert (exists i :: 0 <= i < |ps| && !Pairs.Contains(ps[i], e)) <==>
               (exists i :: 0 <= i < |ps[1..]| && !Pairs.Contains(ps[1..][i], e)) by {
          if exists i :: 0 <= i < |ps| && !Pairs.Contains(ps[i], e) {
            var i :| 0 <= i < |ps| && !Pairs.Contains(ps[i], e);
            assert ps[1..][i - 1] == ps[i];
          }
        }
        UnbackedSplit(d, e, ps);
        r
  }

  /** `resetEntrant`: false for an entrant the round knows nothing about or one that is
   *  pending; otherwise the entrant is cleared, and the finished pairings of the entrant whose
   *  other side has no result either are dropped. */
  function ResetEntrant<E>(d: DynamicElimination<E>, e: E): (r: Result<Step<DynamicElimination<E>, bool>, Error>)
    ensures r.Ok? && !r.value.value ==> r.value.state == d
    ensures r.Ok? ==> (r.value.value <==> HasStateAbout(d, e) && !IsPending(d, e))
    ensures !HasStateAbout(d, e) || IsPending(d, e) ==> r == Ok(Step(d, false))
    ensures Valid(d) && r.Ok? && r.value.value ==>
              !HasResult(r.value.state, e) && !RM.Contains(r.value.state.floating, e) && !IsPaired(r.value.state, e)
    ensures r.Ok? ==> r.value.state.entrants == d.entrants
    ensures PM.Valid(d.pairings) ==> r.Ok?
  {
    if !HasStateAbout(d, e) || IsPending(d, e) then Ok(Step(d, false))
    else
      match ClearEntrant(d, e)
      case Err(x) => Err(x)
      case Ok(cleared) =>
        var ps := Filter(cleared.pairings.finished.order, PM.FindFinishedByEntrant(cleared.pairings, e));
        assert PM.Valid(d.pairings) ==> forall i :: 0 <= i < |ps| ==> Pairs.Contains(ps[i], e) by {
          if PM.Valid(d.pairings) {
            forall i | 0 <= i < |ps| ensures Pairs.Contains(ps[i], e) {
              assert ps[i] in Elems(ps);
            }
          }
        }
        match Prune(cleared, cleared.pairings, e, ps)
        case Err(x) => Err(x)
        case Ok(m) => Ok(Step(cleared.(pairings := m), true))
  }

  /** `removeEntrant`: a pending entrant stops being pending; a paired one's pairing is
   *  cancelled and the opponent is pending again; a decided one's result becomes floating;
   *  the answer is whether it was an entrant. An entrant with a floating result is already
   *  removed: false. A pairing without the entrant, which the source reports with a
   *  `RuntimeException`, is `Fault`. */
  function RemoveEntrant<E>(d: DynamicElimination<E>, e: E): (r: Result<Step<DynamicElimination<E>, bool>, Error>)
    ensures PM.Valid(d.pairings) ==> r.Ok?
    ensures r.Err? ==> r.error == Fault
    ensures r.Ok? && r.value.value ==> Contains(d, e) && r.value.state.entrants == d.entrants - {e}
    ensures Valid(d) && r.Ok? ==>
              r.value.state.entrants == d.entrants - {e} && (r.value.value <==> Contains(d, e)) &&
              !IsPending(r.value.state, e) && !IsPaired(r.value.state, e) && !HasResult(r.value.state, e)
    ensures Valid(d) && r.Ok? && HasResult(d, e) ==>
              RM.Contains(r.value.state.floating, e) &&
              (RM.IsAdvanced(r.value.state.floating, e) <==> IsAdvanced(d, e))
    ensures Valid(d) && r.Ok? ==> Decided(r.value.state) == Decided(d) - {e}
    ensures Valid(d) && r.Ok? ==> r.value.state.entrants + Floating(r.value.state) <= d.entrants + Floating(d)
  {
    if IsPending(d, e) then
      Ok(Step(d.(pending := SS.Remove(d.pending, e).state, entrants := d.entrants - {e}), e in d.entrants))
    else
      match PM.FindActiveByEntrant(d.pairings, e)
      case Some(p) =>
        (match GetOther(p, e)
         case Err(_) => Err(Fault)
         case Ok(o) =>
           Ok(Step(d.(pending := SS.Add(d.pending, o).state, pairings := PM.RemoveActive(d.pairings, p).state,
                      entrants := d.entrants - {e}), e in d.entrants)))
      case None =>
        if HasResult(d, e) then
          var t := RM.MoveTo(d.results, d.floating, e);
          Ok(Step(d.(results := t.source, floating := t.target, entrants := d.entrants - {e}), e in d.entrants))
        else if RM.Contains(d.floating, e) then Ok(Step(d, false))
        else Ok(Step(d.(entrants := d.entrants - {e}), e in d.entrants))
  }
}
