/** `Tournament`: the current round and, after `nextRound`, the round before it. Only one
 *  round of history is kept, so going back twice in a row is not possible. Every entrant and
 *  pairing operation is the current round's. */
module Tournaments {
  import opened Wrappers
  import opened Errors
  import opened Pairs
  import opened Rounds
  import DF = DefaultFormats
  import PM = PairingManagers

  datatype Tournament<E> = Tournament(current: Round<E>, previous: Option<Round<E>>)

  ghost predicate Valid<E>(t: Tournament<E>) {
    Rounds.Valid(t.current) && (t.previous.Some? ==> Rounds.Valid(t.previous.value))
  }

  /** The constructor: the format's initial round, nothing to go back to. */
  function Create<E>(): Tournament<E> {
    Tournament(DF.CreateInitialRound(), None)
  }

  /** A new tournament is at the format's initial round, empty and unstarted, with nothing to
   *  go back to. */
  lemma CreateIsFresh<E>()
    ensures var t := Create<E>();
            t.previous.None? && t.current == DF.CreateInitialRound() &&
            Entrants(t.current) == {} && !HasStarted(t.current) && Valid(t)
  {
    DF.InitialRoundIsFresh<E>();
  }

  /** `nextRound`: the old current round becomes the previous one only when the format
   *  produces a successor; a failed call leaves the tournament as it was. */
  function NextRound<E>(t: Tournament<E>, order: seq<E>): (r: Result<Tournament<E>, Error>)
    ensures r == Err(RoundNotFinished) <==> !IsFinished(t.current)
    ensures IsFinished(t.current) && t.current.Final? ==> r == Err(FinalRound)
    ensures r.Ok? ==> r.value.previous == Some(t.current)
  {
    match DF.CreateNextRound(t.current, order)
    case Err(x) => Err(x)
    case Ok(next) => Ok(Tournament(next, Some(t.current)))
  }

  /** `previousRound`: `InitialRoundException` with nothing stored, checked first, then
   *  `AlreadyStartedException` once a pairing of the current round is active or finished;
   *  otherwise the stored round is current again and nothing is stored any more. */
  function PreviousRound<E>(t: Tournament<E>): (r: Result<Tournament<E>, Error>)
    ensures r == Err(InitialRound) <==> t.previous.None?
    ensures r == Err(AlreadyStarted) <==> t.previous.Some? && HasStarted(t.current)
    ensures r.Ok? ==> Some(r.value.current) == t.previous && r.value.previous.None?
  {
    if t.previous.None? then Err(InitialRound)
    else if PM.Active(Pairings(t.current)) != {} || PM.Finished(Pairings(t.current)) != {} then Err(AlreadyStarted)
    else Ok(Tournament(t.previous.value, None))
  }

  /** The current round after an operation on it; the previous round stays. */
  function WithCurrent<E>(t: Tournament<E>, r: Round<E>): (u: Tournament<E>)
    ensures u.previous == t.previous && u.current == r
  {
    t.(current := r)
  }

  /** `addEntrant`. */
  function AddEntrant<E>(t: Tournament<E>, e: E): (r: Result<Step<Tournament<E>, bool>, Error>)
    ensures r.Ok? ==> r.value.state.previous == t.previous && SameKind(r.value.state.current, t.current)
    ensures r.Ok? && r.value.value ==> e !in Entrants(t.current) && e in Entrants(r.value.state.current)
    ensures r.Ok? && !r.value.value ==> r.value.state == t
  {
    match Rounds.AddEntrant(t.current, e)
    case Err(x) => Err(x)
    case Ok(s) => Ok(Step(WithCurrent(t, s.state), s.value))
  }

  /** `removeEntrant`. */
  function RemoveEntrant<E>(t: Tournament<E>, e: E): (r: Result<Step<Tournament<E>, bool>, Error>)
    ensures r.Ok? ==> r.value.state.previous == t.previous && SameKind(r.value.state.current, t.current)
    ensures r.Ok? && r.value.value ==> e in Entrants(t.current) && e !in Entrants(r.value.state.current)
  {
    match Rounds.RemoveEntrant(t.current, e)
    case Err(x) => Err(x)
    case Ok(s) => Ok(Step(WithCurrent(t, s.state), s.value))
  }

  /** `resetEntrant`. */
  function ResetEntrant<E>(t: Tournament<E>, e: E): (r: Result<Step<Tournament<E>, bool>, Error>)
    ensures !t.current.Elimination? ==> r == Err(Unsupported)
    ensures r.Ok? ==> r.value.state.previous == t.previous && Entrants(r.value.state.current) == Entrants(t.current)
  {
    match Rounds.ResetEntrant(t.current, e)
    case Err(x) => Err(x)
    case Ok(s) => Ok(Step(WithCurrent(t, s.state), s.value))
  }

  /** `nextPairing`. */
  function NextPairing<E>(t: Tournament<E>, rng: nat -> nat): (r: Result<Step<Tournament<E>, Pairing<E>>, Error>)
    ensures r.Ok? ==> r.value.state.previous == t.previous && Entrants(r.value.state.current) == Entrants(t.current)
  {
    match Rounds.NextPairing(t.current, rng)
    case Err(x) => Err(x)
    case Ok(s) => Ok(Step(WithCurrent(t, s.state), s.value))
  }

  /** `replayPairing`. */
  function ReplayPairing<E>(t: Tournament<E>, p: Pairing<E>): (r: Result<Step<Tournament<E>, bool>, Error>)
    ensures PM.IsActive(Pairings(t.current), p) ==> r == Ok(Step(t, false))
    ensures r.Ok? ==> r.value.state.previous == t.previous
  {
    match Rounds.ReplayPairing(t.current, p)
    case Err(x) => Err(x)
    case Ok(s) => Ok(Step(WithCurrent(t, s.state), s.value))
  }

  /** `declareWinner(entrant, pairing)`. */
  function DeclareWinnerIn<E>(t: Tournament<E>, w: E, p: Pairing<E>): (r: Result<Tournament<E>, Error>)
    ensures !Pairs.Contains(p, w) ==> r == Err(IllegalArgument)
    ensures r.Ok? ==> r.value.previous == t.previous && Entrants(r.value.current) == Entrants(t.current) &&
                      PM.IsFinished(Pairings(r.value.current), p)
  {
    match Rounds.DeclareWinnerIn(t.current, w, p)
    case Err(x) => Err(x)
    case Ok(s) => Ok(WithCurrent(t, s))
  }

  /** `declareWinner(entrant)`. */
  function DeclareWinner<E>(t: Tournament<E>, w: E): (r: Result<Step<Tournament<E>, Pairing<E>>, Error>)
    ensures r.Ok? ==> r.value.state.previous == t.previous && Entrants(r.value.state.current) == Entrants(t.current) &&
                      Pairs.Contains(r.value.value, w)
  {
    match Rounds.DeclareWinner(t.current, w)
    case Err(x) => Err(x)
    case Ok(s) => Ok(Step(WithCurrent(t, s.state), s.value))
  }

  /** `declareTie`. */
  function DeclareTie<E>(t: Tournament<E>, p: Pairing<E>): (r: Result<Tournament<E>, Error>)
    ensures IsFinalRound(t.current) ==> r == Err(Unsupported)
    ensures r.Ok? ==> r.value.previous == t.previous && Entrants(r.value.current) == Entrants(t.current)
  {
    match Rounds.DeclareTie(t.current, p)
    case Err(x) => Err(x)
    case Ok(s) => Ok(WithCurrent(t, s))
  }

  /** Going forward to a round that has not started and straight back restores the round the
   *  tournament was in, with nothing stored before it. */
  lemma NextThenPrevious<E>(t: Tournament<E>, order: seq<E>)
    requires NextRound(t, order).Ok? && !DF.PlaysAtOnce(t.current)
    ensures PreviousRound(NextRound(t, order).value) == Ok(Tournament(t.current, None))
  {
    DF.NextRoundIsValid(t.current, order);
  }

  /** After a semi-final whose next round starts with a decided pairing there is no way back. */
  lemma NoWayBackAfterPredetermined<E>(t: Tournament<E>, order: seq<E>)
    requires NextRound(t, order).Ok? && DF.PlaysAtOnce(t.current)
    ensures PreviousRound(NextRound(t, order).value) == Err(AlreadyStarted)
  {
    DF.NextRoundIsValid(t.current, order);
  }

  /** One round of history: going back twice in a row fails the second time. */
  lemma PreviousTwiceFails<E>(t: Tournament<E>)
    requires PreviousRound(t).Ok?
    ensures PreviousRound(PreviousRound(t).value) == Err(InitialRound)
  {
  }

  /** The entrant operations keep a valid tournament valid. */
  lemma EntrantOperationsPreserveValid<E>(t: Tournament<E>, e: E)
    requires Valid(t)
    ensures AddEntrant(t, e).Ok? ==> Valid(AddEntrant(t, e).value.state)
    ensures RemoveEntrant(t, e).Ok? ==> Valid(RemoveEntrant(t, e).value.state)
    ensures ResetEntrant(t, e).Ok? ==> Valid(ResetEntrant(t, e).value.state)
  {
    Rounds.AddEntrantPreservesValid(t.current, e);
    Rounds.RemoveEntrantPreservesValid(t.current, e);
    Rounds.ResetEntrantPreservesValid(t.current, e);
  }

  /** Drawing, replaying and tying pairings keep a valid tournament valid. */
  lemma PairingOperationsPreserveValid<E>(t: Tournament<E>, p: Pairing<E>, rng: nat -> nat)
    requires Valid(t)
    ensures NextPairing(t, rng).Ok? ==> Valid(NextPairing(t, rng).value.state)
    ensures ReplayPairing(t, p).Ok? ==> Valid(ReplayPairing(t, p).value.state)
    ensures DeclareTie(t, p).Ok? ==> Valid(DeclareTie(t, p).value)
  {
    Rounds.NextPairingPreservesValid(t.current, rng);
    Rounds.ReplayPairingPreservesValid(t.current, p);
    Rounds.DeclareTiePreservesValid(t.current, p);
  }

  /** Declaring a winner keeps a valid tournament valid. */
  lemma WinnerOperationsPreserveValid<E>(t: Tournament<E>, w: E, p: Pairing<E>)
    requires Valid(t)
    ensures DeclareWinnerIn(t, w, p).Ok? ==> Valid(DeclareWinnerIn(t, w, p).value)
    ensures DeclareWinner(t, w).Ok? ==> Valid(DeclareWinner(t, w).value.state)
  {
    Rounds.DeclareWinnerInPreservesValid(t.current, w, p);
    Rounds.DeclareWinnerPreservesValid(t.current, w);
  }

  /** Moving to the next round or back keeps a valid tournament valid. */
  lemma RoundChangesPreserveValid<E>(t: Tournament<E>, order: seq<E>)
    requires Valid(t)
    ensures NextRound(t, order).Ok? ==> Valid(NextRound(t, order).value)
    ensures PreviousRound(t).Ok? ==> Valid(PreviousRound(t).value)
  {
    DF.NextRoundIsValid(t.current, order);
  }
}
