/** The four kinds of round a tournament plays, behind the one interface the tournament and
 *  its format use: each operation goes to the round of the kind at hand, which is kept. */
module Rounds {
  import opened Wrappers
  import opened Errors
  import opened Pairs
  import DE = DynamicEliminations
  import DP = DynamicEliminationProofs
  import SF = SemiFinals
  import F = Finals
  import FP = FinalProofs
  import RR = RoundRobinFinals
  import RP = RoundRobinFinalProofs
  import PM = PairingManagers

  datatype Round<E> =
    | Elimination(elimination: DE.DynamicElimination<E>)
    | SemiFinal(semi: SF.SemiFinal<E>)
    | Final(playoff: F.Final<E>)
    | RoundRobinFinal(robin: RR.RoundRobinFinal<E>)

  predicate SameKind<E>(a: Round<E>, b: Round<E>) {
    || (a.Elimination? && b.Elimination?)
    || (a.SemiFinal? && b.SemiFinal?)
    || (a.Final? && b.Final?)
    || (a.RoundRobinFinal? && b.RoundRobinFinal?)
  }

  /** The active and finished pairings of the round. */
  function Pairings<E>(r: Round<E>): PM.PairingManager<E> {
    match r
    case Elimination(d) => d.pairings
    case SemiFinal(s) => s.round.pairings
    case Final(f) => f.pairings
    case RoundRobinFinal(rr) => rr.pairings
  }

  /** `getEntrants`. */
  function Entrants<E>(r: Round<E>): set<E> {
    match r
    case Elimination(d) => d.entrants
    case SemiFinal(s) => s.round.entrants
    case Final(f) => f.entrants
    case RoundRobinFinal(rr) => rr.entrants
  }

  /** `isFinished`. */
  predicate IsFinished<E>(r: Round<E>) {
    match r
    case Elimination(d) => DE.IsFinished(d)
    case SemiFinal(s) => DE.IsFinished(s.round)
    case Final(f) => F.IsFinished(f)
    case RoundRobinFinal(rr) => RR.IsFinished(rr)
  }

  /** The rounds that implement `FinalRound`: nothing comes after them. */
  predicate IsFinalRound<E>(r: Round<E>) {
    r.Final? || r.RoundRobinFinal?
  }

  /** A pairing of the round is active or finished. */
  predicate HasStarted<E>(r: Round<E>) {
    PM.Active(Pairings(r)) != {} || PM.Finished(Pairings(r)) != {}
  }

  ghost predicate Valid<E>(r: Round<E>) {
    match r
    case Elimination(d) => DE.Valid(d)
    case SemiFinal(s) => SF.Valid(s)
    case Final(f) => F.Valid(f)
    case RoundRobinFinal(rr) => RR.Valid(rr)
  }

  /** `addEntrant`: true exactly when the entrant joins the round. */
  function AddEntrant<E>(r: Round<E>, e: E): (res: Result<Step<Round<E>, bool>, Error>)
    ensures res.Ok? ==> SameKind(res.value.state, r)
    ensures res.Ok? && res.value.value ==> e !in Entrants(r) && e in Entrants(res.value.state)
    ensures res.Ok? && !res.value.value ==> res.value.state == r
  {
    match r
    case Elimination(d) =>
      var s := DE.AddEntrant(d, e);
      Ok(Step(Elimination(s.state), s.value))
    case SemiFinal(s) =>
      (match SF.AddEntrant(s, e)
       case Err(x) => Err(x)
       case Ok(a) => Ok(Step(SemiFinal(a.state), a.value)))
    case Final(f) =>
      (match F.AddEntrant(f, e)
       case Err(x) => Err(x)
       case Ok(a) => Ok(Step(Final(a.state), a.value)))
    case RoundRobinFinal(rr) =>
      (match RR.AddEntrant(rr, e)
       case Err(x) => Err(x)
       case Ok(a) => Ok(Step(RoundRobinFinal(a.state), a.value)))
  }

  /** `removeEntrant`: true exactly when an entrant leaves the round. */
  function RemoveEntrant<E>(r: Round<E>, e: E): (res: Result<Step<Round<E>, bool>, Error>)
    ensures res.Ok? ==> SameKind(res.value.state, r)
    ensures res.Ok? && res.value.value ==> e in Entrants(r) && e !in Entrants(res.value.state)
  {
    match r
    case Elimination(d) =>
      (match DE.RemoveEntrant(d, e)
       case Err(x) => Err(x)
       case Ok(a) => Ok(Step(Elimination(a.state), a.value)))
    case SemiFinal(s) =>
      (match SF.RemoveEntrant(s, e)
       case Err(x) => Err(x)
       case Ok(a) => Ok(Step(SemiFinal(a.state), a.value)))
    case Final(f) =>
      (match F.RemoveEntrant(f, e)
       case Err(x) => Err(x)
       case Ok(a) => Ok(Step(Final(a.state), a.value)))
    case RoundRobinFinal(rr) =>
      (match RR.RemoveEntrant(rr, e)
       case Err(x) => Err(x)
       case Ok(a) => Ok(Step(RoundRobinFinal(a.state), a.value)))
  }

  /** `resetEntrant`: supported by the dynamic elimination only; the entrants stay. */
  function ResetEntrant<E>(r: Round<E>, e: E): (res: Result<Step<Round<E>, bool>, Error>)
    ensures !r.Elimination? ==> res == Err(Unsupported)
    ensures res.Ok? ==> SameKind(res.value.state, r) && Entrants(res.value.state) == Entrants(r)
  {
    match r
    case Elimination(d) =>
      (match DE.ResetEntrant(d, e)
       case Err(x) => Err(x)
       case Ok(a) => Ok(Step(Elimination(a.state), a.value)))
    case SemiFinal(s) =>
      (match SF.ResetEntrant(s, e)
       case Err(x) => Err(x)
       case Ok(a) => Ok(Step(SemiFinal(a.state), a.value)))
    case Final(f) =>
      (match F.ResetEntrant(f, e)
       case Err(x) => Err(x)
       case Ok(a) => Ok(Step(Final(a.state), a.value)))
    case RoundRobinFinal(rr) =>
      (match RR.ResetEntrant(rr, e)
       case Err(x) => Err(x)
       case Ok(b) => Ok(Step(r, b)))
  }

  /** `nextPairing`: the drawn pairing becomes active; the entrants stay. */
  function NextPairing<E>(r: Round<E>, rng: nat -> nat): (res: Result<Step<Round<E>, Pairing<E>>, Error>)
    ensures res.Ok? ==> SameKind(res.value.state, r) && Entrants(res.value.state) == Entrants(r)
  {
    match r
    case Elimination(d) =>
      (match DE.NextPairing(d, rng)
       case Err(x) => Err(x)
       case Ok(a) => Ok(Step(Elimination(a.state), a.value)))
    case SemiFinal(s) =>
      (match SF.NextPairing(s, rng)
       case Err(x) => Err(x)
       case Ok(a) => Ok(Step(SemiFinal(a.state), a.value)))
    case Final(f) =>
      (match F.NextPairing(f)
       case Err(x) => Err(x)
       case Ok(a) => Ok(Step(Final(a.state), a.value)))
    case RoundRobinFinal(rr) =>
      (match RR.NextPairing(rr, rng)
       case Err(x) => Err(x)
       case Ok(a) => Ok(Step(RoundRobinFinal(a.state), a.value)))
  }

  /** `replayPairing`: false, with nothing changed, for a pairing that is being played. */
  function ReplayPairing<E>(r: Round<E>, p: Pairing<E>): (res: Result<Step<Round<E>, bool>, Error>)
    ensures PM.IsActive(Pairings(r), p) ==> res == Ok(Step(r, false))
    ensures res.Ok? ==> SameKind(res.value.state, r)
  {
    match r
    case Elimination(d) =>
      (match DE.ReplayPairing(d, p)
       case Err(x) => Err(x)
       case Ok(a) => Ok(Step(Elimination(a.state), a.value)))
    case SemiFinal(s) =>
      (match SF.ReplayPairing(s, p)
       case Err(x) => Err(x)
       case Ok(a) => Ok(Step(SemiFinal(a.state), a.value)))
    case Final(f) =>
      (match F.ReplayPairing(f, p)
       case Err(x) => Err(x)
       case Ok(a) => Ok(Step(Final(a.state), a.value)))
    case RoundRobinFinal(rr) =>
      (match RR.ReplayPairing(rr, p)
       case Err(x) => Err(x)
       case Ok(a) => Ok(Step(RoundRobinFinal(a.state), a.value)))
  }

  /** `declareWinner(entrant, pairing)`: the pairing is finished; the entrants stay. */
  function DeclareWinnerIn<E>(r: Round<E>, w: E, p: Pairing<E>): (res: Result<Round<E>, Error>)
    ensures !Pairs.Contains(p, w) ==> res == Err(IllegalArgument)
    ensures res.Ok? ==> SameKind(res.value, r) && Entrants(res.value) == Entrants(r) &&
                        PM.IsFinished(Pairings(res.value), p)
  {
    match r
    case Elimination(d) =>
      (match DE.DeclareWinnerIn(d, w, p)
       case Err(x) => Err(x)
       case Ok(a) => Ok(Elimination(a)))
    case SemiFinal(s) =>
      (match SF.DeclareWinnerIn(s, w, p)
       case Err(x) => Err(x)
       case Ok(a) => Ok(SemiFinal(a)))
    case Final(f) =>
      (match F.DeclareWinnerIn(f, w, p)
       case Err(x) => Err(x)
       case Ok(a) => Ok(Final(a)))
    case RoundRobinFinal(rr) =>
      (match RR.DeclareWinnerIn(rr, w, p)
       case Err(x) => Err(x)
       case Ok(a) => Ok(RoundRobinFinal(a)))
  }

  /** `declareWinner(entrant)`: the entrant's pairing is decided and returned. */
  function DeclareWinner<E>(r: Round<E>, w: E): (res: Result<Step<Round<E>, Pairing<E>>, Error>)
    ensures res.Ok? ==> SameKind(res.value.state, r) && Entrants(res.value.state) == Entrants(r) &&
                        Pairs.Contains(res.value.value, w)
  {
    match r
    case Elimination(d) =>
      (match DE.DeclareWinner(d, w)
       case Err(x) => Err(x)
       case Ok(a) => Ok(Step(Elimination(a.state), a.value)))
    case SemiFinal(s) =>
      (match SF.DeclareWinner(s, w)
       case Err(x) => Err(x)
       case Ok(a) => Ok(Step(SemiFinal(a.state), a.value)))
    case Final(f) =>
      (match F.DeclareWinner(f, w)
       case Err(x) => Err(x)
       case Ok(a) => Ok(Step(Final(a.state), a.value)))
    case RoundRobinFinal(rr) =>
      (match RR.DeclareWinner(rr, w)
       case Err(x) => Err(x)
       case Ok(a) => Ok(Step(RoundRobinFinal(a.state), a.value)))
  }

  /** `declareTie`: an elimination round eliminates both sides; a final round does not
   *  support it. */
  function DeclareTie<E>(r: Round<E>, p: Pairing<E>): (res: Result<Round<E>, Error>)
    ensures IsFinalRound(r) ==> res == Err(Unsupported)
    ensures res.Ok? ==> SameKind(res.value, r) && Entrants(res.value) == Entrants(r)
  {
    match r
    case Elimination(d) =>
      (match DE.DeclareTie(d, p)
       case Err(x) => Err(x)
       case Ok(a) => Ok(Elimination(a)))
    case SemiFinal(s) =>
      (match SF.DeclareTie(s, p)
       case Err(x) => Err(x)
       case Ok(a) => Ok(SemiFinal(a)))
    case Final(f) =>
      (match F.DeclareTie(f, p)
       case Err(x) => Err(x)
       case Ok(a) => Ok(Final(a)))
    case RoundRobinFinal(rr) =>
      (match RR.DeclareTie(rr, p)
       case Err(x) => Err(x)
       case Ok(a) => Ok(RoundRobinFinal(a)))
  }

  // Every operation keeps a valid round valid

  lemma AddEntrantPreservesValid<E>(r: Round<E>, e: E)
    requires Valid(r)
    ensures AddEntrant(r, e).Ok? ==> Valid(AddEntrant(r, e).value.state)
  {
    match r
    case Elimination(d) => DP.AddEntrantPreservesValid(d, e);
    case SemiFinal(_) =>
    case Final(f) => FP.AddEntrantPreservesValid(f, e);
    case RoundRobinFinal(rr) => RP.AddEntrantPreservesValid(rr, e);
  }

  lemma RemoveEntrantPreservesValid<E>(r: Round<E>, e: E)
    requires Valid(r)
    ensures RemoveEntrant(r, e).Ok? && Valid(RemoveEntrant(r, e).value.state)
  {
    match r
    case Elimination(d) => DP.RemoveEntrantPreservesValid(d, e);
    case SemiFinal(_) =>
    case Final(f) => FP.RemoveEntrantPreservesValid(f, e);
    case RoundRobinFinal(rr) => RP.RemoveEntrantPreservesValid(rr, e);
  }

  lemma ResetEntrantPreservesValid<E>(r: Round<E>, e: E)
    requires Valid(r)
    ensures ResetEntrant(r, e).Ok? ==> Valid(ResetEntrant(r, e).value.state)
  {
    if r.Elimination? {
      DP.ResetEntrantPreservesValid(r.elimination, e);
    }
  }

  lemma NextPairingPreservesValid<E>(r: Round<E>, rng: nat -> nat)
    requires Valid(r)
    ensures NextPairing(r, rng).Ok? ==> Valid(NextPairing(r, rng).value.state)
  {
    match r
    case Elimination(d) => DP.NextPairingKeepsValid(d, rng);
    case SemiFinal(_) =>
    case Final(f) => FinalDrawPreservesValid(f);
    case RoundRobinFinal(rr) => RP.NextPairingPreservesValid(rr, rng);
  }

  lemma FinalDrawPreservesValid<E>(f: F.Final<E>)
    requires F.Valid(f)
    ensures F.NextPairing(f).Ok? ==> F.Valid(F.NextPairing(f).value.state)
  {
    if |f.queue| > 0 {
      FP.NextPairingPreservesValid(f);
    }
  }

  lemma ReplayPairingPreservesValid<E>(r: Round<E>, p: Pairing<E>)
    requires Valid(r)
    ensures ReplayPairing(r, p).Ok? ==> Valid(ReplayPairing(r, p).value.state)
  {
    match r
    case Elimination(d) => DP.ReplayPairingPreservesValid(d, p);
    case SemiFinal(_) =>
    case Final(f) => FP.ReplayPairingPreservesValid(f, p);
    case RoundRobinFinal(rr) => RP.ReplayPairingPreservesValid(rr, p);
  }

  lemma DeclareWinnerInPreservesValid<E>(r: Round<E>, w: E, p: Pairing<E>)
    requires Valid(r)
    ensures DeclareWinnerIn(r, w, p).Ok? ==> Valid(DeclareWinnerIn(r, w, p).value)
  {
    match r
    case Elimination(d) => DP.DeclareWinnerInPreservesValid(d, w, p);
    case SemiFinal(_) =>
    case Final(f) => FP.DeclareWinnerInPreservesValid(f, w, p);
    case RoundRobinFinal(rr) => RP.DeclareWinnerInPreservesValid(rr, w, p);
  }

  lemma DeclareWinnerPreservesValid<E>(r: Round<E>, w: E)
    requires Valid(r)
    ensures DeclareWinner(r, w).Ok? ==> Valid(DeclareWinner(r, w).value.state)
  {
    match r
    case Elimination(d) => DP.DeclareWinnerPreservesValid(d, w);
    case SemiFinal(_) =>
    case Final(f) => FP.DeclareWinnerPreservesValid(f, w);
    case RoundRobinFinal(rr) => RP.DeclareWinnerPreservesValid(rr, w);
  }

  lemma DeclareTiePreservesValid<E>(r: Round<E>, p: Pairing<E>)
    requires Valid(r)
    ensures DeclareTie(r, p).Ok? ==> Valid(DeclareTie(r, p).value)
  {
    if r.Elimination? {
      DP.DeclareTiePreservesValid(r.elimination, p);
    }
  }
}
