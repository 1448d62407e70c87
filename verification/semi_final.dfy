/** `SemiFinal`: a `DynamicElimination` over a closed pool of four. The pool is frozen when the
 *  round is built; only its members may be added again, nobody can be reset, and the round
 *  keeps "state about" every member of the pool even after that member leaves. */
module SemiFinals {
  import opened Wrappers
  import opened Errors
  import opened Seqs
  import opened Pairs
  import DE = DynamicEliminations
  import DP = DynamicEliminationProofs
  import PM = PairingManagers

  /** `ENTRANT_COUNT`. */
  const EntrantCount: nat := 4

  datatype SemiFinal<E> = SemiFinal(round: DE.DynamicElimination<E>, original: set<E>)

  /** The entrants and floating results of the round: what `DynamicElimination` has state
   *  about. */
  function Known<E>(d: DE.DynamicElimination<E>): set<E> {
    d.entrants + DE.Floating(d)
  }

  /** The inner round is valid and knows nothing about anyone outside the frozen pool, which
   *  has at most four members. */
  ghost predicate Valid<E>(s: SemiFinal<E>) {
    DE.Valid(s.round) && Known(s.round) <= s.original && |s.original| <= EntrantCount
  }

  /** A round that stays valid and learns about nobody new keeps the semi-final valid. */
  lemma StaysClosed<E>(s: SemiFinal<E>, d: DE.DynamicElimination<E>)
    requires Valid(s) && DE.Valid(d) && Known(d) <= Known(s.round)
    ensures Valid(SemiFinal(d, s.original))
  {
  }

  /** The four-argument constructor: the four are added in order; equal arguments collapse. */
  function Create<E>(a: E, b: E, c: E, d: E): (s: SemiFinal<E>)
    ensures s.original == {a, b, c, d} && s.round.entrants == {a, b, c, d}
    ensures DE.Pending(s.round) == {a, b, c, d} && DE.Decided(s.round) == {}
    ensures Valid(s)
  {
    var es := [a, b, c, d];
    assert Elems(es) == {a, b, c, d};
    FromSeq(es).value
  }

  /** The collection constructor: `IllegalArgumentException` unless the collection has four
   *  elements (duplicates count, as in a list); otherwise its entrants are added in order. */
  function FromSeq<E>(es: seq<E>): (r: Result<SemiFinal<E>, Error>)
    ensures r.Err? <==> |es| != EntrantCount
    ensures r.Err? ==> r.error == IllegalArgument
    ensures r.Ok? ==> r.value.original == Elems(es) && r.value.round.entrants == Elems(es) &&
                      DE.Pending(r.value.round) == Elems(es) && Valid(r.value)
  {
    if |es| != EntrantCount then Err(IllegalArgument)
    else
      DP.FromSeqIsValid(es);
      ElemsCard(es);
      var round := DE.FromSeq(es);
      Ok(SemiFinal(round, round.entrants))
  }

  /** `addEntrant`: `NewEntrantsNotAllowedException` outside the pool; a member of the pool is
   *  added as `DynamicElimination` adds it. */
  function AddEntrant<E>(s: SemiFinal<E>, e: E): (r: Result<Step<SemiFinal<E>, bool>, Error>)
    ensures r.Err? <==> e !in s.original
    ensures r.Err? ==> r.error == NewEntrantsNotAllowed
    ensures r.Ok? ==> r.value.state.original == s.original && r.value.state.round == DE.AddEntrant(s.round, e).state &&
                      (r.value.value <==> !DE.Contains(s.round, e))
    ensures Valid(s) && r.Ok? ==> Valid(r.value.state)
  {
    if e !in s.original then Err(NewEntrantsNotAllowed)
    else
      var added := DE.AddEntrant(s.round, e);
      assert Valid(s) ==> Valid(s.(round := added.state)) by {
        if Valid(s) {
          DP.AddEntrantPreservesValid(s.round, e);
        }
      }
      Ok(Step(s.(round := added.state), added.value))
  }

  /** `resetEntrant`: unsupported, whatever the entrant. */
  function ResetEntrant<E>(s: SemiFinal<E>, e: E): (r: Result<Step<SemiFinal<E>, bool>, Error>)
    ensures r.Err? && r.error == Unsupported
  {
    Err(Unsupported)
  }

  /** `hasStateAbout`: membership of the frozen pool. */
  predicate HasStateAbout<E>(s: SemiFinal<E>, e: E) {
    e in s.original
  }

  /** `removeEntrant`, inherited. */
  function RemoveEntrant<E>(s: SemiFinal<E>, e: E): (r: Result<Step<SemiFinal<E>, bool>, Error>)
    ensures r.Ok? ==> r.value.state.original == s.original
    ensures Valid(s) ==> r.Ok? && Valid(r.value.state) && !DE.Contains(r.value.state.round, e) &&
                         (r.value.value <==> DE.Contains(s.round, e))
  {
    match DE.RemoveEntrant(s.round, e)
    case Err(x) => Err(x)
    case Ok(removed) =>
      assert Valid(s) ==> Valid(s.(round := removed.state)) by {
        if Valid(s) {
          DP.RemoveEntrantPreservesValid(s.round, e);
          StaysClosed(s, removed.state);
        }
      }
      Ok(Step(s.(round := removed.state), removed.value))
  }

  /** `nextPairing`, inherited. */
  function NextPairing<E>(s: SemiFinal<E>, rng: nat -> nat): (r: Result<Step<SemiFinal<E>, Pairing<E>>, Error>)
    ensures r.Err? <==> DE.NextPairing(s.round, rng).Err?
    ensures r.Ok? ==> r.value.state.original == s.original && r.value.value == DE.NextPairing(s.round, rng).value.value
    ensures Valid(s) && r.Ok? ==> Valid(r.value.state) && Sides(r.value.value) <= s.original
  {
    match DE.NextPairing(s.round, rng)
    case Err(x) => Err(x)
    case Ok(n) =>
      assert Valid(s) ==> Valid(s.(round := n.state)) by {
        if Valid(s) {
          DP.NextPairingPreservesValid(s.round, rng);
          StaysClosed(s, n.state);
        }
      }
      Ok(Step(s.(round := n.state), n.value))
  }

  /** `declareWinner(entrant, pairing)`, inherited. */
  function DeclareWinnerIn<E>(s: SemiFinal<E>, w: E, p: Pairing<E>): (r: Result<SemiFinal<E>, Error>)
    ensures r.Err? ==> DE.DeclareWinnerIn(s.round, w, p) == Err(r.error)
    ensures r.Ok? ==> r.value.original == s.original && Ok(r.value.round) == DE.DeclareWinnerIn(s.round, w, p)
    ensures Valid(s) && r.Ok? ==> Valid(r.value)
  {
    match DE.DeclareWinnerIn(s.round, w, p)
    case Err(x) => Err(x)
    case Ok(decided) =>
      assert Valid(s) ==> Valid(s.(round := decided)) by {
        if Valid(s) {
          DP.DeclareWinnerInPreservesValid(s.round, w, p);
          StaysClosed(s, decided);
        }
      }
      Ok(s.(round := decided))
  }

  /** `declareWinner(entrant)`, inherited. */
  function DeclareWinner<E>(s: SemiFinal<E>, w: E): (r: Result<Step<SemiFinal<E>, Pairing<E>>, Error>)
    ensures r.Err? ==> DE.DeclareWinner(s.round, w) == Err(r.error)
    ensures r.Ok? ==> r.value.state.original == s.original && Pairs.Contains(r.value.value, w)
    ensures Valid(s) && r.Ok? ==> Valid(r.value.state) && DE.IsAdvanced(r.value.state.round, w)
  {
    match DE.DeclareWinner(s.round, w)
    case Err(x) => Err(x)
    case Ok(decided) =>
      assert Valid(s) ==> Valid(s.(round := decided.state)) by {
        if Valid(s) {
          DP.DeclareWinnerPreservesValid(s.round, w);
          StaysClosed(s, decided.state);
        }
      }
      Ok(Step(s.(round := decided.state), decided.value))
  }

  /** `declareTie`, inherited. */
  function DeclareTie<E>(s: SemiFinal<E>, p: Pairing<E>): (r: Result<SemiFinal<E>, Error>)
    ensures r.Err? <==> !PM.IsActive(s.round.pairings, p)
    ensures r.Err? ==> r.error == NoSuchPairing
    ensures Valid(s) && r.Ok? ==> Valid(r.value) && r.value.original == s.original
  {
    match DE.DeclareTie(s.round, p)
    case Err(x) => Err(x)
    case Ok(tied) =>
      assert Valid(s) ==> Valid(s.(round := tied)) by {
        if Valid(s) {
          DP.DeclareTiePreservesValid(s.round, p);
          StaysClosed(s, tied);
        }
      }
      Ok(s.(round := tied))
  }

  /** `replayPairing`, inherited. */
  function ReplayPairing<E>(s: SemiFinal<E>, p: Pairing<E>): (r: Result<Step<SemiFinal<E>, bool>, Error>)
    ensures r.Err? ==> DE.ReplayPairing(s.round, p) == Err(r.error)
    ensures r.Ok? ==> r.value.state.original == s.original
    ensures Valid(s) && r.Ok? ==> Valid(r.value.state)
  {
    match DE.ReplayPairing(s.round, p)
    case Err(x) => Err(x)
    case Ok(replayed) =>
      assert Valid(s) ==> Valid(s.(round := replayed.state)) by {
        if Valid(s) {
          DP.ReplayPairingPreservesValid(s.round, p);
          StaysClosed(s, replayed.state);
        }
      }
      Ok(Step(s.(round := replayed.state), replayed.value))
  }

  /** The pool keeps state about a removed member, which the inner round alone forgets once a
   *  pending entrant leaves. */
  lemma HasStateAboutOutlivesRemoval<E>(s: SemiFinal<E>, e: E)
    requires Valid(s) && DE.IsPending(s.round, e)
    ensures var r := RemoveEntrant(s, e);
            r.Ok? && HasStateAbout(r.value.state, e) && !DE.HasStateAbout(r.value.state.round, e)
  {
  }

  /** Whatever the inner round has state about is in the pool. */
  lemma HasStateAboutCovers<E>(s: SemiFinal<E>, e: E)
    requires Valid(s) && DE.HasStateAbout(s.round, e)
    ensures HasStateAbout(s, e)
  {
  }

  /** Once the semi-final is finished, its results account for at most four entrants. */
  lemma FinishedCounts<E>(s: SemiFinal<E>)
    requires Valid(s) && DE.IsFinished(s.round)
    ensures |s.round.results.advanced| + |s.round.results.eliminated| <= EntrantCount
  {
    var d := s.round;
    assert |d.entrants| == |d.results.advanced| + |d.results.eliminated| by {
      DP.PartitionCounts(d);
    }
    assert |d.entrants| <= |s.original| by {
      assert d.entrants <= s.original;
      SubsetCard(d.entrants, s.original);
    }
  }
}
