/** Runs of `RoundRobinFinal` from its constructor: the source's own test of leaving and coming
 *  back, and the two defects of the source with the inputs that show them, next to the
 *  corrected operations on the same inputs. */
module RoundRobinFinalScenarios {
  import opened Wrappers
  import opened Seqs
  import opened Pairs
  import opened Placements
  import opened RoundRobinFinals
  import opened RoundRobinFinalProofs
  import PM = PairingManagers
  import SM = ScoreManagers
  import SS = ShuffledSets

  /** Draw the next pairing and declare `w` its winner. */
  function WinNextPairing<E>(r: RoundRobinFinal<E>, rng: nat -> nat, w: E): Result<RoundRobinFinal<E>, Errors.Error> {
    match NextPairing(r, rng)
    case Err(x) => Err(x)
    case Ok(n) =>
      match DeclareWinner(n.state, w)
      case Err(x) => Err(x)
      case Ok(d) => Ok(d.state)
  }

  /** With nothing active and every outstanding pairing against `w`, `w` wins the next one:
   *  one point more for `w`, one pairing fewer outstanding, nothing else scored. */
  lemma WinNext<E>(r: RoundRobinFinal<E>, rng: nat -> nat, w: E)
    requires SS.Valid(r.outstanding) && PM.Valid(r.pairings) && w in r.entrants
    requires r.outstanding.elements != {} && PM.Active(r.pairings) == {}
    requires forall p :: p in r.outstanding.elements ==> Contains(p, w) && !PM.IsFinished(r.pairings, p)
    ensures NextPairing(r, rng).Ok?
    ensures var p := NextPairing(r, rng).value.value;
            var d := WinNextPairing(r, rng, w);
            p in r.outstanding.elements && d.Ok? &&
            d.value.outstanding.elements == r.outstanding.elements - {p} &&
            SS.Valid(d.value.outstanding) && PM.Valid(d.value.pairings) &&
            PM.Active(d.value.pairings) == {} && PM.Finished(d.value.pairings) == PM.Finished(r.pairings) + {p} &&
            d.value.entrants == r.entrants && d.value.trio == r.trio &&
            Score(d.value, w) == Score(r, w) + 1 &&
            (forall x :: x != w ==> Score(d.value, x) == Score(r, x))
  {
    var drawn := SS.RemoveRandom(r.outstanding, rng);
    var p := drawn.value.value;
    assert p in r.outstanding.elements;
    assert PM.ActiveEntrants(r.pairings) == {};
    var n := NextPairing(r, rng).value;
    assert PM.Active(n.state.pairings) == {p};
    WinOnlyActive(n.state, p, w);
  }

  /** `w` wins the only active pairing: it is finished, and only `w` scores. */
  lemma WinOnlyActive<E>(r: RoundRobinFinal<E>, p: Pairing<E>, w: E)
    requires PM.Valid(r.pairings) && PM.Active(r.pairings) == {p} && Contains(p, w) && w in r.entrants
    ensures DeclareWinner(r, w).Ok?
    ensures var d := DeclareWinner(r, w).value.state;
            d.outstanding == r.outstanding && PM.Valid(d.pairings) &&
            PM.Active(d.pairings) == {} && PM.Finished(d.pairings) == PM.Finished(r.pairings) + {p} &&
            d.entrants == r.entrants && d.trio == r.trio &&
            Score(d, w) == Score(r, w) + 1 &&
            (forall x :: x != w ==> Score(d, x) == Score(r, x))
  {
    ActiveOfEntrant(r.pairings, p, w);
    assert !PM.IsFinished(r.pairings, p);
    var d := DeclareWinner(r, w).value.state;
    forall x | x != w ensures Score(d, x) == Score(r, x) {
      assert x in d.scores.scores - {w} <==> x in r.scores.scores - {w};
    }
  }

  /** The original pairings of each of three distinct entrants. */
  lemma PairsOfEach<E>(r: RoundRobinFinal<E>)
    requires Distinct3(r.trio)
    ensures PairsOf(r, r.trio.a) == {P0(r.trio), P1(r.trio)}
    ensures PairsOf(r, r.trio.b) == {P0(r.trio), P2(r.trio)}
    ensures PairsOf(r, r.trio.c) == {P1(r.trio), P2(r.trio)}
  {
  }

  /** `removeEntrant` as written gives the opponent a point for every unfinished pairing. */
  lemma RemoveAsWrittenScores<E>(r: RoundRobinFinal<E>, e: E, x: E)
    requires Distinct3(r.trio) && e in r.entrants && PM.Valid(r.pairings)
    ensures var s := RemoveEntrantAsWritten(r, e).value.state;
            Score(s, x) == Score(r, x) + Gain(r.trio, Unfinished(r, e), e, x) &&
            (SS.Valid(r.outstanding) ==> SS.Valid(s.outstanding)) && PM.Valid(s.pairings) && s.trio == r.trio
  {
    var cancelled := PM.RemoveActiveByEntrant(r.pairings, e);
    var r1 := r.(pairings := cancelled.state);
    var chosen := Unfinished(r1, e);
    assert chosen == Unfinished(r, e);
    var ps := Filter(Schedule(r.trio), chosen);
    assert Elems(ps) == chosen;
    OthersAreMembers(r, ps, e);
    RetireScores(r.scores, r.outstanding, ps, e, x, Members(r.trio));
    TallyThree(r.trio, chosen, e, x);
  }

  /** `addEntrant` as written takes a point from the opponent of every unfinished pairing. */
  lemma AddAsWrittenScores<E>(r: RoundRobinFinal<E>, e: E, x: E)
    requires Distinct3(r.trio) && e !in r.entrants && e in Members(r.trio)
    ensures AddEntrantAsWritten(r, e).Ok?
    ensures var s := AddEntrantAsWritten(r, e).value.state;
            Score(s, x) == Score(r, x) - Gain(r.trio, Unfinished(r, e), e, x) &&
            (SS.Valid(r.outstanding) ==> SS.Valid(s.outstanding)) && s.trio == r.trio
  {
    MembersHavePairings(r, e);
    var chosen := Unfinished(r, e);
    var ps := Filter(Schedule(r.trio), chosen);
    assert Elems(ps) == chosen;
    OthersAreMembers(r, ps, e);
    RestoreScores(r.scores, r.outstanding, ps, e, x, Members(r.trio));
    TallyThree(r.trio, chosen, e, x);
  }

  // The test of leaving and coming back

  /** `RoundRobinFinalTest.x`: the winner of the first pairing leaves and comes back; the
   *  winner keeps the one point and the other two have none. */
  lemma WinnerLeavesAndComesBack<E>(a: E, b: E, c: E, rng: nat -> nat)
    requires Distinct3(Trio(a, b, c))
    ensures var r0 := Create(a, b, c);
            NextPairing(r0, rng).Ok? &&
            var p := NextPairing(r0, rng).value.value;
            var winner := p.first;
            var loser := p.second;
            var other := if a !in Sides(p) then a else if b !in Sides(p) then b else c;
            DeclareWinner(NextPairing(r0, rng).value.state, winner).Ok? &&
            var r2 := DeclareWinner(NextPairing(r0, rng).value.state, winner).value.state;
            var r4 := AddEntrant(RemoveEntrant(r2, winner).value.state, winner);
            r4.Ok? &&
            Score(r4.value.state, winner) == 1 && Score(r4.value.state, loser) == 0 && Score(r4.value.state, other) == 0
  {
    var r0 := Create(a, b, c);
    CreateIsValid(a, b, c);
    NextPairingPreservesValid(r0, rng);
    var n := NextPairing(r0, rng).value;
    var p := n.value;
    assert p in Original(r0.trio);
    var winner := p.first;
    ActiveOfEntrant(n.state.pairings, p, winner);
    DeclareWinnerPreservesValid(n.state, winner);
    var r2 := DeclareWinner(n.state, winner).value.state;
    var r3 := RemoveEntrant(r2, winner).value.state;
    RemoveThenAddRestores(r2, winner);
    forall x | x != winner ensures Score(r2, x) == 0 {
      assert x in r2.scores.scores - {winner} <==> x in n.state.scores.scores - {winner};
    }
  }

  /** The state of a round of three distinct entrants with no pairing active: who is in, what
   *  is outstanding and finished, and the scores of the three. */
  ghost predicate Snapshot<E>(r: RoundRobinFinal<E>, entrants: set<E>, outstanding: set<Pairing<E>>,
                              finished: set<Pairing<E>>, sa: int, sb: int, sc: int) {
    && Distinct3(r.trio) && r.entrants == entrants && r.outstanding.elements == outstanding
    && SS.Valid(r.outstanding) && PM.Valid(r.pairings)
    && PM.Active(r.pairings) == {} && PM.Finished(r.pairings) == finished
    && Score(r, r.trio.a) == sa && Score(r, r.trio.b) == sb && Score(r, r.trio.c) == sc
  }

  lemma Created<E>(a: E, b: E, c: E)
    requires Distinct3(Trio(a, b, c))
    ensures var t := Trio(a, b, c);
            Snapshot(Create(a, b, c), {a, b, c}, {P0(t), P1(t), P2(t)}, {}, 0, 0, 0)
  {
  }

  /** `removeEntrant` as written, on a round with nothing active. */
  lemma RemoveAsWrittenStep<E>(r: RoundRobinFinal<E>, e: E)
    requires Distinct3(r.trio) && e in r.entrants && PM.Valid(r.pairings) && SS.Valid(r.outstanding)
    requires PM.Active(r.pairings) == {}
    ensures var s := RemoveEntrantAsWritten(r, e).value.state;
            s.trio == r.trio && s.entrants == r.entrants - {e} &&
            s.outstanding.elements == r.outstanding.elements - Unfinished(r, e) &&
            SS.Valid(s.outstanding) && PM.Valid(s.pairings) && s.pairings == r.pairings &&
            Score(s, r.trio.a) == Score(r, r.trio.a) + Gain(r.trio, Unfinished(r, e), e, r.trio.a) &&
            Score(s, r.trio.b) == Score(r, r.trio.b) + Gain(r.trio, Unfinished(r, e), e, r.trio.b) &&
            Score(s, r.trio.c) == Score(r, r.trio.c) + Gain(r.trio, Unfinished(r, e), e, r.trio.c)
  {
    assert PM.ActiveEntrants(r.pairings) == {};
    RemoveAsWrittenScores(r, e, r.trio.a);
    RemoveAsWrittenScores(r, e, r.trio.b);
    RemoveAsWrittenScores(r, e, r.trio.c);
  }

  /** `addEntrant` as written, for one of the three who is away. */
  lemma AddAsWrittenStep<E>(r: RoundRobinFinal<E>, e: E)
    requires Distinct3(r.trio) && e !in r.entrants && e in Members(r.trio) && SS.Valid(r.outstanding)
    ensures AddEntrantAsWritten(r, e).Ok?
    ensures var s := AddEntrantAsWritten(r, e).value.state;
            s.trio == r.trio && s.entrants == r.entrants + {e} &&
            s.outstanding.elements == r.outstanding.elements + Unfinished(r, e) &&
            SS.Valid(s.outstanding) && s.pairings == r.pairings &&
            Score(s, r.trio.a) == Score(r, r.trio.a) - Gain(r.trio, Unfinished(r, e), e, r.trio.a) &&
            Score(s, r.trio.b) == Score(r, r.trio.b) - Gain(r.trio, Unfinished(r, e), e, r.trio.b) &&
            Score(s, r.trio.c) == Score(r, r.trio.c) - Gain(r.trio, Unfinished(r, e), e, r.trio.c)
  {
    AddAsWrittenScores(r, e, r.trio.a);
    AddAsWrittenScores(r, e, r.trio.b);
    AddAsWrittenScores(r, e, r.trio.c);
  }

  // Coming back after the opponent left: the source as written

  /** `c` leaves, `b` leaves, `b` comes back, with the source's `removeEntrant` and
   *  `addEntrant`. */
  function ReentryAsWritten<E>(a: E, b: E, c: E): RoundRobinFinal<E> {
    var r1 := RemoveEntrantAsWritten(Create(a, b, c), c).value.state;
    var r2 := RemoveEntrantAsWritten(r1, b).value.state;
    var r3 := AddEntrantAsWritten(r2, b);
    if r3.Ok? then r3.value.state else r2
  }

  lemma FirstDepartureAsWritten<E>(a: E, b: E, c: E)
    requires Distinct3(Trio(a, b, c))
    ensures var t := Trio(a, b, c);
            Snapshot(RemoveEntrantAsWritten(Create(a, b, c), c).value.state, {a, b}, {P0(t)}, {}, 1, 1, 0)
  {
    var r0 := Create(a, b, c);
    Created(a, b, c);
    PairsOfEach(r0);
    RemoveAsWrittenStep(r0, c);
  }

  lemma SecondDepartureAsWritten<E>(r: RoundRobinFinal<E>)
    requires Snapshot(r, {r.trio.a, r.trio.b}, {P0(r.trio)}, {}, 1, 1, 0)
    ensures Snapshot(RemoveEntrantAsWritten(r, r.trio.b).value.state, {r.trio.a}, {}, {}, 2, 1, 1)
  {
    PairsOfEach(r);
    RemoveAsWrittenStep(r, r.trio.b);
  }

  lemma ReturnAsWritten<E>(r: RoundRobinFinal<E>)
    requires Snapshot(r, {r.trio.a}, {}, {}, 2, 1, 1)
    ensures AddEntrantAsWritten(r, r.trio.b).Ok?
    ensures Snapshot(AddEntrantAsWritten(r, r.trio.b).value.state, {r.trio.a, r.trio.b}, {P0(r.trio), P2(r.trio)}, {}, 1, 1, 0)
  {
    PairsOfEach(r);
    AddAsWrittenStep(r, r.trio.b);
  }

  /** After the re-entry as written, `a` and `b` have a point each, and both pairings of `b`
   *  are outstanding again although `c` is gone: `c` lost the point of `bc`, which `b` can now
   *  win a second time. */
  lemma ReentryAsWrittenState<E>(a: E, b: E, c: E)
    requires Distinct3(Trio(a, b, c))
    ensures Snapshot(ReentryAsWritten(a, b, c), {a, b}, {Pair(a, b), Pair(b, c)}, {}, 1, 1, 0)
  {
    var r1 := RemoveEntrantAsWritten(Create(a, b, c), c).value.state;
    FirstDepartureAsWritten(a, b, c);
    var r2 := RemoveEntrantAsWritten(r1, b).value.state;
    SecondDepartureAsWritten(r1);
    ReturnAsWritten(r2);
  }

  /** The re-entered `b` then wins both of its pairings, whichever is drawn first, and ends
   *  with three points: more than `MAX_SCORE`, which the source asserts is never exceeded. */
  lemma ReentryAsWrittenScoresThree<E>(a: E, b: E, c: E, rng1: nat -> nat, rng2: nat -> nat)
    requires Distinct3(Trio(a, b, c))
    ensures var r4 := WinNextPairing(ReentryAsWritten(a, b, c), rng1, b);
            r4.Ok? && WinNextPairing(r4.value, rng2, b).Ok? &&
            Score(WinNextPairing(r4.value, rng2, b).value, b) == 3 > MaxScore
  {
    ReentryAsWrittenState(a, b, c);
    WinsBothOutstanding(ReentryAsWritten(a, b, c), rng1, rng2);
  }

  /** From `b` back in with `ab` and `bc` outstanding and a point, `b` wins both. */
  lemma WinsBothOutstanding<E>(r: RoundRobinFinal<E>, rng1: nat -> nat, rng2: nat -> nat)
    requires Snapshot(r, {r.trio.a, r.trio.b}, {P0(r.trio), P2(r.trio)}, {}, 1, 1, 0)
    ensures var r4 := WinNextPairing(r, rng1, r.trio.b);
            r4.Ok? && WinNextPairing(r4.value, rng2, r.trio.b).Ok? &&
            Score(WinNextPairing(r4.value, rng2, r.trio.b).value, r.trio.b) == 3
  {
    var t := r.trio;
    WinNext(r, rng1, t.b);
    var r4 := WinNextPairing(r, rng1, t.b).value;
    assert P0(t) != P2(t);
    WinNext(r4, rng2, t.b);
  }

  // Coming back after the opponent left: corrected

  /** The same departures and return with the corrected operations. */
  function Reentry<E>(a: E, b: E, c: E): RoundRobinFinal<E> {
    var r1 := RemoveEntrant(Create(a, b, c), c).value.state;
    var r2 := RemoveEntrant(r1, b).value.state;
    var r3 := AddEntrant(r2, b);
    if r3.Ok? then r3.value.state else r2
  }

  /** Corrected `removeEntrant` on a valid round with nothing active. */
  lemma RemoveStep<E>(r: RoundRobinFinal<E>, e: E)
    requires Valid(r) && e in r.entrants && PM.Active(r.pairings) == {}
    ensures var s := RemoveEntrant(r, e).value.state;
            Valid(s) && s.pairings == r.pairings && SS.Valid(s.outstanding) &&
            Score(s, r.trio.a) == Score(r, r.trio.a) + Gain(r.trio, Forfeitable(r, e), e, r.trio.a) &&
            Score(s, r.trio.b) == Score(r, r.trio.b) + Gain(r.trio, Forfeitable(r, e), e, r.trio.b) &&
            Score(s, r.trio.c) == Score(r, r.trio.c) + Gain(r.trio, Forfeitable(r, e), e, r.trio.c)
  {
    assert PM.ActiveEntrants(r.pairings) == {};
    RemoveEntrantPreservesValid(r, e);
    RemoveEntrantRetires(r, e);
    RemoveEntrantScores(r, e, r.trio.a);
    RemoveEntrantScores(r, e, r.trio.b);
    RemoveEntrantScores(r, e, r.trio.c);
  }

  /** Corrected `removeEntrant` from a snapshot: the entrant goes, its forfeitable pairings
   *  leave the outstanding ones and each gives its opponent a point. */
  lemma RemoveSnapshot<E>(r: RoundRobinFinal<E>, e: E, entrants: set<E>, outstanding: set<Pairing<E>>,
                          sa: int, sb: int, sc: int, entrants': set<E>, outstanding': set<Pairing<E>>,
                          sa': int, sb': int, sc': int)
    requires Valid(r) && Snapshot(r, entrants, outstanding, {}, sa, sb, sc) && e in entrants
    requires entrants' == entrants - {e} && outstanding' == outstanding - Forfeitable(r, e)
    requires sa' == sa + Gain(r.trio, Forfeitable(r, e), e, r.trio.a)
    requires sb' == sb + Gain(r.trio, Forfeitable(r, e), e, r.trio.b)
    requires sc' == sc + Gain(r.trio, Forfeitable(r, e), e, r.trio.c)
    ensures var s := RemoveEntrant(r, e).value.state;
            Valid(s) && Snapshot(s, entrants', outstanding', {}, sa', sb', sc') &&
            s.forfeits == r.forfeits + (map p | p in Forfeitable(r, e) :: Other(p, e))
  {
    RemoveStep(r, e);
  }

  lemma FirstDeparture<E>(a: E, b: E, c: E)
    requires Distinct3(Trio(a, b, c))
    ensures var t := Trio(a, b, c);
            var r1 := RemoveEntrant(Create(a, b, c), c).value.state;
            Valid(r1) && Snapshot(r1, {a, b}, {P0(t)}, {}, 1, 1, 0) && r1.forfeits.Keys == {P1(t), P2(t)}
  {
    var r0 := Create(a, b, c);
    var t := r0.trio;
    Created(a, b, c);
    CreateIsValid(a, b, c);
    PairsOfEach(r0);
    assert Forfeitable(r0, c) == {P1(t), P2(t)};
    GainsWhenThirdLeaves(t);
    RemoveSnapshot(r0, c, {a, b, c}, Original(t), 0, 0, 0, {a, b}, {P0(t)}, 1, 1, 0);
  }

  /** `c` leaving with `ac` and `bc` unplayed gives `a` and `b` a point each. */
  lemma GainsWhenThirdLeaves<E>(t: Trio<E>)
    requires Distinct3(t)
    ensures var ch := {P1(t), P2(t)};
            Gain(t, ch, t.c, t.a) == 1 && Gain(t, ch, t.c, t.b) == 1 && Gain(t, ch, t.c, t.c) == 0
  {
  }

  /** `b` leaving with only `ab` unplayed gives `a` a point. */
  lemma GainsWhenSecondLeaves<E>(t: Trio<E>)
    requires Distinct3(t)
    ensures var ch := {P0(t)};
            Gain(t, ch, t.b, t.a) == 1 && Gain(t, ch, t.b, t.b) == 0 && Gain(t, ch, t.b, t.c) == 0
  {
  }

  lemma SecondDeparture<E>(r: RoundRobinFinal<E>)
    requires Valid(r) && Snapshot(r, {r.trio.a, r.trio.b}, {P0(r.trio)}, {}, 1, 1, 0)
    requires r.forfeits.Keys == {P1(r.trio), P2(r.trio)}
    ensures var s := RemoveEntrant(r, r.trio.b).value.state;
            Valid(s) && Snapshot(s, {r.trio.a}, {}, {}, 2, 1, 0) && s.forfeits.Keys == Original(r.trio) &&
            s.forfeits[P0(r.trio)] == r.trio.a
  {
    var t := r.trio;
    PairsOfEach(r);
    assert Forfeitable(r, t.b) == {P0(t)};
    GainsWhenSecondLeaves(t);
    RemoveSnapshot(r, t.b, {t.a, t.b}, {P0(t)}, 1, 1, 0, {t.a}, {}, 2, 1, 0);
  }

  /** Corrected `addEntrant` from a snapshot: the entrant is back, its returning pairings are
   *  outstanding again and each takes its point back from whoever held it. */
  lemma AddSnapshot<E>(r: RoundRobinFinal<E>, e: E, entrants: set<E>, outstanding: set<Pairing<E>>,
                       sa: int, sb: int, sc: int, entrants': set<E>, outstanding': set<Pairing<E>>,
                       sa': int, sb': int, sc': int)
    requires Valid(r) && Snapshot(r, entrants, outstanding, {}, sa, sb, sc)
    requires e !in entrants && e in Members(r.trio)
    requires entrants' == entrants + {e} && outstanding' == outstanding + Returning(r, e)
    requires sa' == sa - Held(r.trio, Returning(r, e), r.forfeits, r.trio.a)
    requires sb' == sb - Held(r.trio, Returning(r, e), r.forfeits, r.trio.b)
    requires sc' == sc - Held(r.trio, Returning(r, e), r.forfeits, r.trio.c)
    ensures AddEntrant(r, e).Ok?
    ensures var s := AddEntrant(r, e).value.state;
            Valid(s) && Snapshot(s, entrants', outstanding', {}, sa', sb', sc')
  {
    AddEntrantPreservesValid(r, e);
    AddScores(r, e);
  }

  /** The scores of the three after `addEntrant` brings `e` back. */
  lemma AddScores<E>(r: RoundRobinFinal<E>, e: E)
    requires Statuses(r) && Distinct3(r.trio) && e !in r.entrants && e in Members(r.trio)
    ensures AddEntrant(r, e).Ok?
    ensures var s := AddEntrant(r, e).value.state;
            Score(s, r.trio.a) == Score(r, r.trio.a) - Held(r.trio, Returning(r, e), r.forfeits, r.trio.a) &&
            Score(s, r.trio.b) == Score(r, r.trio.b) - Held(r.trio, Returning(r, e), r.forfeits, r.trio.b) &&
            Score(s, r.trio.c) == Score(r, r.trio.c) - Held(r.trio, Returning(r, e), r.forfeits, r.trio.c)
  {
    ForfeitsWellFormed(r);
    AddEntrantScores(r, e, r.trio.a);
    AddEntrantScores(r, e, r.trio.b);
    AddEntrantScores(r, e, r.trio.c);
  }

  /** `ab`, forfeited to `a`, coming back takes `a`'s point for it. */
  lemma HeldWhenSecondReturns<E>(t: Trio<E>, forfeits: map<Pairing<E>, E>)
    requires Distinct3(t) && P0(t) in forfeits && forfeits[P0(t)] == t.a
    ensures var ch := {P0(t)};
            Held(t, ch, forfeits, t.a) == 1 && Held(t, ch, forfeits, t.b) == 0 && Held(t, ch, forfeits, t.c) == 0
  {
  }

  lemma Return<E>(r: RoundRobinFinal<E>)
    requires Valid(r) && Snapshot(r, {r.trio.a}, {}, {}, 2, 1, 0)
    requires r.forfeits.Keys == Original(r.trio) && r.forfeits[P0(r.trio)] == r.trio.a
    ensures AddEntrant(r, r.trio.b).Ok?
    ensures Valid(AddEntrant(r, r.trio.b).value.state)
    ensures Snapshot(AddEntrant(r, r.trio.b).value.state, {r.trio.a, r.trio.b}, {P0(r.trio)}, {}, 1, 1, 0)
  {
    var t := r.trio;
    PairsOfEach(r);
    assert Returning(r, t.b) == {P0(t)};
    HeldWhenSecondReturns(t, r.forfeits);
    AddSnapshot(r, t.b, {t.a}, {}, 2, 1, 0, {t.a, t.b}, {P0(t)}, 1, 1, 0);
  }

  /** Corrected, `bc` stays forfeited to `b` because `c` is gone, and only `ab` comes back,
   *  with `a` giving up the point it got for it; the round stays valid, so no score ever
   *  exceeds two. */
  lemma ReentryState<E>(a: E, b: E, c: E)
    requires Distinct3(Trio(a, b, c))
    ensures Valid(Reentry(a, b, c))
    ensures Snapshot(Reentry(a, b, c), {a, b}, {Pair(a, b)}, {}, 1, 1, 0)
    ensures forall x :: Score(Reentry(a, b, c), x) <= MaxScore
  {
    var r1 := RemoveEntrant(Create(a, b, c), c).value.state;
    FirstDeparture(a, b, c);
    var r2 := RemoveEntrant(r1, b).value.state;
    SecondDeparture(r1);
    Return(r2);
    forall x ensures Score(Reentry(a, b, c), x) <= MaxScore {
      ScoresWithinBounds(Reentry(a, b, c), x);
    }
  }

  // Placement after a departure

  /** `c` leaves and `a` wins the remaining pairing against `b`. */
  function AfterDeparture<E>(a: E, b: E, c: E, rng: nat -> nat, asWritten: bool): RoundRobinFinal<E> {
    var r0 := Create(a, b, c);
    var r1 := if asWritten then RemoveEntrantAsWritten(r0, c) else RemoveEntrant(r0, c);
    var r2 := WinNextPairing(r1.value.state, rng, a);
    if r2.Ok? then r2.value else r1.value.state
  }

  /** The first departure, as written or corrected, leaves the same snapshot. */
  lemma DepartureSnapshot<E>(a: E, b: E, c: E, asWritten: bool)
    requires Distinct3(Trio(a, b, c))
    ensures var t := Trio(a, b, c);
            var r1 := if asWritten then RemoveEntrantAsWritten(Create(a, b, c), c).value.state
                      else RemoveEntrant(Create(a, b, c), c).value.state;
            Snapshot(r1, {a, b}, {P0(t)}, {}, 1, 1, 0) && r1.trio == t
  {
    if asWritten { FirstDepartureAsWritten(a, b, c); } else { FirstDeparture(a, b, c); }
  }

  /** `a` wins the last outstanding pairing, against `b`. */
  lemma LastPairing<E>(r: RoundRobinFinal<E>, rng: nat -> nat)
    requires Snapshot(r, {r.trio.a, r.trio.b}, {P0(r.trio)}, {}, 1, 1, 0)
    ensures WinNextPairing(r, rng, r.trio.a).Ok?
    ensures var d := WinNextPairing(r, rng, r.trio.a).value;
            Snapshot(d, {r.trio.a, r.trio.b}, {}, {P0(r.trio)}, 2, 1, 0) && IsFinished(d) && d.trio == r.trio
  {
    WinNext(r, rng, r.trio.a);
  }

  lemma AfterDepartureState<E>(a: E, b: E, c: E, rng: nat -> nat, asWritten: bool)
    requires Distinct3(Trio(a, b, c))
    ensures var t := Trio(a, b, c);
            var r := AfterDeparture(a, b, c, rng, asWritten);
            Snapshot(r, {a, b}, {}, {P0(t)}, 2, 1, 0) && IsFinished(r) && r.trio == t
  {
    var r1 := if asWritten then RemoveEntrantAsWritten(Create(a, b, c), c).value.state
              else RemoveEntrant(Create(a, b, c), c).value.state;
    DepartureSnapshot(a, b, c, asWritten);
    LastPairing(r1, rng);
  }

  /** One win against an opponent with two: no rule of the comparison applies. */
  lemma RankAgainstWinner<E>(r: RoundRobinFinal<E>, x: E)
    requires Score(r, x) == 2
    ensures Rank(r, 1, {x}) == Tbd
  {
    assert (set o | o in {x} && Score(r, o) == 1) == {};
    assert !exists o :: o in {x} && Score(r, o) == 0;
  }

  /** As written, `b` in second place is reported TBD once the round is over, because `c`'s
   *  score left with `c`: the comparison sees only `a` with two points. */
  lemma PlacementAfterDepartureAsWritten<E>(a: E, b: E, c: E, rng: nat -> nat)
    requires Distinct3(Trio(a, b, c))
    ensures var r := AfterDeparture(a, b, c, rng, true);
            IsFinished(r) && Score(r, b) == 1 && GetPlacementAsWritten(r, b) == Tbd
  {
    var r := AfterDeparture(a, b, c, rng, true);
    AfterDepartureState(a, b, c, rng, true);
    assert r.entrants - {b} == {a};
    RankAgainstWinner(r, a);
  }

  /** Corrected, the comparison is with `a` and `c`, and `b` is second. */
  lemma PlacementAfterDeparture<E>(a: E, b: E, c: E, rng: nat -> nat)
    requires Distinct3(Trio(a, b, c))
    ensures var r := AfterDeparture(a, b, c, rng, false);
            IsFinished(r) && GetPlacement(r, a) == First && GetPlacement(r, b) == Second &&
            GetPlacement(r, c) == Third
  {
    var r := AfterDeparture(a, b, c, rng, false);
    AfterDepartureState(a, b, c, rng, false);
    OthersOfMember(r.trio, b);
    RankOfTwo(r, 1, a, c);
  }
}
