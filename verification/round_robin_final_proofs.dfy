/** Properties of `RoundRobinFinal`: every operation keeps the invariant, so scores stay
 *  between 0 and 2 and add up to 3 once the round is over; the placements follow from the
 *  scores; leaving and coming back again changes nothing; and the two defects of the
 *  source, with the inputs that show them. */
module RoundRobinFinalProofs {
  import opened Wrappers
  import opened Errors
  import opened Seqs
  import opened Pairs
  import opened Placements
  import opened RoundRobinFinals
  import PM = PairingManagers
  import SM = ScoreManagers
  import SS = ShuffledSets

  // The loops of removeEntrant and addEntrant

  lemma {:induction false} RetireScores<E>(scores: SM.ScoreManager<E>, outstanding: SS.ShuffledSet<Pairing<E>>,
                                           ps: seq<Pairing<E>>, e: E, x: E, keys: set<E>)
    requires forall i :: 0 <= i < |ps| ==> Other(ps[i], e) in keys
    ensures SM.GetScore(Retire(scores, outstanding, ps, e).0, x) == SM.GetScore(scores, x) + Tally(ps, e, x)
    ensures Retire(scores, outstanding, ps, e).0.scores.Keys <= scores.scores.Keys + keys
    decreases |ps|
  {
    if |ps| > 0 {
      var next := SM.IncrementScore(scores, Other(ps[0], e)).state;
      RetireScores(next, SS.Remove(outstanding, ps[0]).state, ps[1..], e, x, keys);
    }
  }

  lemma {:induction false} RestoreScores<E>(scores: SM.ScoreManager<E>, outstanding: SS.ShuffledSet<Pairing<E>>,
                                            ps: seq<Pairing<E>>, e: E, x: E, keys: set<E>)
    requires forall i :: 0 <= i < |ps| ==> Other(ps[i], e) in keys
    ensures SM.GetScore(Restore(scores, outstanding, ps, e).0, x) == SM.GetScore(scores, x) - Tally(ps, e, x)
    ensures Restore(scores, outstanding, ps, e).0.scores.Keys <= scores.scores.Keys + keys
    decreases |ps|
  {
    if |ps| > 0 {
      var next := SM.DecrementScore(scores, Other(ps[0], e)).state;
      RestoreScores(next, SS.Add(outstanding, ps[0]).state, ps[1..], e, x, keys);
    }
  }

  lemma {:induction false} RevokeScores<E>(scores: SM.ScoreManager<E>, outstanding: SS.ShuffledSet<Pairing<E>>,
                                           ps: seq<Pairing<E>>, holders: map<Pairing<E>, E>, x: E, keys: set<E>)
    requires forall i :: 0 <= i < |ps| && ps[i] in holders ==> holders[ps[i]] in keys
    ensures SM.GetScore(Revoke(scores, outstanding, ps, holders).0, x) == SM.GetScore(scores, x) - Owed(ps, holders, x)
    ensures Revoke(scores, outstanding, ps, holders).0.scores.Keys <= scores.scores.Keys + keys
    decreases |ps|
  {
    if |ps| > 0 {
      var next := if ps[0] in holders then SM.DecrementScore(scores, holders[ps[0]]).state else scores;
      RevokeScores(next, SS.Add(outstanding, ps[0]).state, ps[1..], holders, x, keys);
    }
  }

  /** The points `x` gains when the pairings in `chosen` go to the opponent of `e`. */
  function Gain<E(==)>(t: Trio<E>, chosen: set<Pairing<E>>, e: E, x: E): nat {
    (if P0(t) in chosen && Other(P0(t), e) == x then 1 else 0) +
    (if P1(t) in chosen && Other(P1(t), e) == x then 1 else 0) +
    (if P2(t) in chosen && Other(P2(t), e) == x then 1 else 0)
  }

  lemma {:induction false} TallyAppend<E>(a: seq<Pairing<E>>, b: seq<Pairing<E>>, e: E, x: E)
    ensures Tally(a + b, e, x) == Tally(a, e, x) + Tally(b, e, x)
    decreases |a|
  {
    if |a| > 0 {
      assert (a + b)[1..] == a[1..] + b;
      TallyAppend(a[1..], b, e, x);
    } else {
      assert a + b == b;
    }
  }

  /** The points `x` holds in `holders` among the pairings in `chosen`. */
  function Held<E(==)>(t: Trio<E>, chosen: set<Pairing<E>>, holders: map<Pairing<E>, E>, x: E): nat {
    (if P0(t) in chosen && P0(t) in holders && holders[P0(t)] == x then 1 else 0) +
    (if P1(t) in chosen && P1(t) in holders && holders[P1(t)] == x then 1 else 0) +
    (if P2(t) in chosen && P2(t) in holders && holders[P2(t)] == x then 1 else 0)
  }

  lemma {:induction false} OwedAppend<E>(a: seq<Pairing<E>>, b: seq<Pairing<E>>, holders: map<Pairing<E>, E>, x: E)
    ensures Owed(a + b, holders, x) == Owed(a, holders, x) + Owed(b, holders, x)
    decreases |a|
  {
    if |a| > 0 {
      assert (a + b)[1..] == a[1..] + b;
      OwedAppend(a[1..], b, holders, x);
    } else {
      assert a + b == b;
    }
  }

  lemma FilterStep<T>(s: seq<T>, chosen: set<T>)
    requires |s| > 0
    ensures Filter(s, chosen) == (if s[0] in chosen then [s[0]] else []) + Filter(s[1..], chosen)
  {
  }

  /** Over the three pairings of a valid round, the loops add up pairing by pairing. */
  lemma TallyThree<E>(t: Trio<E>, chosen: set<Pairing<E>>, e: E, x: E)
    requires Distinct3(t)
    ensures Tally(Filter(Schedule(t), chosen), e, x) == Gain(t, chosen, e, x)
  {
    var s := [P0(t), P1(t), P2(t)];
    var f0 := if P0(t) in chosen then [P0(t)] else [];
    var f1 := if P1(t) in chosen then [P1(t)] else [];
    var f2 := if P2(t) in chosen then [P2(t)] else [];
    FilterStep(s, chosen);
    assert s[1..] == [P1(t), P2(t)];
    FilterStep(s[1..], chosen);
    assert s[1..][1..] == [P2(t)];
    FilterStep(s[1..][1..], chosen);
    assert s[1..][1..][1..] == [];
    assert Filter(s, chosen) == f0 + (f1 + (f2 + []));
    TallyAppend(f0, f1 + f2, e, x);
    TallyAppend(f1, f2, e, x);
    assert f2 + [] == f2;
  }

  lemma OwedThree<E>(t: Trio<E>, chosen: set<Pairing<E>>, holders: map<Pairing<E>, E>, x: E)
    requires Distinct3(t)
    ensures Owed(Filter(Schedule(t), chosen), holders, x) == Held(t, chosen, holders, x)
  {
    var s := [P0(t), P1(t), P2(t)];
    var f0 := if P0(t) in chosen then [P0(t)] else [];
    var f1 := if P1(t) in chosen then [P1(t)] else [];
    var f2 := if P2(t) in chosen then [P2(t)] else [];
    FilterStep(s, chosen);
    assert s[1..] == [P1(t), P2(t)];
    FilterStep(s[1..], chosen);
    assert s[1..][1..] == [P2(t)];
    FilterStep(s[1..][1..], chosen);
    assert s[1..][1..][1..] == [];
    assert Filter(s, chosen) == f0 + (f1 + (f2 + []));
    OwedAppend(f0, f1 + f2, holders, x);
    OwedAppend(f1, f2, holders, x);
    assert f2 + [] == f2;
  }

  lemma OthersAreMembers<E>(r: RoundRobinFinal<E>, ps: seq<Pairing<E>>, e: E)
    requires Elems(ps) <= PairsOf(r, e)
    ensures forall i :: 0 <= i < |ps| ==> Other(ps[i], e) in Members(r.trio)
  {
    forall i | 0 <= i < |ps| ensures Other(ps[i], e) in Members(r.trio) {
      assert ps[i] in Elems(ps);
    }
  }

  /** In a valid pairing manager, the active pairing of an entrant is the one found for it. */
  lemma ActiveOfEntrant<E>(m: PM.PairingManager<E>, p: Pairing<E>, e: E)
    requires PM.Valid(m) && PM.IsActive(m, p) && Contains(p, e)
    ensures PM.FindActiveByEntrant(m, e) == Some(p)
  {
    assert m.active.index[e] == p;
  }

  // Consequences of the invariant

  /** Any two of the three pairings share an entrant, so at most one is ever active. */
  lemma AtMostOneActive<E>(r: RoundRobinFinal<E>, p: Pairing<E>, q: Pairing<E>)
    requires Valid(r) && PM.IsActive(r.pairings, p) && PM.IsActive(r.pairings, q)
    ensures p == q
  {
    var t := r.trio;
    assert p in Original(t) && q in Original(t);
    var shared :| shared in Sides(p) && shared in Sides(q);
    ActiveOfEntrant(r.pairings, p, shared);
    ActiveOfEntrant(r.pairings, q, shared);
  }

  /** Each of the three holds at most two points, since each plays two pairings; nobody else
   *  has a score. */
  lemma ScoresWithinBounds<E>(r: RoundRobinFinal<E>, x: E)
    requires Valid(r)
    ensures MinScore <= Score(r, x) <= MaxScore
    ensures x !in Members(r.trio) ==> Score(r, x) == 0
  {
    var t := r.trio;
    if x in Members(t) {
      if x == t.a { assert Point(r, P2(t), x) == 0; }
      else if x == t.b { assert Point(r, P1(t), x) == 0; }
      else { assert Point(r, P0(t), x) == 0; }
    }
  }

  /** Each of the three pairings gives its point to exactly one of the three, so once none is
   *  outstanding or active the scores add up to three. */
  lemma FinishedScoresSumToThree<E>(r: RoundRobinFinal<E>)
    requires Valid(r) && IsFinished(r)
    ensures Score(r, r.trio.a) + Score(r, r.trio.b) + Score(r, r.trio.c) == 3
  {
    var t := r.trio;
    forall p | p in Original(t)
      ensures Point(r, p, t.a) + Point(r, p, t.b) + Point(r, p, t.c) == 1
    {
      assert Credit(r, p).Some? && Contains(p, Credit(r, p).value);
    }
    assert P0(t) in Original(t) && P1(t) in Original(t) && P2(t) in Original(t);
  }

  // Preservation

  lemma CreateIsValid<E>(a: E, b: E, c: E)
    requires Distinct3(Trio(a, b, c))
    ensures Valid(Create(a, b, c))
    ensures forall x :: Score(Create(a, b, c), x) == 0
  {
    var r := Create(a, b, c);
    assert Live(r) == Original(r.trio);
  }

  /** The points after the pairings in `chosen` went to the opponent of `e`. */
  lemma PointsAfterRetire<E>(r: RoundRobinFinal<E>, s: RoundRobinFinal<E>, chosen: set<Pairing<E>>, e: E, x: E)
    requires s.trio == r.trio
    requires forall p :: p in Original(r.trio) ==> Credit(s, p) == (if p in chosen then Some(Other(p, e)) else Credit(r, p))
    requires forall p :: p in chosen ==> Credit(r, p).None?
    ensures Points(s, x) == Points(r, x) + Gain(r.trio, chosen, e, x)
  {
    var t := r.trio;
    assert P0(t) in Original(t) && P1(t) in Original(t) && P2(t) in Original(t);
  }

  /** The points after the forfeited pairings in `chosen` went back to nobody. */
  lemma PointsAfterRevoke<E>(r: RoundRobinFinal<E>, s: RoundRobinFinal<E>, chosen: set<Pairing<E>>, x: E)
    requires s.trio == r.trio
    requires forall p :: p in Original(r.trio) ==> Credit(s, p) == (if p in chosen then None else Credit(r, p))
    requires forall p :: p in chosen ==> p in r.forfeits && p !in r.winners
    ensures Points(s, x) + Held(r.trio, chosen, r.forfeits, x) == Points(r, x)
  {
    var t := r.trio;
    assert P0(t) in Original(t) && P1(t) in Original(t) && P2(t) in Original(t);
  }

  /** The points after only the point of `p` changed hands. */
  lemma PointsAfterOne<E>(r: RoundRobinFinal<E>, s: RoundRobinFinal<E>, p: Pairing<E>, x: E)
    requires s.trio == r.trio && Distinct3(r.trio) && p in Original(r.trio)
    requires forall q :: q in Original(r.trio) && q != p ==> Credit(s, q) == Credit(r, q)
    ensures Points(s, x) + Point(r, p, x) == Points(r, x) + Point(s, p, x)
  {
    var t := r.trio;
    assert P0(t) in Original(t) && P1(t) in Original(t) && P2(t) in Original(t);
  }

  /** Cancelling the active pairing of `e` takes away exactly the active pairings among
   *  `chosen`, when `chosen` holds every active pairing of `e` and only pairings of `e`. */
  lemma CancelActive<E>(m: PM.PairingManager<E>, e: E, chosen: set<Pairing<E>>)
    requires PM.Valid(m)
    requires forall p :: p in PM.Active(m) && Contains(p, e) ==> p in chosen
    requires forall p :: p in chosen ==> Contains(p, e)
    ensures PM.Active(PM.RemoveActiveByEntrant(m, e).state) == PM.Active(m) - chosen
  {
    var cancelled := PM.RemoveActiveByEntrant(m, e);
    match cancelled.value
    case None =>
      forall p | p in PM.Active(m) ensures p !in chosen {
        if p in chosen { ActiveOfEntrant(m, p, e); }
      }
    case Some(q) =>
      forall p | p in PM.Active(m) && p in chosen ensures p == q {
        ActiveOfEntrant(m, p, e);
      }
  }

  /** Removing an entrant retires exactly the pairings it forfeits: those leave the
   *  outstanding and active ones, and nothing else does. */
  lemma RemoveEntrantRetires<E>(r: RoundRobinFinal<E>, e: E)
    requires Valid(r) && e in r.entrants
    ensures var s := RemoveEntrant(r, e).value.state;
            Forfeitable(r, e) <= Live(r) && Live(s) == Live(r) - Forfeitable(r, e) &&
            PM.Active(s.pairings) == PM.Active(r.pairings) - Forfeitable(r, e) &&
            SS.Valid(s.outstanding) && PM.Valid(s.pairings)
  {
    var chosen := Forfeitable(r, e);
    CancelActive(r.pairings, e, chosen);
  }

  lemma RemoveEntrantScores<E>(r: RoundRobinFinal<E>, e: E, x: E)
    requires Distinct3(r.trio) && e in r.entrants
    ensures var s := RemoveEntrant(r, e).value.state;
            Score(s, x) == Score(r, x) + Gain(r.trio, Forfeitable(r, e), e, x) &&
            s.scores.scores.Keys <= r.scores.scores.Keys + Members(r.trio)
  {
    var chosen := Forfeitable(r, e);
    var ps := Filter(Schedule(r.trio), chosen);
    assert Elems(ps) == chosen;
    OthersAreMembers(r, ps, e);
    RetireScores(r.scores, r.outstanding, ps, e, x, Members(r.trio));
    TallyThree(r.trio, chosen, e, x);
  }

  lemma RemoveEntrantCredits<E>(r: RoundRobinFinal<E>, e: E)
    requires r.winners.Keys == PM.Finished(r.pairings) && e in r.entrants
    ensures var s := RemoveEntrant(r, e).value.state;
            forall p :: p in Original(r.trio) ==>
              Credit(s, p) == (if p in Forfeitable(r, e) then Some(Other(p, e)) else Credit(r, p))
    ensures forall p :: p in Forfeitable(r, e) ==> Credit(r, p).None?
  {
  }

  lemma RemoveEntrantKeepsLedger<E>(r: RoundRobinFinal<E>, e: E)
    requires Distinct3(r.trio) && Ledger(r) && r.winners.Keys == PM.Finished(r.pairings) && e in r.entrants
    ensures Ledger(RemoveEntrant(r, e).value.state)
  {
    var s := RemoveEntrant(r, e).value.state;
    RemoveEntrantCredits(r, e);
    forall x | x in Members(r.trio) ensures Score(s, x) == Points(s, x) {
      RemoveEntrantScores(r, e, x);
      PointsAfterRetire(r, s, Forfeitable(r, e), e, x);
    }
    RemoveEntrantScores(r, e, e);
  }

  /** Moving the live pairings in `chosen` to the forfeited ones, with a side of each as the
   *  holder of its point, keeps every pairing in exactly one state. */
  lemma StatusesAfterRetire<E>(r: RoundRobinFinal<E>, s: RoundRobinFinal<E>, chosen: set<Pairing<E>>)
    requires Statuses(r) && s.trio == r.trio && chosen <= Live(r)
    requires SS.Valid(s.outstanding) && PM.Valid(s.pairings)
    requires s.outstanding.elements <= r.outstanding.elements && PM.Active(s.pairings) <= PM.Active(r.pairings)
    requires Live(s) == Live(r) - chosen
    requires s.winners == r.winners && PM.Finished(s.pairings) == PM.Finished(r.pairings)
    requires s.forfeits.Keys == r.forfeits.Keys + chosen
    requires forall p :: p in s.forfeits ==> Contains(p, s.forfeits[p])
    ensures Statuses(s)
  {
  }

  lemma RemoveEntrantKeepsStatuses<E>(r: RoundRobinFinal<E>, e: E)
    requires Valid(r) && e in r.entrants
    ensures Statuses(RemoveEntrant(r, e).value.state)
  {
    RemoveEntrantRetires(r, e);
    RetiredStatuses(r, e);
  }

  lemma RetiredStatuses<E>(r: RoundRobinFinal<E>, e: E)
    requires Statuses(r) && e in r.entrants
    requires var s := RemoveEntrant(r, e).value.state;
             Forfeitable(r, e) <= Live(r) && Live(s) == Live(r) - Forfeitable(r, e) &&
             PM.Active(s.pairings) == PM.Active(r.pairings) - Forfeitable(r, e) &&
             SS.Valid(s.outstanding) && PM.Valid(s.pairings)
    ensures Statuses(RemoveEntrant(r, e).value.state)
  {
    var chosen := Forfeitable(r, e);
    var s := RemoveEntrant(r, e).value.state;
    ForfeitsHoldSide(r.forfeits, s.forfeits, e, chosen);
    StatusesAfterRetire(r, s, chosen);
  }

  /** Forfeiting pairings of `e` to the other side keeps every forfeit with a side of its
   *  pairing. */
  lemma ForfeitsHoldSide<E>(before: map<Pairing<E>, E>, after: map<Pairing<E>, E>, e: E, chosen: set<Pairing<E>>)
    requires forall p :: p in before ==> Contains(p, before[p])
    requires after == before + (map p | p in chosen :: Other(p, e))
    ensures forall p :: p in after ==> Contains(p, after[p])
    ensures after.Keys == before.Keys + chosen
  {
    forall p | p in after ensures Contains(p, after[p]) {
      if p in chosen { assert after[p] == Other(p, e); }
    }
  }

  lemma RemoveEntrantKeepsSeated<E>(r: RoundRobinFinal<E>, e: E)
    requires Valid(r) && e in r.entrants
    ensures Seated(RemoveEntrant(r, e).value.state)
    ensures forall p :: p in Live(RemoveEntrant(r, e).value.state) ==> !Contains(p, e)
  {
    var chosen := Forfeitable(r, e);
    var s := RemoveEntrant(r, e).value.state;
    RemoveEntrantRetires(r, e);
    forall p | p in Live(s) ensures Sides(p) <= s.entrants && !Contains(p, e) {
      assert p in Live(r) && p !in chosen;
    }
    forall q | q in s.forfeits ensures !(Sides(q) <= s.entrants) {
      if q in chosen { assert e in Sides(q); }
    }
  }

  /** Removing an entrant keeps the round valid; afterwards no outstanding or active pairing
   *  involves the entrant. */
  lemma RemoveEntrantPreservesValid<E>(r: RoundRobinFinal<E>, e: E)
    requires Valid(r)
    ensures Valid(RemoveEntrant(r, e).value.state)
    ensures forall p :: p in Live(RemoveEntrant(r, e).value.state) ==> !Contains(p, e)
  {
    if e in r.entrants {
      RemoveEntrantKeepsStatuses(r, e);
      RemoveEntrantKeepsSeated(r, e);
      RemoveEntrantKeepsLedger(r, e);
    }
  }

  /** One of the three has at least one original pairing. */
  lemma MembersHavePairings<E>(r: RoundRobinFinal<E>, e: E)
    ensures PairsOf(r, e) != {} <==> e in Members(r.trio)
  {
    var t := r.trio;
    if e in Members(t) {
      if e == t.a || e == t.b { assert P0(t) in PairsOf(r, e); } else { assert P1(t) in PairsOf(r, e); }
    }
  }

  lemma AddEntrantScores<E>(r: RoundRobinFinal<E>, e: E, x: E)
    requires Distinct3(r.trio) && e !in r.entrants && e in Members(r.trio)
    requires forall p :: p in r.forfeits ==> Contains(p, r.forfeits[p]) && p in Original(r.trio)
    ensures AddEntrant(r, e).Ok?
    ensures var s := AddEntrant(r, e).value.state;
            Score(s, x) == Score(r, x) - Held(r.trio, Returning(r, e), r.forfeits, x) &&
            s.scores.scores.Keys <= r.scores.scores.Keys + Members(r.trio)
  {
    MembersHavePairings(r, e);
    var chosen := Returning(r, e);
    var ps := Filter(Schedule(r.trio), chosen);
    assert Elems(ps) == chosen;
    forall i | 0 <= i < |ps| && ps[i] in r.forfeits ensures r.forfeits[ps[i]] in Members(r.trio) {
      assert ps[i] in Elems(ps);
    }
    RevokeScores(r.scores, r.outstanding, ps, r.forfeits, x, Members(r.trio));
    OwedThree(r.trio, chosen, r.forfeits, x);
  }

  lemma AddEntrantCredits<E>(r: RoundRobinFinal<E>, e: E)
    requires r.winners.Keys !! r.forfeits.Keys && e !in r.entrants && e in Members(r.trio)
    ensures AddEntrant(r, e).Ok?
    ensures var s := AddEntrant(r, e).value.state;
            forall p :: p in Original(r.trio) ==>
              Credit(s, p) == (if p in Returning(r, e) then None else Credit(r, p))
    ensures forall p :: p in Returning(r, e) ==> p in r.forfeits && p !in r.winners
  {
    MembersHavePairings(r, e);
  }

  lemma AddEntrantKeepsLedger<E>(r: RoundRobinFinal<E>, e: E)
    requires Distinct3(r.trio) && Ledger(r) && r.winners.Keys !! r.forfeits.Keys
    requires forall p :: p in r.forfeits ==> Contains(p, r.forfeits[p]) && p in Original(r.trio)
    requires e !in r.entrants && e in Members(r.trio)
    ensures AddEntrant(r, e).Ok? && Ledger(AddEntrant(r, e).value.state)
  {
    AddEntrantCredits(r, e);
    var s := AddEntrant(r, e).value.state;
    forall x | x in Members(r.trio) ensures Score(s, x) == Points(s, x) {
      AddEntrantScores(r, e, x);
      PointsAfterRevoke(r, s, Returning(r, e), x);
    }
    AddEntrantScores(r, e, e);
  }

  /** Moving the forfeited pairings in `chosen` back to the outstanding ones keeps every
   *  pairing in exactly one state. */
  lemma StatusesAfterRestore<E>(r: RoundRobinFinal<E>, s: RoundRobinFinal<E>, chosen: set<Pairing<E>>)
    requires Statuses(r) && s.trio == r.trio && chosen <= r.forfeits.Keys
    requires SS.Valid(s.outstanding) && s.pairings == r.pairings && s.winners == r.winners
    requires s.outstanding.elements == r.outstanding.elements + chosen
    requires s.forfeits == r.forfeits - chosen
    ensures Statuses(s) && Live(s) == Live(r) + chosen
  {
  }

  lemma AddEntrantKeepsStatuses<E>(r: RoundRobinFinal<E>, e: E)
    requires Valid(r) && e !in r.entrants && e in Members(r.trio)
    ensures AddEntrant(r, e).Ok?
    ensures var s := AddEntrant(r, e).value.state;
            Statuses(s) && Live(s) == Live(r) + Returning(r, e)
  {
    MembersHavePairings(r, e);
    StatusesAfterRestore(r, AddEntrant(r, e).value.state, Returning(r, e));
  }

  /** A step that keeps the entrants and the forfeits, and adds only seated pairings to the
   *  live ones, keeps the round seated. */
  lemma SeatedAfter<E>(r: RoundRobinFinal<E>, s: RoundRobinFinal<E>, extra: set<Pairing<E>>)
    requires Seated(r) && s.entrants == r.entrants && s.forfeits == r.forfeits
    requires Live(s) <= Live(r) + extra
    requires forall p :: p in extra ==> Sides(p) <= s.entrants
    ensures Seated(s)
  {
  }

  /** After `e` comes back, a side of every pairing that stays forfeited is still away: for a
   *  pairing of `e`, the opponent; for any other, the side that was away before. */
  lemma ForfeitsStayUnseated<E>(r: RoundRobinFinal<E>, e: E, entrants: set<E>, forfeits: set<Pairing<E>>)
    requires Distinct3(r.trio) && entrants == r.entrants + {e}
    requires forall q :: q in r.forfeits ==> !(Sides(q) <= r.entrants)
    requires r.forfeits.Keys <= Original(r.trio) && r.forfeits.Keys !! PM.Finished(r.pairings)
    requires forfeits == r.forfeits.Keys - Returning(r, e)
    ensures forall q :: q in forfeits ==> !(Sides(q) <= entrants)
  {
    forall q | q in forfeits ensures !(Sides(q) <= entrants) {
      if Contains(q, e) {
        assert q in Unfinished(r, e) && q !in Returning(r, e);
        assert Other(q, e) in Sides(q) && Other(q, e) != e;
      } else {
        var z :| z in Sides(q) && z !in r.entrants;
      }
    }
  }

  /** The pairings that come back have `e` and an opponent in the round as sides. */
  lemma ReturningSeated<E>(r: RoundRobinFinal<E>, e: E, entrants: set<E>)
    requires entrants == r.entrants + {e}
    ensures forall p :: p in Returning(r, e) ==> Sides(p) <= entrants
  {
    forall p | p in Returning(r, e) ensures Sides(p) <= entrants {
      assert Sides(p) == {e, Other(p, e)};
    }
  }

  lemma AddEntrantKeepsSeated<E>(r: RoundRobinFinal<E>, e: E)
    requires Seated(r) && Distinct3(r.trio) && e !in r.entrants && e in Members(r.trio)
    requires r.forfeits.Keys <= Original(r.trio) && r.forfeits.Keys !! PM.Finished(r.pairings)
    ensures AddEntrant(r, e).Ok? && Seated(AddEntrant(r, e).value.state)
  {
    MembersHavePairings(r, e);
    var s := AddEntrant(r, e).value.state;
    ReturningSeated(r, e, s.entrants);
    ForfeitsStayUnseated(r, e, s.entrants, s.forfeits.Keys);
  }

  /** Adding an entrant keeps the round valid; only one of the three can be added. */
  lemma AddEntrantPreservesValid<E>(r: RoundRobinFinal<E>, e: E)
    requires Valid(r)
    ensures AddEntrant(r, e).Err? <==> e !in Members(r.trio)
    ensures AddEntrant(r, e).Ok? ==> Valid(AddEntrant(r, e).value.state)
  {
    MembersHavePairings(r, e);
    if e !in r.entrants && e in Members(r.trio) {
      assert forall p :: p in r.forfeits ==> Contains(p, r.forfeits[p]) && p in Original(r.trio);
      AddEntrantKeepsStatuses(r, e);
      AddEntrantKeepsLedger(r, e);
      assert r.forfeits.Keys <= Original(r.trio);
      AddEntrantKeepsSeated(r, e);
    }
  }

  lemma NextPairingDraws<E>(r: RoundRobinFinal<E>, rng: nat -> nat)
    requires Statuses(r) && !IsFinished(r) && !PM.HasActive(r.pairings)
    ensures NextPairing(r, rng).Ok?
    ensures var n := NextPairing(r, rng).value;
            n.value in r.outstanding.elements && PM.Active(n.state.pairings) == {n.value} &&
            PM.Finished(n.state.pairings) == PM.Finished(r.pairings) &&
            SS.Valid(n.state.outstanding) && PM.Valid(n.state.pairings) && Live(n.state) == Live(r)
  {
    var drawn := SS.RemoveRandom(r.outstanding, rng);
    assert r.outstanding.elements != {};
    var p := drawn.value.value;
    assert p in r.outstanding.elements && p in Live(r);
    assert !PM.IsFinished(r.pairings, p);
    assert PM.ActiveEntrants(r.pairings) == {};
    var added := PM.Add(r.pairings, p);
    assert added.Ok? && added.value.value;
    assert NextPairing(r, rng) == Ok(Step(r.(outstanding := drawn.state, pairings := added.value.state), p));
  }

  /** A step that touches neither scores nor points keeps the ledger. */
  lemma LedgerAfterNothing<E>(r: RoundRobinFinal<E>, s: RoundRobinFinal<E>)
    requires Ledger(r) && s.trio == r.trio && s.scores == r.scores
    requires s.winners == r.winners && s.forfeits == r.forfeits
    ensures Ledger(s)
  {
    forall x | x in Members(r.trio) ensures Score(s, x) == Points(s, x) {
      assert Points(s, x) == Points(r, x);
    }
  }

  /** A step that moves only the point of `p`, and each score with it, keeps the ledger. */
  lemma LedgerAfterOne<E>(r: RoundRobinFinal<E>, s: RoundRobinFinal<E>, p: Pairing<E>)
    requires Distinct3(r.trio) && Ledger(r) && s.trio == r.trio && p in Original(r.trio)
    requires forall q :: q in Original(r.trio) && q != p ==> Credit(s, q) == Credit(r, q)
    requires s.scores.scores.Keys <= Members(r.trio)
    requires forall x :: x in Members(r.trio) ==> Score(s, x) + Point(r, p, x) == Score(r, x) + Point(s, p, x)
    ensures Ledger(s)
  {
    forall x | x in Members(r.trio) ensures Score(s, x) == Points(s, x) {
      PointsAfterOne(r, s, p, x);
    }
  }

  /** The draw moves `p` from the outstanding pairings to the active ones. */
  lemma StatusesAfterDraw<E>(r: RoundRobinFinal<E>, s: RoundRobinFinal<E>, p: Pairing<E>)
    requires Statuses(r) && s.trio == r.trio && s.winners == r.winners && s.forfeits == r.forfeits
    requires SS.Valid(s.outstanding) && PM.Valid(s.pairings) && p in r.outstanding.elements
    requires s.outstanding.elements == r.outstanding.elements - {p}
    requires PM.Active(s.pairings) == PM.Active(r.pairings) + {p}
    requires PM.Finished(s.pairings) == PM.Finished(r.pairings)
    ensures Statuses(s) && Live(s) == Live(r)
  {
  }

  /** On a valid round `nextPairing` fails exactly when the round is finished or a pairing is
   *  active; otherwise the drawn pairing is the only active one and the round stays valid. */
  lemma NextPairingPreservesValid<E>(r: RoundRobinFinal<E>, rng: nat -> nat)
    requires Valid(r)
    ensures NextPairing(r, rng).Ok? <==> !IsFinished(r) && !PM.HasActive(r.pairings)
    ensures NextPairing(r, rng).Ok? ==>
              var n := NextPairing(r, rng).value;
              Valid(n.state) && PM.Active(n.state.pairings) == {n.value} &&
              PM.Finished(n.state.pairings) == PM.Finished(r.pairings)
  {
    if !IsFinished(r) && !PM.HasActive(r.pairings) {
      NextPairingDraws(r, rng);
      var n := NextPairing(r, rng).value;
      StatusesAfterDraw(r, n.state, n.value);
      SeatedAfter(r, n.state, {});
      LedgerAfterNothing(r, n.state);
    }
  }

  /** Finishing the active pairing `p` with the winner `w` records it as won. */
  lemma StatusesAfterFinish<E>(r: RoundRobinFinal<E>, s: RoundRobinFinal<E>, p: Pairing<E>, w: E)
    requires Statuses(r) && s.trio == r.trio && PM.IsActive(r.pairings, p) && Contains(p, w)
    requires PM.Valid(s.pairings) && s.outstanding == r.outstanding && s.forfeits == r.forfeits
    requires PM.Active(s.pairings) == PM.Active(r.pairings) - {p}
    requires PM.Finished(s.pairings) == PM.Finished(r.pairings) + {p}
    requires s.winners == r.winners[p := w]
    ensures Statuses(s) && Live(s) == Live(r) - {p}
  {
  }

  lemma DeclareWinnerInKeepsStatuses<E>(r: RoundRobinFinal<E>, w: E, p: Pairing<E>)
    requires Statuses(r) && DeclareWinnerIn(r, w, p).Ok?
    ensures var s := DeclareWinnerIn(r, w, p).value;
            Statuses(s) && Live(s) == Live(r) - {p}
  {
    assert !PM.IsFinished(r.pairings, p);
    StatusesAfterFinish(r, DeclareWinnerIn(r, w, p).value, p, w);
  }

  lemma DeclareWinnerInKeepsLedger<E>(r: RoundRobinFinal<E>, w: E, p: Pairing<E>)
    requires Distinct3(r.trio) && Ledger(r) && w in Members(r.trio)
    requires p in Original(r.trio) && p !in r.winners && p !in r.forfeits
    requires DeclareWinnerIn(r, w, p).Ok?
    ensures Ledger(DeclareWinnerIn(r, w, p).value)
  {
    var s := DeclareWinnerIn(r, w, p).value;
    forall x | x in Members(r.trio) ensures Score(s, x) + Point(r, p, x) == Score(r, x) + Point(s, p, x) {
      if x != w { assert x in s.scores.scores - {w} <==> x in r.scores.scores - {w}; }
    }
    assert s.scores.scores.Keys <= r.scores.scores.Keys + {w} by {
      forall x | x in s.scores.scores ensures x in r.scores.scores.Keys + {w} {
        if x != w { assert x in s.scores.scores - {w}; }
      }
    }
    LedgerAfterOne(r, s, p);
  }

  /** On a valid round a winner's declaration keeps it valid. */
  lemma DeclareWinnerInPreservesValid<E>(r: RoundRobinFinal<E>, w: E, p: Pairing<E>)
    requires Valid(r)
    ensures DeclareWinnerIn(r, w, p).Ok? ==> Valid(DeclareWinnerIn(r, w, p).value)
  {
    if DeclareWinnerIn(r, w, p).Ok? {
      var s := DeclareWinnerIn(r, w, p).value;
      assert p in Live(r);
      DeclareWinnerInKeepsStatuses(r, w, p);
      DeclareWinnerInKeepsLedger(r, w, p);
      SeatedAfter(r, s, {});
    }
  }

  /** On a valid round `declareWinner(entrant)` fails only for an absent or unpaired entrant,
   *  and keeps the round valid. */
  lemma DeclareWinnerPreservesValid<E>(r: RoundRobinFinal<E>, w: E)
    requires Valid(r)
    ensures DeclareWinner(r, w).Err? ==> DeclareWinner(r, w).error in {NoSuchEntrant, MissingPairing}
    ensures DeclareWinner(r, w).Ok? ==> Valid(DeclareWinner(r, w).value.state)
  {
    if w in r.entrants && PM.HasActiveEntrant(r.pairings, w) {
      var p := PM.FindActiveByEntrant(r.pairings, w).value;
      DeclareWinnerInPreservesValid(r, w, p);
    }
  }

  /** The conditions under which a replay goes ahead. */
  predicate Replayable<E>(r: RoundRobinFinal<E>, p: Pairing<E>) {
    !PM.IsActive(r.pairings, p) && PM.IsFinished(r.pairings, p) && Sides(p) <= r.entrants &&
    !PM.HasActiveEntrant(r.pairings, p.first) && !PM.HasActiveEntrant(r.pairings, p.second)
  }

  lemma ReplayPairingGoesAhead<E>(r: RoundRobinFinal<E>, p: Pairing<E>)
    requires PM.Valid(r.pairings) && r.winners.Keys == PM.Finished(r.pairings) && Replayable(r, p)
    ensures ReplayPairing(r, p).Ok? && ReplayPairing(r, p).value.value
  {
    var removed := PM.RemoveFinished(r.pairings, p);
    assert !PM.Contains(removed.state, p);
    assert PM.ActiveEntrants(removed.state) == PM.ActiveEntrants(r.pairings);
  }

  /** Replaying the finished pairing `p` makes it active again and forgets its winner. */
  lemma StatusesAfterReplay<E>(r: RoundRobinFinal<E>, s: RoundRobinFinal<E>, p: Pairing<E>)
    requires Statuses(r) && s.trio == r.trio && p in r.winners
    requires PM.Valid(s.pairings) && s.outstanding == r.outstanding && s.forfeits == r.forfeits
    requires PM.Active(s.pairings) == PM.Active(r.pairings) + {p}
    requires PM.Finished(s.pairings) == PM.Finished(r.pairings) - {p}
    requires s.winners == r.winners - {p}
    ensures Statuses(s) && Live(s) == Live(r) + {p}
  {
  }

  lemma ReplayPairingKeepsLedger<E>(r: RoundRobinFinal<E>, p: Pairing<E>)
    requires Distinct3(r.trio) && Ledger(r) && p in Original(r.trio) && p !in r.forfeits
    requires p in r.winners && Contains(p, r.winners[p])
    requires ReplayPairing(r, p).Ok? && ReplayPairing(r, p).value.value
    ensures Ledger(ReplayPairing(r, p).value.state)
  {
    var s := ReplayPairing(r, p).value.state;
    var w := r.winners[p];
    forall x | x in Members(r.trio) ensures Score(s, x) + Point(r, p, x) == Score(r, x) + Point(s, p, x) {
      if x != w { assert x in s.scores.scores - {w} <==> x in r.scores.scores - {w}; }
    }
    assert s.scores.scores.Keys <= r.scores.scores.Keys + {w} by {
      forall x | x in s.scores.scores ensures x in r.scores.scores.Keys + {w} {
        if x != w { assert x in s.scores.scores - {w}; }
      }
    }
    LedgerAfterOne(r, s, p);
  }

  /** On a valid round a replay fails only with the three errors the source names, and keeps
   *  the round valid. */
  lemma ReplayPairingPreservesValid<E>(r: RoundRobinFinal<E>, p: Pairing<E>)
    requires Valid(r)
    ensures ReplayPairing(r, p).Err? ==> ReplayPairing(r, p).error in {NoSuchPairing, MissingEntrant, OrphanedPairing}
    ensures ReplayPairing(r, p).Ok? ==> Valid(ReplayPairing(r, p).value.state)
  {
    if Replayable(r, p) {
      ReplayPairingGoesAhead(r, p);
      var s := ReplayPairing(r, p).value.state;
      assert p in r.winners && p !in r.forfeits && p in Original(r.trio);
      StatusesAfterReplay(r, s, p);
      ReplayPairingKeepsLedger(r, p);
      SeatedAfter(r, s, {p});
    }
  }

  // Leaving and coming back

  /** The pairings an entrant forfeits on leaving are its outstanding and active ones. */
  lemma ForfeitableIsLive<E>(r: RoundRobinFinal<E>, e: E)
    requires Live(r) + r.winners.Keys + r.forfeits.Keys == Original(r.trio)
    requires r.winners.Keys == PM.Finished(r.pairings)
    requires Live(r) !! r.winners.Keys && Live(r) !! r.forfeits.Keys
    ensures Forfeitable(r, e) == Live(r) * PairsOf(r, e)
  {
  }

  /** After `e` left, the pairings that come back with `e` are those it has just forfeited. */
  lemma ReturningAfterRemove<E>(r: RoundRobinFinal<E>, s: RoundRobinFinal<E>, e: E)
    requires Distinct3(r.trio) && e in r.entrants && s.trio == r.trio
    requires s.entrants == r.entrants - {e} && PM.Finished(s.pairings) == PM.Finished(r.pairings)
    requires s.forfeits == r.forfeits + map p | p in Forfeitable(r, e) :: Other(p, e)
    requires forall p :: p in Forfeitable(r, e) ==> Sides(p) <= r.entrants
    requires forall p :: p in r.forfeits ==> !(Sides(p) <= r.entrants)
    ensures Returning(s, e) == Forfeitable(r, e)
  {
    var chosen := Forfeitable(r, e);
    assert Unfinished(s, e) == Unfinished(r, e);
    forall p | p in chosen ensures p in Returning(s, e) {
      assert Other(p, e) in Sides(p) && Other(p, e) != e;
    }
    forall p | p in Returning(s, e) ensures p in chosen {
      assert Sides(p) == {e, Other(p, e)};
    }
  }

  /** Coming back right after leaving brings back exactly the pairings the entrant forfeited
   *  on leaving. */
  lemma RemoveThenAddReturns<E>(r: RoundRobinFinal<E>, e: E)
    requires Valid(r) && e in r.entrants
    ensures var s := RemoveEntrant(r, e).value.state;
            Returning(s, e) == Forfeitable(r, e) &&
            s.forfeits == r.forfeits + map p | p in Forfeitable(r, e) :: Other(p, e)
  {
    ForfeitableIsLive(r, e);
    ReturningAfterRemove(r, RemoveEntrant(r, e).value.state, e);
  }

  lemma ForfeitsWellFormed<E>(r: RoundRobinFinal<E>)
    requires Statuses(r)
    ensures forall p :: p in r.forfeits ==> Contains(p, r.forfeits[p]) && p in Original(r.trio)
  {
  }

  lemma HeldByOpponents<E>(t: Trio<E>, chosen: set<Pairing<E>>, holders: map<Pairing<E>, E>, e: E, x: E)
    requires forall p :: p in chosen ==> p in holders && holders[p] == Other(p, e)
    ensures Held(t, chosen, holders, x) == Gain(t, chosen, e, x)
  {
  }

  lemma RemoveThenAddScores<E>(r: RoundRobinFinal<E>, e: E, x: E)
    requires Valid(r) && e in r.entrants
    ensures var s := RemoveEntrant(r, e).value.state;
            AddEntrant(s, e).Ok? && Score(AddEntrant(s, e).value.state, x) == Score(r, x)
  {
    var s := RemoveEntrant(r, e).value.state;
    var chosen := Forfeitable(r, e);
    RemoveEntrantKeepsStatuses(r, e);
    RemoveThenAddReturns(r, e);
    RemoveEntrantScores(r, e, x);
    ForfeitsWellFormed(s);
    AddEntrantScores(s, e, x);
    HeldAfterForfeit(r.trio, chosen, r.forfeits, e, x);
  }

  /** The points the forfeits of `chosen` hand out are what forfeiting them gained. */
  lemma HeldAfterForfeit<E>(t: Trio<E>, chosen: set<Pairing<E>>, before: map<Pairing<E>, E>, e: E, x: E)
    ensures Held(t, chosen, before + (map p | p in chosen :: Other(p, e)), x) == Gain(t, chosen, e, x)
  {
    HeldByOpponents(t, chosen, before + (map p | p in chosen :: Other(p, e)), e, x);
  }

  lemma ForfeitsUndone<E>(r: RoundRobinFinal<E>, s: RoundRobinFinal<E>, e: E, chosen: set<Pairing<E>>)
    requires chosen !! r.forfeits.Keys
    requires s.forfeits == r.forfeits + map p | p in chosen :: Other(p, e)
    ensures s.forfeits - chosen == r.forfeits
  {
  }

  lemma RemoveThenAddForfeits<E>(r: RoundRobinFinal<E>, e: E)
    requires Valid(r) && e in r.entrants
    ensures var s := RemoveEntrant(r, e).value.state;
            AddEntrant(s, e).Ok? && AddEntrant(s, e).value.state.forfeits == r.forfeits
  {
    var s := RemoveEntrant(r, e).value.state;
    MembersHavePairings(s, e);
    RemoveThenAddReturns(r, e);
    ForfeitsUndone(r, s, e, Forfeitable(r, e));
  }

  /** Leaving cancels the entrant's active pairing and no other. */
  lemma ActiveAfterRemove<E>(r: RoundRobinFinal<E>, e: E)
    requires PM.Valid(r.pairings) && PM.Active(r.pairings) <= Original(r.trio) && e in r.entrants
    ensures PM.Active(RemoveEntrant(r, e).value.state.pairings) == PM.Active(r.pairings) - PairsOf(r, e)
  {
    CancelActive(r.pairings, e, PM.Active(r.pairings) * PairsOf(r, e));
  }

  lemma OutstandingRestored<T>(o: set<T>, a: set<T>, ps: set<T>, chosen: set<T>, back: set<T>)
    requires chosen == (o + a) * ps && back == (o - chosen) + chosen
    ensures back == o + a * ps
  {
  }

  lemma RemoveThenAddOutstanding<E>(r: RoundRobinFinal<E>, e: E)
    requires Valid(r) && e in r.entrants
    ensures var s := RemoveEntrant(r, e).value.state;
            AddEntrant(s, e).Ok? &&
            AddEntrant(s, e).value.state.outstanding.elements ==
              r.outstanding.elements + (PM.Active(r.pairings) * PairsOf(r, e))
  {
    var s := RemoveEntrant(r, e).value.state;
    MembersHavePairings(s, e);
    ForfeitableIsLive(r, e);
    RemoveThenAddReturns(r, e);
    OutstandingRestored(r.outstanding.elements, PM.Active(r.pairings), PairsOf(r, e), Forfeitable(r, e),
                        AddEntrant(s, e).value.state.outstanding.elements);
  }

  lemma RemoveThenAddPairings<E>(r: RoundRobinFinal<E>, e: E)
    requires Valid(r) && e in r.entrants
    ensures var s := RemoveEntrant(r, e).value.state;
            AddEntrant(s, e).Ok? &&
            var t := AddEntrant(s, e).value.state;
            PM.Active(t.pairings) == PM.Active(r.pairings) - PairsOf(r, e) &&
            PM.Finished(t.pairings) == PM.Finished(r.pairings)
  {
    var s := RemoveEntrant(r, e).value.state;
    MembersHavePairings(s, e);
    ActiveAfterRemove(r, e);
  }

  /** Leaving and coming back at once changes no score, no result and no forfeit; the active
   *  pairing of the entrant, if any, goes back to the outstanding ones. */
  lemma RemoveThenAddRestores<E>(r: RoundRobinFinal<E>, e: E)
    requires Valid(r) && e in r.entrants
    ensures var s := RemoveEntrant(r, e).value.state;
            AddEntrant(s, e).Ok? && AddEntrant(s, e).value.value &&
            var t := AddEntrant(s, e).value.state;
            t.entrants == r.entrants && t.winners == r.winners && t.forfeits == r.forfeits &&
            (forall x :: Score(t, x) == Score(r, x)) &&
            t.outstanding.elements == r.outstanding.elements + (PM.Active(r.pairings) * PairsOf(r, e)) &&
            PM.Active(t.pairings) == PM.Active(r.pairings) - PairsOf(r, e) &&
            PM.Finished(t.pairings) == PM.Finished(r.pairings)
  {
    var s := RemoveEntrant(r, e).value.state;
    MembersHavePairings(r, e);
    RemoveThenAddForfeits(r, e);
    RemoveThenAddOutstanding(r, e);
    RemoveThenAddPairings(r, e);
    forall x ensures Score(AddEntrant(s, e).value.state, x) == Score(r, x) {
      RemoveThenAddScores(r, e, x);
    }
  }

  // Placements

  /** Once a valid round is over, the scores are one each, or zero, one and two. */
  lemma FinishedScoreShapes<E>(r: RoundRobinFinal<E>)
    requires Valid(r) && IsFinished(r)
    ensures var t := r.trio;
            ThreeWay(Score(r, t.a), Score(r, t.b), Score(r, t.c))
  {
    var t := r.trio;
    FinishedScoresSumToThree(r);
    ScoresWithinBounds(r, t.a);
    ScoresWithinBounds(r, t.b);
    ScoresWithinBounds(r, t.c);
  }

  /** Three scores of a finished round: one each, or zero, one and two in some order. */
  predicate ThreeWay(x: int, y: int, z: int) {
    0 <= x <= 2 && 0 <= y <= 2 && 0 <= z <= 2 && x + y + z == 3
  }

  /** The comparison with two other entrants, by their scores. */
  lemma RankOfTwo<E>(r: RoundRobinFinal<E>, s: int, x: E, y: E)
    requires x != y
    ensures Rank(r, s, {x, y}) ==
              if s == 1 && Score(r, x) == 1 && Score(r, y) == 1 then NoPlacement
              else if s == 1 && ((Score(r, x) == 0 && Score(r, y) == 2) || (Score(r, x) == 2 && Score(r, y) == 0)) then Second
              else if s == 0 then Third
              else Tbd
  {
    var others := {x, y};
    var ones := set o | o in others && Score(r, o) == 1;
    var hasZero := exists o :: o in others && Score(r, o) == 0;
    var hasTwo := exists o :: o in others && Score(r, o) == 2;
    assert Rank(r, s, others) ==
             if s == 1 && |ones| == 2 then NoPlacement
             else if s == 1 && hasZero && hasTwo then Second
             else if s == 0 then Third
             else Tbd;
    if Score(r, x) == 1 && Score(r, y) == 1 {
      assert ones == {x, y};
    } else if Score(r, x) == 1 {
      assert ones == {x};
    } else if Score(r, y) == 1 {
      assert ones == {y};
    } else {
      assert ones == {};
    }
    assert hasZero <==> Score(r, x) == 0 || Score(r, y) == 0;
    assert hasTwo <==> Score(r, x) == 2 || Score(r, y) == 2;
  }

  /** The other two of the three. */
  lemma OthersOfMember<E>(t: Trio<E>, e: E)
    requires Distinct3(t) && e in Members(t)
    ensures e == t.a ==> Members(t) - {e} == {t.b, t.c}
    ensures e == t.b ==> Members(t) - {e} == {t.a, t.c}
    ensures e == t.c ==> Members(t) - {e} == {t.a, t.b}
  {
  }

  /** The placement of `e` once the round is over, from its score and those of the other two,
   *  `x` and `y`. */
  lemma PlacementOfShape<E>(r: RoundRobinFinal<E>, e: E, x: E, y: E)
    requires IsFinished(r) && x != y && Members(r.trio) - {e} == {x, y}
    requires ThreeWay(Score(r, e), Score(r, x), Score(r, y))
    ensures GetPlacement(r, e) ==
              if Score(r, e) == 2 then First
              else if Score(r, e) == 0 then Third
              else if Score(r, x) == 1 then NoPlacement
              else Second
  {
    RankOfTwo(r, Score(r, e), x, y);
  }

  /** In a valid round that is over, two wins are first place, no win is third place, one win
   *  is no placement when everybody has one and second place otherwise; nobody is TBD. */
  lemma PlacementFollowsScores<E>(r: RoundRobinFinal<E>, e: E)
    requires Valid(r) && IsFinished(r) && e in Members(r.trio)
    ensures GetPlacement(r, e) == First <==> Score(r, e) == 2
    ensures GetPlacement(r, e) == Third <==> Score(r, e) == 0
    ensures GetPlacement(r, e) == NoPlacement <==>
              (Score(r, r.trio.a) == 1 && Score(r, r.trio.b) == 1 && Score(r, r.trio.c) == 1)
    ensures GetPlacement(r, e) == Second <==>
              (Score(r, e) == 1 && !(Score(r, r.trio.a) == 1 && Score(r, r.trio.b) == 1 && Score(r, r.trio.c) == 1))
    ensures GetPlacement(r, e) != Tbd
  {
    var t := r.trio;
    FinishedScoreShapes(r);
    OthersOfMember(t, e);
    if e == t.a {
      PlacementOfShape(r, e, t.b, t.c);
    } else if e == t.b {
      PlacementOfShape(r, e, t.a, t.c);
    } else {
      PlacementOfShape(r, e, t.a, t.b);
    }
  }

  /** Unless the round is a tie, no two of the three share a placement: the assertion of
   *  `getStandings`. */
  lemma PlacementsDistinct<E>(r: RoundRobinFinal<E>, x: E, y: E)
    requires Valid(r) && IsFinished(r) && x in Members(r.trio) && y in Members(r.trio) && x != y
    requires GetPlacement(r, x) != NoPlacement
    ensures GetPlacement(r, x) != GetPlacement(r, y)
  {
    FinishedScoreShapes(r);
    PlacementFollowsScores(r, x);
    PlacementFollowsScores(r, y);
  }

  /** `isTie` holds of a valid round exactly when it is over and either nobody is left in it
   *  or all three are and each has one win. A round someone has left is never a tie while
   *  anyone is still in it, because the ranking then compares with fewer than two others. */
  lemma IsTieIff<E>(r: RoundRobinFinal<E>)
    requires Valid(r)
    ensures IsTie(r) <==>
              (IsFinished(r) &&
               (r.entrants == {} ||
                (r.entrants == Members(r.trio) &&
                 Score(r, r.trio.a) == 1 && Score(r, r.trio.b) == 1 && Score(r, r.trio.c) == 1)))
  {
    var t := r.trio;
    if IsFinished(r) && r.entrants == Members(t) && Score(r, t.a) == 1 && Score(r, t.b) == 1 && Score(r, t.c) == 1 {
      forall x | x in r.entrants ensures GetPlacementAsWritten(r, x) == NoPlacement {
        PlacementAsWrittenWhileAllPresent(r, x);
        PlacementFollowsScores(r, x);
      }
    }
    if IsTie(r) && r.entrants != {} {
      var e :| e in r.entrants;
      TieKeepsAllThree(r, e);
      PlacementAsWrittenWhileAllPresent(r, e);
      PlacementFollowsScores(r, e);
    }
  }

  /** An entrant ranked as tied by the source's comparison has two others with one win
   *  beside it, so all three are present. */
  lemma TieKeepsAllThree<E>(r: RoundRobinFinal<E>, e: E)
    requires Distinct3(r.trio) && r.entrants <= Members(r.trio)
    requires e in r.entrants && GetPlacementAsWritten(r, e) == NoPlacement
    ensures r.entrants == Members(r.trio)
  {
    var others := r.entrants - {e};
    var withOne := set o | o in others && Score(r, o) == 1;
    assert Score(r, e) != MaxScore && IsFinished(r);
    assert Rank(r, Score(r, e), others) == NoPlacement;
    assert |withOne| == 2;
    SubsetCard(withOne, others);
    PresentThreeAreAll(r);
  }

  /** Three entrants present in a round of three distinct entrants are the whole trio. */
  lemma PresentThreeAreAll<E>(r: RoundRobinFinal<E>)
    requires Distinct3(r.trio) && r.entrants <= Members(r.trio) && |r.entrants| >= 3
    ensures r.entrants == Members(r.trio)
  {
    var t := r.trio;
    if r.entrants != Members(t) {
      var x :| x in Members(t) && x !in r.entrants;
      SubsetCard(r.entrants, Members(t) - {x});
    }
  }

  /** Comparing only with the entrants still present makes no difference while all three are
   *  present. */
  lemma PlacementAsWrittenWhileAllPresent<E>(r: RoundRobinFinal<E>, e: E)
    requires r.entrants == Members(r.trio)
    ensures GetPlacementAsWritten(r, e) == GetPlacement(r, e)
  {
  }

  // Queries

  /** `hasStateAbout` holds exactly of the three. */
  lemma HasStateAboutIff<E>(r: RoundRobinFinal<E>, e: E)
    ensures HasStateAbout(r, e) <==> e in Members(r.trio)
  {
    MembersHavePairings(r, e);
  }

  /** In a valid round, an entrant has a result exactly when one of its pairings is finished. */
  lemma HasEntrantResultIff<E>(r: RoundRobinFinal<E>, e: E)
    requires Valid(r)
    ensures HasEntrantResult(r, e) <==> PM.HasFinishedEntrant(r.pairings, e)
  {
    if PM.HasFinishedEntrant(r.pairings, e) {
      var p :| p in PM.Finished(r.pairings) && Contains(p, e);
      assert p in PairsOf(r, e);
    }
  }
}
