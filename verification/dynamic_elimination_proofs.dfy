/** What `DynamicElimination` keeps: every operation preserves `Valid`, so the entrant
 *  partition the source asserts holds, and the operations never fail with `Fault`. */
module DynamicEliminationProofs {
  import opened Wrappers
  import opened Errors
  import opened Seqs
  import opened Pairs
  import opened DynamicEliminations
  import DE = DynamicEliminations
  import SS = ShuffledSets
  import RM = ResultManagers
  import PM = PairingManagers
  import M = PairIndex

  /** The two conjuncts about finished pairings carry over when no finished pairing is added
   *  and no entrant loses its (possibly floating) result. */
  lemma FinishedPairingsStayBacked<E>(d: DynamicElimination<E>, d': DynamicElimination<E>)
    requires Valid(d)
    requires PM.Finished(d'.pairings) <= PM.Finished(d.pairings)
    requires Decided(d) + Floating(d) <= Decided(d') + Floating(d')
    ensures forall p :: p in PM.Finished(d'.pairings) ==> p.first != p.second
    ensures forall p :: p in PM.Finished(d'.pairings) ==>
              p.first in Decided(d') + Floating(d') || p.second in Decided(d') + Floating(d')
  {
  }

  /** The entrants of a round are pending, paired or decided, and nothing else. */
  lemma EntrantStatus<E>(d: DynamicElimination<E>, e: E)
    requires Valid(d)
    ensures DE.Contains(d, e) <==> IsPending(d, e) || IsPaired(d, e) || HasResult(d, e)
    ensures IsPaired(d, e) <==> e in Paired(d)
  {
    InEntrantsOf(PM.Active(d.pairings), e);
  }

  lemma EmptyIsValid<E>()
    ensures Valid(Empty<E>())
  {
  }

  lemma {:induction false} AddEntrantPreservesValid<E>(d: DynamicElimination<E>, e: E)
    requires Valid(d)
    ensures Valid(AddEntrant(d, e).state)
  {
    var d' := AddEntrant(d, e).state;
    if e !in d.entrants {
      if RM.Contains(d.floating, e) {
        assert Decided(d') == Decided(d) + {e};
        assert Floating(d') == Floating(d) - {e};
      }
      FinishedPairingsStayBacked(d, d');
    }
  }

  /** The collection constructor builds a valid round in which everybody is pending. */
  lemma {:induction false} FromSeqIsValid<E>(es: seq<E>)
    ensures Valid(FromSeq(es))
    decreases |es|
  {
    if |es| > 0 {
      FromSeqIsValid(es[..|es| - 1]);
      AddEntrantPreservesValid(FromSeq(es[..|es| - 1]), es[|es| - 1]);
    }
  }

  /** The source's count assertions after `finishPairing` and in `isFinished`: the entrants
   *  are the paired, decided and pending ones, counted without overlap. */
  lemma PartitionCounts<E>(d: DynamicElimination<E>)
    requires Valid(d)
    ensures |d.entrants| == |Paired(d)| + |d.results.advanced| + |d.results.eliminated| + |Pending(d)|
    ensures IsFinished(d) ==> |d.entrants| == |d.results.advanced| + |d.results.eliminated|
  {
    assert |Decided(d)| == |d.results.advanced| + |d.results.eliminated|;
    assert |Pending(d) + Paired(d)| == |Pending(d)| + |Paired(d)|;
    if IsFinished(d) {
      assert Paired(d) == EntrantsOf(PM.Active(d.pairings));
      assert PM.Active(d.pairings) == {};
      assert Paired(d) == {};
    }
  }

  /** A pairing of two pending entrants of a valid round is neither active nor finished. */
  lemma PendingPairingIsNew<E>(d: DynamicElimination<E>, p: Pairing<E>)
    requires Valid(d) && p.first in Pending(d) && p.second in Pending(d)
    ensures !PM.Contains(d.pairings, p)
    ensures p.first !in PM.ActiveEntrants(d.pairings) && p.second !in PM.ActiveEntrants(d.pairings)
  {
    if PM.IsActive(d.pairings, p) {
      InEntrantsOf(PM.Active(d.pairings), p.first);
    }
  }

  /** `nextPairing` on a valid round with two pending entrants succeeds: the drawn entrants
   *  are pending, different, and meet the checks `registerPairing` asserts (a new pairing,
   *  neither side pending nor decided); afterwards they are paired and the round is valid. */
  /** A draw that succeeds leaves a valid round. */
  lemma NextPairingKeepsValid<E>(d: DynamicElimination<E>, rng: nat -> nat)
    requires Valid(d)
    ensures NextPairing(d, rng).Ok? ==> Valid(NextPairing(d, rng).value.state)
  {
    if |Pending(d)| >= 2 {
      NextPairingPreservesValid(d, rng);
    }
  }

  lemma NextPairingPreservesValid<E>(d: DynamicElimination<E>, rng: nat -> nat)
    requires Valid(d) && |Pending(d)| >= 2
    ensures var r := NextPairing(d, rng);
            r.Ok? && Valid(r.value.state) && Sides(r.value.value) <= Pending(d) &&
            !PM.Contains(d.pairings, r.value.value) && Sides(r.value.value) !! Decided(d) &&
            !IsPending(r.value.state, r.value.value.first) && !IsPending(r.value.state, r.value.value.second) &&
            PM.IsActive(r.value.state.pairings, r.value.value)
  {
    NextPairingPairsUp(d, rng);
    var r := NextPairing(d, rng);
    PairUpPreservesValid(d, r.value.value, r.value.state);
  }

  /** `nextPairing` on a valid round with two pending entrants makes a new pairing of two
   *  of them active and changes nothing but the pending entrants and the pairings. */
  lemma NextPairingPairsUp<E>(d: DynamicElimination<E>, rng: nat -> nat)
    requires Valid(d) && |Pending(d)| >= 2
    ensures var r := NextPairing(d, rng);
            r.Ok? && !PM.Contains(d.pairings, r.value.value) &&
            var p := r.value.value;
            var d' := r.value.state;
            d' == d.(pending := d'.pending, pairings := d'.pairings) &&
            PM.Valid(d'.pairings) && PM.Active(d'.pairings) == PM.Active(d.pairings) + {p} &&
            PM.Finished(d'.pairings) == PM.Finished(d.pairings) && Paired(d') == Paired(d) + Sides(p)
  {
    NextPairingRegisters(d, rng);
    var draw := DrawTwo(d.pending, rng);
    var p := draw.value.value;
    PendingPairingIsNew(d, p);
    var s := PM.Add(d.pairings, p);
    assert s.Ok? && s.value.value;
  }

  /** With two pending entrants, `nextPairing` registers the pairing the two draws make. */
  lemma NextPairingRegisters<E>(d: DynamicElimination<E>, rng: nat -> nat)
    requires SS.Valid(d.pending) && |Pending(d)| >= 2
    ensures var draw := DrawTwo(d.pending, rng);
            draw.value.Some? &&
            NextPairing(d, rng) == RegisterPairing(d.(pending := draw.state), draw.value.value.first, draw.value.value.second)
  {
  }

  /** Pairing two pending entrants keeps the round valid. */
  lemma PairUpPreservesValid<E>(d: DynamicElimination<E>, p: Pairing<E>, d': DynamicElimination<E>)
    requires Valid(d) && p.first != p.second && Sides(p) <= Pending(d)
    requires d' == d.(pending := d'.pending, pairings := d'.pairings)
    requires SS.Valid(d'.pending) && Pending(d') == Pending(d) - Sides(p)
    requires PM.Valid(d'.pairings) && PM.Active(d'.pairings) == PM.Active(d.pairings) + {p}
    requires PM.Finished(d'.pairings) == PM.Finished(d.pairings)
    requires Paired(d') == Paired(d) + Sides(p)
    ensures Valid(d')
  {
    FinishedPairingsStayBacked(d, d');
  }

  /** Deciding an active pairing keeps the round valid: both sides move from paired to
   *  decided. */
  lemma DeclareWinnerInPreservesValid<E>(d: DynamicElimination<E>, w: E, p: Pairing<E>)
    requires Valid(d)
    ensures var r := DeclareWinnerIn(d, w, p);
            r.Ok? ==> Valid(r.value) && Decided(r.value) == Decided(d) + Sides(p)
  {
    var r := DeclareWinnerIn(d, w, p);
    if r.Ok? {
      var d' := r.value;
      assert p.first != p.second;
      assert Sides(p) == {w, Other(p, w)};
      assert Decided(d') == Decided(d) + Sides(p);
      assert Sides(p) <= Paired(d) by { InEntrantsOf(PM.Active(d.pairings), p.first); InEntrantsOf(PM.Active(d.pairings), p.second); }
      FinishingKeepsValid(d, d', p);
    }
  }

  /** Moving the active pairing `p` to the finished ones while both its sides gain a result
   *  keeps the round valid. */
  lemma FinishingKeepsValid<E>(d: DynamicElimination<E>, d': DynamicElimination<E>, p: Pairing<E>)
    requires Valid(d) && p in PM.Active(d.pairings)
    requires d'.pending == d.pending && d'.floating == d.floating && d'.entrants == d.entrants
    requires RM.Valid(d'.results) && PM.Valid(d'.pairings)
    requires Sides(p) <= Paired(d)
    requires Decided(d') == Decided(d) + Sides(p) && Paired(d') == Paired(d) - Sides(p)
    requires PM.Active(d'.pairings) == PM.Active(d.pairings) - {p}
    requires PM.Finished(d'.pairings) == PM.Finished(d.pairings) + {p}
    ensures Valid(d')
  {
    assert p.first in Decided(d');
  }


  /** `declareWinner(entrant)` on a valid round fails only for a non-entrant or an unpaired
   *  one, and keeps the round valid. */
  lemma DeclareWinnerPreservesValid<E>(d: DynamicElimination<E>, w: E)
    requires Valid(d)
    ensures var r := DeclareWinner(d, w);
            (r.Err? ==> r.error == NoSuchEntrant || r.error == MissingPairing) &&
            (r.Ok? ==> Valid(r.value.state) && IsAdvanced(r.value.state, w))
    ensures DE.Contains(d, w) && IsPaired(d, w) ==> DeclareWinner(d, w).Ok?
  {
    if DE.Contains(d, w) {
      match PM.FindActiveByEntrant(d.pairings, w)
      case None =>
      case Some(p) =>
        DeclareWinnerInPreservesValid(d, w, p);
    }
  }

  /** The corrected `declareTie` keeps the round valid. */
  lemma DeclareTiePreservesValid<E>(d: DynamicElimination<E>, p: Pairing<E>)
    requires Valid(d)
    ensures var r := DeclareTie(d, p);
            r.Ok? ==> Valid(r.value) && Decided(r.value) == Decided(d) + Sides(p)
  {
    var r := DeclareTie(d, p);
    if r.Ok? {
      var d' := r.value;
      assert Sides(p) <= Paired(d) by { InEntrantsOf(PM.Active(d.pairings), p.first); InEntrantsOf(PM.Active(d.pairings), p.second); }
      assert Decided(d') == Decided(d) + Sides(p);
      assert forall q :: q in PM.Finished(d'.pairings) ==>
               q.first in Decided(d') + Floating(d') || q.second in Decided(d') + Floating(d');
    }
  }

  /** Two different pairings of `x` make `findFinishedByEntrant(x)` hold more than one. */
  lemma TwoFinishedPairings<E>(d: DynamicElimination<E>, x: E, p: Pairing<E>, q: Pairing<E>)
    requires Valid(d) && p != q
    requires p in PM.Finished(d.pairings) && q in PM.Finished(d.pairings)
    requires Pairs.Contains(p, x) && Pairs.Contains(q, x)
    ensures |PM.FindFinishedByEntrant(d.pairings, x)| > 1
  {
    var b := PM.FindFinishedByEntrant(d.pairings, x);
    assert p in b && q in b;
    AnotherMember(b, p);
    assert q in b - {p};
  }

  /** Replaying a finished pairing of two entrants that is not orphaned succeeds and keeps the
   *  round valid: the orphan check guarantees that no other finished pairing depends on the
   *  results the replay takes away. */
  lemma ReplayPairingPreservesValid<E>(d: DynamicElimination<E>, p: Pairing<E>)
    requires Valid(d)
    ensures var r := ReplayPairing(d, p);
            (r.Err? ==> r.error in {NoSuchPairing, MissingEntrant, OrphanedPairing}) &&
            (r.Ok? ==> Valid(r.value.state))
    ensures (PM.IsFinished(d.pairings, p) && DE.Contains(d, p.first) && DE.Contains(d, p.second) &&
             IsPairingOrphaned(d, p) == Ok(false)) ==> ReplayPairing(d, p).Ok?
  {
    if !PM.IsActive(d.pairings, p) && PM.IsFinished(d.pairings, p) &&
       DE.Contains(d, p.first) && DE.Contains(d, p.second) && IsPairingOrphaned(d, p) != Ok(true) {
      var a, b := p.first, p.second;
      EntrantStatus(d, a);
      EntrantStatus(d, b);
      var results := RM.Reset(RM.Reset(d.results, a), b);
      var pairings := PM.Remove(d.pairings, p).state;
      var pending := SS.Remove(SS.Remove(d.pending, a).state, b).state;
      var d1 := d.(results := results, pairings := pairings, pending := pending);
      assert PM.Valid(pairings) && PM.Active(pairings) == PM.Active(d.pairings);
      assert Paired(d1) == Paired(d);
      var s := PM.Add(pairings, p);
      assert s.Ok? && s.value.value;
      var d' := d1.(pairings := s.value.state);
      assert ReplayPairing(d, p) == Ok(Step(d', true));
      assert Paired(d') == Paired(d) + Sides(p);
      assert Decided(d') == Decided(d) - Sides(p);
      assert Pending(d') == Pending(d) - Sides(p);
      assert PM.Finished(d'.pairings) == PM.Finished(d.pairings) - {p};
      ReplayKeepsValid(d, d', p);
    }
  }

  /** Moving the finished pairing `p` back to the active ones while both its sides lose their
   *  result keeps the round valid, when neither side has another finished pairing. */
  lemma ReplayKeepsValid<E>(d: DynamicElimination<E>, d': DynamicElimination<E>, p: Pairing<E>)
    requires Valid(d) && p in PM.Finished(d.pairings) && Sides(p) <= d.entrants
    requires SS.Valid(d'.pending) && RM.Valid(d'.results) && PM.Valid(d'.pairings)
    requires d'.entrants == d.entrants && d'.floating == d.floating
    requires Paired(d') == Paired(d) + Sides(p) && Decided(d') == Decided(d) - Sides(p)
    requires Pending(d') == Pending(d) - Sides(p)
    requires PM.Active(d'.pairings) == PM.Active(d.pairings) + {p}
    requires PM.Finished(d'.pairings) == PM.Finished(d.pairings) - {p}
    requires forall x :: x in Sides(p) && x in Decided(d) ==> |PM.FindFinishedByEntrant(d.pairings, x)| <= 1
    ensures Valid(d')
  {
    forall q | q in PM.Finished(d'.pairings)
      ensures q.first in Decided(d') + Floating(d') || q.second in Decided(d') + Floating(d')
    {
      var x := if q.first in Decided(d) + Floating(d) then q.first else q.second;
      if x in Sides(p) {
        assert x in Decided(d);
        TwoFinishedPairings(d, x, p, q);
        assert false;
      }
    }
  }

  /** `resetEntrant` on a valid round succeeds and keeps it valid: the finished pairings that
   *  relied on the entrant's result are exactly the ones it drops. */
  lemma ResetEntrantPreservesValid<E>(d: DynamicElimination<E>, e: E)
    requires Valid(d)
    ensures var r := ResetEntrant(d, e);
            r.Ok? && Valid(r.value.state)
  {
    if HasStateAbout(d, e) && !IsPending(d, e) {
      var cleared := ClearEntrant(d, e).value;
      var ps := Filter(cleared.pairings.finished.order, PM.FindFinishedByEntrant(cleared.pairings, e));
      ClearedIsSound(d, e);
      ResetIsPrune(d, e);
      var m := Prune(cleared, cleared.pairings, e, ps).value;
      PruneKeepsSound(cleared, m);
      PrunedKeepsBacked(d, e);
    }
  }

  /** Every part of validity but the two about finished pairings. */
  ghost predicate Sound<E>(d: DynamicElimination<E>) {
    && SS.Valid(d.pending) && RM.Valid(d.results) && RM.Valid(d.floating) && PM.Valid(d.pairings)
    && Pending(d) !! Paired(d) && Pending(d) !! Decided(d) && Paired(d) !! Decided(d)
    && d.entrants == Pending(d) + Paired(d) + Decided(d)
    && d.entrants !! Floating(d)
    && (forall p :: p in PM.Active(d.pairings) ==> p.first != p.second)
  }

  /** Replacing the pairings by a valid manager with the same active pairings keeps `Sound`. */
  lemma PruneKeepsSound<E>(c: DynamicElimination<E>, m: PM.PairingManager<E>)
    requires Sound(c) && m.active == c.pairings.active && PM.Valid(m)
    ensures Sound(c.(pairings := m))
  {
    assert Paired(c.(pairings := m)) == Paired(c);
  }

  /** After the pruning every finished pairing has two sides and a side with a result. */
  lemma PrunedKeepsBacked<E>(d: DynamicElimination<E>, e: E)
    requires Valid(d) && HasStateAbout(d, e) && !IsPending(d, e)
    ensures var c := ClearEntrant(d, e).value;
            var ps := Filter(c.pairings.finished.order, PM.FindFinishedByEntrant(c.pairings, e));
            Prune(c, c.pairings, e, ps).Ok? &&
            var d' := c.(pairings := Prune(c, c.pairings, e, ps).value);
            (forall q :: q in PM.Finished(d'.pairings) ==> q.first != q.second) &&
            (forall q :: q in PM.Finished(d'.pairings) ==>
               q.first in Decided(d') + Floating(d') || q.second in Decided(d') + Floating(d'))
  {
    var cleared := ClearEntrant(d, e).value;
    var ps := Filter(cleared.pairings.finished.order, PM.FindFinishedByEntrant(cleared.pairings, e));
    ClearedIsSound(d, e);
    ResetIsPrune(d, e);
    ListedFinished(cleared.pairings, e);
    BackedAfterPrune(d, cleared, Prune(cleared, cleared.pairings, e, ps).value, e, ps);
  }

  /** The finished pairings of `e`, in the order they finished, are all of them. */
  lemma ListedFinished<E>(m: PM.PairingManager<E>, e: E)
    requires PM.Valid(m)
    ensures var ps := Filter(m.finished.order, PM.FindFinishedByEntrant(m, e));
            forall q :: q in PM.Finished(m) && Pairs.Contains(q, e) ==> q in Elems(ps)
  {
    var ps := Filter(m.finished.order, PM.FindFinishedByEntrant(m, e));
    forall q | q in PM.Finished(m) && Pairs.Contains(q, e) ensures q in Elems(ps) {
      assert q in M.PairsWith(PM.Finished(m), e);
      assert q in Elems(m.finished.order) * PM.FindFinishedByEntrant(m, e);
    }
  }

  /** Dropping the unbacked pairings of `e` after clearing `e` leaves every finished pairing
   *  with two sides and a side that has a result. */
  lemma BackedAfterPrune<E>(d: DynamicElimination<E>, c: DynamicElimination<E>, m: PM.PairingManager<E>, e: E, ps: seq<Pairing<E>>)
    requires forall q :: q in PM.Finished(d.pairings) ==> q.first != q.second
    requires forall q :: q in PM.Finished(d.pairings) ==>
               q.first in Decided(d) + Floating(d) || q.second in Decided(d) + Floating(d)
    requires PM.Finished(c.pairings) == PM.Finished(d.pairings)
    requires PM.Finished(m) == PM.Finished(c.pairings) - Unbacked(c, e, ps)
    requires Decided(c) == Decided(d) - {e} && Floating(c) == Floating(d) - {e}
    requires forall q :: q in PM.Finished(c.pairings) && Pairs.Contains(q, e) ==> q in Elems(ps)
    ensures forall q :: q in PM.Finished(m) ==> q.first != q.second
    ensures forall q :: q in PM.Finished(m) ==>
              q.first in Decided(c) + Floating(c) || q.second in Decided(c) + Floating(c)
  {
    forall q | q in PM.Finished(m)
      ensures q.first in Decided(c) + Floating(c) || q.second in Decided(c) + Floating(c)
    {
      if Pairs.Contains(q, e) {
        assert q in Elems(ps);
        assert q !in Unbacked(c, e, ps);
        assert Other(q, e) in Sides(q);
      }
    }
  }

  /** Clearing an entrant with a state keeps every part of validity but the backing of the
   *  finished pairings, which `resetEntrant` restores by pruning. */
  lemma ClearedIsSound<E>(d: DynamicElimination<E>, e: E)
    requires Valid(d) && HasStateAbout(d, e) && !IsPending(d, e)
    ensures var c := ClearEntrant(d, e).value;
            ClearEntrant(d, e).Ok? && Sound(c) &&
            Decided(c) == Decided(d) - {e} && Floating(c) == Floating(d) - {e} &&
            c.pairings.finished == d.pairings.finished
  {
    EntrantStatus(d, e);
    var c := ClearEntrant(d, e).value;
    if IsPaired(d, e) {
      var p := PM.FindActiveByEntrant(d.pairings, e).value;
      assert Paired(c) == Paired(d) - Sides(p);
      assert Sides(p) <= Paired(d) by { InEntrantsOf(PM.Active(d.pairings), p.first); InEntrantsOf(PM.Active(d.pairings), p.second); }
    } else {
      assert Paired(c) == Paired(d);
    }
  }

  /** `resetEntrant` on an entrant with a state is the clearing followed by the pruning. */
  lemma ResetIsPrune<E>(d: DynamicElimination<E>, e: E)
    requires PM.Valid(d.pairings) && HasStateAbout(d, e) && !IsPending(d, e)
    ensures var c := ClearEntrant(d, e).value;
            var ps := Filter(c.pairings.finished.order, PM.FindFinishedByEntrant(c.pairings, e));
            Prune(c, c.pairings, e, ps).Ok? &&
            ResetEntrant(d, e) == Ok(Step(c.(pairings := Prune(c, c.pairings, e, ps).value), true))
  {
    var c := ClearEntrant(d, e).value;
    var ps := Filter(c.pairings.finished.order, PM.FindFinishedByEntrant(c.pairings, e));
    forall i | 0 <= i < |ps| ensures Pairs.Contains(ps[i], e) {
      assert ps[i] in Elems(ps);
    }
  }

  /** `removeEntrant` on a valid round succeeds and keeps it valid. */
  lemma RemoveEntrantPreservesValid<E>(d: DynamicElimination<E>, e: E)
    requires Valid(d)
    ensures var r := RemoveEntrant(d, e);
            r.Ok? && Valid(r.value.state)
  {
    EntrantStatus(d, e);
    var d' := RemoveEntrant(d, e).value.state;
    if !IsPending(d, e) && IsPaired(d, e) {
      var p := PM.FindActiveByEntrant(d.pairings, e).value;
      assert Sides(p) <= Paired(d) by { InEntrantsOf(PM.Active(d.pairings), p.first); InEntrantsOf(PM.Active(d.pairings), p.second); }
      assert Paired(d') == Paired(d) - Sides(p);
      assert Pending(d') == Pending(d) + {Other(p, e)};
    } else if !IsPending(d, e) && HasResult(d, e) {
      assert Floating(d') == Floating(d) + {e};
    }
    FinishedPairingsStayBacked(d, d');
  }

  /** Removing a decided entrant and adding it again gives back its result: it is an entrant
   *  again, advanced exactly if it was, and the round stays valid. */
  lemma RemoveThenAddRestoresResult<E>(d: DynamicElimination<E>, e: E)
    requires Valid(d) && HasResult(d, e)
    ensures var removed := RemoveEntrant(d, e);
            removed.Ok? && removed.value.value && !DE.Contains(removed.value.state, e) &&
            var added := AddEntrant(removed.value.state, e);
            added.value && DE.Contains(added.state, e) && HasResult(added.state, e) &&
            (IsAdvanced(added.state, e) <==> IsAdvanced(d, e)) && Valid(added.state)
  {
    EntrantStatus(d, e);
    RemoveEntrantPreservesValid(d, e);
    AddEntrantPreservesValid(RemoveEntrant(d, e).value.state, e);
  }

  /** The source's `addEntrant` breaks the partition when a removed entrant with a result
   *  comes back: the entrant has a result again but is not an entrant, so the count the
   *  source asserts after the next finished pairing comes out one too high. */
  lemma AddEntrantAsWrittenBreaksCounts<E>(d: DynamicElimination<E>, e: E)
    requires Valid(d) && RM.Contains(d.floating, e)
    ensures var r := AddEntrantAsWritten(d, e).state;
            !Valid(r) && !DE.Contains(r, e) && HasResult(r, e) &&
            |r.entrants| + 1 == |Paired(r)| + |r.results.advanced| + |r.results.eliminated| + |Pending(r)|
  {
    assert e in Floating(d);
    PartitionCounts(d);
    ReturnAddsOneResult(d.floating, d.results, e);
    OutsideResultIsInvalid(AddEntrantAsWritten(d, e).state, e);
  }

  /** Moving a result into a manager that does not classify the entrant adds one. */
  lemma ReturnAddsOneResult<E>(source: RM.ResultManager<E>, target: RM.ResultManager<E>, e: E)
    requires RM.Valid(source) && RM.Valid(target) && RM.Contains(source, e) && !RM.Contains(target, e)
    ensures var t := RM.MoveTo(source, target, e);
            |t.target.advanced| + |t.target.eliminated| == |target.advanced| + |target.eliminated| + 1 &&
            e in t.target.advanced + t.target.eliminated
  {
    var t := RM.MoveTo(source, target, e);
    if RM.IsAdvanced(source, e) {
      assert t.target.advanced == target.advanced + {e};
      assert t.target.eliminated == target.eliminated;
    } else {
      assert t.target.eliminated == target.eliminated + {e};
      assert t.target.advanced == target.advanced;
    }
  }

  /** A round in which a non-entrant has a result is not valid. */
  lemma OutsideResultIsInvalid<E>(d: DynamicElimination<E>, e: E)
    requires e in Decided(d) && e !in d.entrants
    ensures !Valid(d)
  {
  }

  /** A removed entrant with a result exists in every round that started with two entrants:
   *  draw their pairing, declare a winner and remove it. Adding it back with the source's
   *  `addEntrant` then breaks the partition, while the corrected one keeps the round valid. */
  lemma AddEntrantAsWrittenBreaksReachableRound<E>(a: E, b: E, rng: nat -> nat)
    requires a != b
    ensures var n := NextPairing(FromSeq([a, b]), rng);
            n.Ok? &&
            var w := n.value.value.first;
            var decided := DeclareWinnerIn(n.value.state, w, n.value.value);
            decided.Ok? &&
            var removed := RemoveEntrant(decided.value, w);
            removed.Ok? && removed.value.value &&
            !Valid(AddEntrantAsWritten(removed.value.state, w).state) &&
            Valid(AddEntrant(removed.value.state, w).state)
  {
    FromSeqIsValid([a, b]);
    assert Pending(FromSeq([a, b])) == {a, b};
    assert |Pending(FromSeq([a, b]))| == 2;
    NextPairingPreservesValid(FromSeq([a, b]), rng);
    var n := NextPairing(FromSeq([a, b]), rng);
    DecideThenRemove(n.value.state, n.value.value);
  }

  /** Declaring the first side of an active pairing the winner and then removing it leaves a
   *  valid round in which it has a floating result; adding it back with the source's
   *  `addEntrant` breaks the round, with the corrected one it stays valid. */
  lemma DecideThenRemove<E>(d: DynamicElimination<E>, p: Pairing<E>)
    requires Valid(d) && PM.IsActive(d.pairings, p)
    ensures var decided := DeclareWinnerIn(d, p.first, p);
            decided.Ok? &&
            var removed := RemoveEntrant(decided.value, p.first);
            removed.Ok? && removed.value.value &&
            !Valid(AddEntrantAsWritten(removed.value.state, p.first).state) &&
            Valid(AddEntrant(removed.value.state, p.first).state)
  {
    InEntrantsOf(PM.Active(d.pairings), p.first);
    assert DE.Contains(d, p.first);
    DeclareWinnerInPreservesValid(d, p.first, p);
    var decided := DeclareWinnerIn(d, p.first, p).value;
    RemoveEntrantPreservesValid(decided, p.first);
    var removed := RemoveEntrant(decided, p.first).value.state;
    AddEntrantAsWrittenBreaksCounts(removed, p.first);
    AddEntrantPreservesValid(removed, p.first);
  }

  /** The source's `declareTie` leaves both sides of the pairing without any status: they are
   *  entrants, but neither pending, paired nor decided, and the count the source asserts
   *  right after finishing the pairing comes out two short. */
  lemma DeclareTieAsWrittenBreaksCounts<E>(d: DynamicElimination<E>, p: Pairing<E>)
    requires Valid(d) && PM.IsActive(d.pairings, p)
    ensures var r := DeclareTieAsWritten(d, p);
            r.Ok? && !Valid(r.value) &&
            |r.value.entrants| == |Paired(r.value)| + |r.value.results.advanced| +
                                  |r.value.results.eliminated| + |Pending(r.value)| + 2
  {
    PartitionCounts(d);
    InEntrantsOf(PM.Active(d.pairings), p.first);
    InEntrantsOf(PM.Active(d.pairings), p.second);
    RemoveTwo(Paired(d), p);
    StatuslessEntrantIsInvalid(DeclareTieAsWritten(d, p).value, p.first);
  }

  /** Taking the two different sides of a pairing out of a set that holds both. */
  lemma RemoveTwo<E>(s: set<E>, p: Pairing<E>)
    requires Sides(p) <= s && p.first != p.second
    ensures |s - Sides(p)| + 2 == |s|
  {
    assert s == (s - Sides(p)) + Sides(p);
    DisjointUnionCard(s - Sides(p), Sides(p));
  }

  /** A round with an entrant that is neither pending, paired nor decided is not valid. */
  lemma StatuslessEntrantIsInvalid<E>(d: DynamicElimination<E>, e: E)
    requires e in d.entrants && e !in Pending(d) + Paired(d) + Decided(d)
    ensures !Valid(d)
  {
  }

  /** The first count the source asserts after finishing a pairing, which uses the entrants
   *  that ever finished a pairing, fails once an entrant with a finished pairing has left:
   *  here `a` beat `b`, `b` was removed, and `c` now beats `x`. */
  lemma FinishedEntrantCountFails<E>(d: DynamicElimination<E>, a: E, b: E, c: E, x: E)
    requires Valid(d) && a != b && a != c && a != x && b != c && b != x && c != x
    requires d.entrants == {a, c, x} && Pending(d) == {}
    requires PM.Active(d.pairings) == {Pair(c, x)} && PM.FinishedEntrants(d.pairings) == {a, b}
    ensures var r := DeclareWinnerIn(d, c, Pair(c, x));
            r.Ok? &&
            |r.value.entrants| + 1 ==
            |PM.ActiveEntrants(r.value.pairings)| + |PM.FinishedEntrants(r.value.pairings)| + |Pending(r.value)|
  {
    FinishedEntrantCount(d, a, b, c, x);
  }

  lemma FinishedEntrantCount<E>(d: DynamicElimination<E>, a: E, b: E, c: E, x: E)
    requires PM.Valid(d.pairings) && a != b && a != c && a != x && b != c && b != x && c != x
    requires d.entrants == {a, c, x} && Pending(d) == {}
    requires PM.Active(d.pairings) == {Pair(c, x)} && PM.FinishedEntrants(d.pairings) == {a, b}
    ensures var r := DeclareWinnerIn(d, c, Pair(c, x));
            r.Ok? &&
            |r.value.entrants| + 1 ==
            |PM.ActiveEntrants(r.value.pairings)| + |PM.FinishedEntrants(r.value.pairings)| + |Pending(r.value)|
  {
    assert Paired(d) == EntrantsOf({Pair(c, x)});
    assert Paired(d) == {c, x};
    var r := DeclareWinnerIn(d, c, Pair(c, x)).value;
    assert PM.ActiveEntrants(r.pairings) == {};
    assert PM.FinishedEntrants(r.pairings) == {a, b} + {c, x};
    assert r.entrants == {a, c, x} && Pending(r) == {};
    FourCount(a, b, c, x);
  }

  lemma FourCount<E>(a: E, b: E, c: E, x: E)
    requires a != b && a != c && a != x && b != c && b != x && c != x
    ensures |{a, b} + {c, x}| == 4 && |{a, c, x}| == 3
  {
  }

  /** Every two different pending entrants of a valid round can be the next pairing: some
   *  outcome of the random draws pairs exactly them, in this order. */
  lemma NextPairingCanDrawAnyTwo<E>(d: DynamicElimination<E>, a: E, b: E)
    requires Valid(d) && a in Pending(d) && b in Pending(d) && a != b
    ensures exists rng: nat -> nat :: NextPairing(d, rng).Ok? && NextPairing(d, rng).value.value == Pair(a, b)
  {
    var rng := DrawingRng(d.pending, a, b);
    AnotherMember(Pending(d), a);
    assert b in Pending(d) - {a};
    NextPairingRegisters(d, rng);
    NextPairingPairsUp(d, rng);
    assert NextPairing(d, rng).value.value == Pair(a, b);
  }

  /** An outcome of the random draws under which `DrawTwo` draws `a` and then `b`. */
  lemma DrawingRng<E>(s: SS.ShuffledSet<E>, a: E, b: E) returns (rng: nat -> nat)
    requires SS.Valid(s) && a in s.elements && b in s.elements && a != b
    ensures DrawTwo(s, rng).value == Some(Pair(a, b))
  {
    var n := |s.list|;
    assert a in Elems(s.list);
    var ia :| 0 <= ia < n && s.list[ia] == a;
    var rest := SS.Pop(s.list, ia);
    assert b in Elems(rest);
    var jb :| 0 <= jb < |rest| && rest[jb] == b;
    rng := (k: nat) => if k == n then ia else jb;
    assert rng(n) == ia && rng(n - 1) == jb;
    var s1 := SS.ShuffledSet(s.elements - {a}, s.removed, rest);
    DrawAtIndex(s, rng, ia);
    assert SS.Valid(s1);
    DrawAtIndex(s1, rng, jb);
    DrawTwoOfDraws(s, s1, rng, a, b);
  }

  /** With the random index fixed at a member's place, the draw returns that member. */
  lemma DrawAtIndex<E>(s: SS.ShuffledSet<E>, rng: nat -> nat, i: nat)
    requires SS.Valid(s) && i < |s.list| && rng(|s.list|) == i && s.list[i] in s.elements
    ensures SS.RemoveRandom(s, rng) ==
            Step(SS.ShuffledSet(s.elements - {s.list[i]}, s.removed, SS.Pop(s.list, i)), Some(s.list[i]))
  {
    assert SS.Pick(rng, |s.list|) == i;
    SS.DrawPicked(s, rng);
  }

  lemma DrawTwoOfDraws<E>(s: SS.ShuffledSet<E>, s1: SS.ShuffledSet<E>, rng: nat -> nat, a: E, b: E)
    requires SS.RemoveRandom(s, rng) == Step(s1, Some(a)) && SS.RemoveRandom(s1, rng).value == Some(b)
    ensures DrawTwo(s, rng).value == Some(Pair(a, b))
  {
  }
}
