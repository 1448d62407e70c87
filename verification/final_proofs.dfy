/** What the `Final` operations keep and restore. */
module FinalProofs {
  import opened Wrappers
  import opened Errors
  import opened Seqs
  import opened Pairs
  import opened Placements
  import opened Finals
  import PM = PairingManagers
  import PL = PlacementManagers

  /** A pairing of the final whose counterpart is the only other pairing that may be active
   *  shares nobody with the active pairings, so activating it raises no conflict. */
  lemma FreeToActivate<E>(f: Final<E>, m: PM.PairingManager<E>, p: Pairing<E>)
    requires f.third.Some? ==> Sides(f.first) !! Sides(f.third.value)
    requires PM.Valid(m) && p in Scheduled(f) && PM.Active(m) <= Scheduled(f) - {p}
    ensures p.first !in PM.ActiveEntrants(m) && p.second !in PM.ActiveEntrants(m)
  {
  }

  lemma AddEntrantPreservesValid<E>(f: Final<E>, e: E)
    requires Valid(f)
    ensures var r := AddEntrant(f, e);
            r.Ok? ==> Valid(r.value.state)
  {
  }

  /** Removing an entrant keeps the final valid, and a forfeited pairing is neither queued,
   *  active nor finished afterwards. */
  lemma RemoveEntrantPreservesValid<E>(f: Final<E>, e: E)
    requires Valid(f)
    ensures var r := RemoveEntrant(f, e);
            r.Ok? && Valid(r.value.state) &&
            (r.value.value && !PM.IsFinished(f.pairings, PairingFor(f, e).value) ==>
               var p := PairingFor(f, e).value;
               p !in r.value.state.queue && !PM.Contains(r.value.state.pairings, p))
  {
    if e in f.entrants {
      var p := PairingFor(f, e).value;
      if !PM.IsFinished(f.pairings, p) {
        var pairings := PM.Remove(f.pairings, p).state;
        assert !PM.Contains(pairings, p);
        assert Elems(RemoveFirst(f.queue, p)) == Elems(f.queue) - {p};
      }
    }
  }

  /** On a valid final with a queued pairing, `nextPairing` succeeds and makes the head of
   *  the queue active. */
  lemma NextPairingPreservesValid<E>(f: Final<E>)
    requires Valid(f) && |f.queue| > 0
    ensures var r := NextPairing(f);
            r.Ok? && r.value.value == f.queue[0] && PM.IsActive(r.value.state.pairings, f.queue[0]) &&
            Valid(r.value.state)
  {
    var p := f.queue[0];
    assert p in Elems(f.queue);
    FreeToActivate(f, f.pairings, p);
    ElemsSplit(f.queue);
  }

  /** On a valid final, a replay fails only for a pairing that never finished, and a replayed
   *  pairing is active again. */
  lemma ReplayPairingPreservesValid<E>(f: Final<E>, p: Pairing<E>)
    requires Valid(f)
    ensures var r := ReplayPairing(f, p);
            (r.Err? ==> r.error == NoSuchPairing) &&
            (r.Ok? ==> Valid(r.value.state) && PM.IsActive(r.value.state.pairings, p))
  {
    if !PM.IsActive(f.pairings, p) && PM.IsFinished(f.pairings, p) {
      var m := PM.RemoveFinished(f.pairings, p).state;
      FreeToActivate(f, m, p);
    }
  }

  lemma DeclareWinnerInPreservesValid<E>(f: Final<E>, w: E, p: Pairing<E>)
    requires Valid(f)
    ensures var r := DeclareWinnerIn(f, w, p);
            r.Ok? ==> Valid(r.value)
  {
  }

  /** On a valid final, `declareWinner(entrant)` fails only with `NoSuchEntrantException` or
   *  `MissingPairingException`, and otherwise keeps the final valid. */
  lemma DeclareWinnerPreservesValid<E>(f: Final<E>, w: E)
    requires Valid(f)
    ensures var r := DeclareWinner(f, w);
            (r.Err? ==> r.error == NoSuchEntrant || r.error == MissingPairing) &&
            (r.Ok? ==> Valid(r.value.state) && PM.IsFinished(r.value.state.pairings, r.value.value))
  {
    if w in f.entrants {
      var p := PairingFor(f, w).value;
      DeclareWinnerInPreservesValid(f, w, p);
    }
  }

  /** Removing an entrant whose pairing is queued and adding the entrant back restores the
   *  entrants and pairings, puts both sides at TBD, and queues the pairing again: the
   *  first-place pairing at the end, the third-place pairing at the front. */
  lemma RemoveThenAddRestores<E>(f: Final<E>, e: E)
    requires Valid(f) && e in f.entrants && PairingFor(f, e).value in f.queue
    ensures var removed := RemoveEntrant(f, e);
            removed.Ok? && removed.value.value &&
            var added := AddEntrant(removed.value.state, e);
            var p := PairingFor(f, e).value;
            added.Ok? && added.value.value &&
            added.value.state.entrants == f.entrants && added.value.state.pairings == f.pairings &&
            added.value.state.queue == Requeue(RemoveFirst(f.queue, p), p, InFirst(f, e)) &&
            PL.GetPlacement(added.value.state.placements, e) == Tbd &&
            PL.GetPlacement(added.value.state.placements, Other(p, e)) == Tbd &&
            added.value.state.placements.placements - {e, Other(p, e)} == f.placements.placements - {e, Other(p, e)}
  {
    var p := PairingFor(f, e).value;
    RemoveQueued(f, e);
    AddBack(RemoveEntrant(f, e).value.state, e, p);
  }

  /** Removing an entrant whose pairing is queued takes the pairing off the queue and touches
   *  no other placement and no pairing. */
  lemma RemoveQueued<E>(f: Final<E>, e: E)
    requires Valid(f) && e in f.entrants && PairingFor(f, e).value in f.queue
    ensures var p := PairingFor(f, e).value;
            var removed := RemoveEntrant(f, e);
            removed.Ok? && removed.value.value &&
            var g := removed.value.state;
            g.first == f.first && g.third == f.third && g.entrants == f.entrants - {e} &&
            g.pairings == f.pairings && g.queue == RemoveFirst(f.queue, p) && p !in g.queue &&
            g.placements.placements - {e, Other(p, e)} == f.placements.placements - {e, Other(p, e)} &&
            PairingFor(g, e) == Some(p) && Pairs.Contains(p, e) && !PM.Contains(g.pairings, p)
  {
    var p := PairingFor(f, e).value;
    assert p in Elems(f.queue);
    assert !PM.Contains(f.pairings, p);
    RemoveEntrantPreservesValid(f, e);
  }

  /** Adding back an entrant whose pairing is neither played nor queued queues it again and
   *  puts both sides at TBD, touching no other placement and no pairing. */
  lemma AddBack<E>(g: Final<E>, e: E, p: Pairing<E>)
    requires e !in g.entrants && PairingFor(g, e) == Some(p) && Pairs.Contains(p, e)
    requires !PM.Contains(g.pairings, p) && p !in g.queue
    ensures var added := AddEntrant(g, e);
            added.Ok? && added.value.value &&
            added.value.state.entrants == g.entrants + {e} && added.value.state.pairings == g.pairings &&
            added.value.state.queue == Requeue(g.queue, p, InFirst(g, e)) &&
            PL.GetPlacement(added.value.state.placements, e) == Tbd &&
            PL.GetPlacement(added.value.state.placements, Other(p, e)) == Tbd &&
            added.value.state.placements.placements - {e, Other(p, e)} == g.placements.placements - {e, Other(p, e)}
  {
  }

  /** On a final that has not started, removing any entrant and adding it back leaves every
   *  placement TBD and the queue as it was: third place, then first place. */
  lemma UnstartedRemoveThenAdd<E>(f: Final<E>, e: E)
    requires Valid(f) && f.third.Some? && f.queue == [f.third.value, f.first]
    requires e in f.entrants && f.placements == PL.Empty()
    ensures var removed := RemoveEntrant(f, e);
            removed.Ok? &&
            var added := AddEntrant(removed.value.state, e);
            added.Ok? && added.value.state.queue == f.queue && added.value.state.entrants == f.entrants &&
            forall x :: PL.GetPlacement(added.value.state.placements, x) == Tbd
  {
    var p := PairingFor(f, e).value;
    RemoveThenAddRestores(f, e);
    if InFirst(f, e) {
      assert RemoveFirst(f.queue, p) == [f.third.value];
    } else {
      assert RemoveFirst(f.queue, p) == [f.first];
    }
    var added := AddEntrant(RemoveEntrant(f, e).value.state, e).value.state;
    assert added.placements.placements.Keys <= {e, Other(p, e)};
  }

  /** The identity on a new final of four. */
  lemma NewFinalRemoveThenAdd<E>(a: E, b: E, c: E, d: E, e: E)
    requires a != b && a != c && a != d && b != c && b != d && c != d
    requires e in {a, b, c, d}
    ensures var f := Create(Pair(a, b), Some(Pair(c, d))).value;
            var removed := RemoveEntrant(f, e);
            removed.Ok? &&
            var added := AddEntrant(removed.value.state, e);
            added.Ok? && added.value.state.queue == [Pair(c, d), Pair(a, b)] &&
            added.value.state.entrants == {a, b, c, d} &&
            forall x :: PL.GetPlacement(added.value.state.placements, x) == Tbd
  {
    UnstartedRemoveThenAdd(Create(Pair(a, b), Some(Pair(c, d))).value, e);
  }

  /** The source's `addEntrant` queues a pairing a second time: with both sides of an unplayed
   *  pairing removed and added back, the pairing is queued twice and the final is no longer
   *  valid; the corrected `addEntrant` queues it once. */
  lemma AddEntrantAsWrittenQueuesTwice<E>(a: E, b: E)
    requires a != b
    ensures var f := Create(Pair(a, b), None).value;
            var gone := RemoveEntrant(RemoveEntrant(f, a).value.state, b).value.state;
            var asWritten := AddEntrantAsWritten(AddEntrantAsWritten(gone, a).value.state, b).value.state;
            var corrected := AddEntrant(AddEntrant(gone, a).value.state, b).value.state;
            asWritten.queue == [Pair(a, b), Pair(a, b)] && !Valid(asWritten) &&
            corrected.queue == [Pair(a, b)] && Valid(corrected)
  {
    var f := Create(Pair(a, b), None).value;
    var one := RemoveEntrant(f, a).value.state;
    RemoveEntrantPreservesValid(f, a);
    assert one.queue == [];
    var gone := RemoveEntrant(one, b).value.state;
    RemoveEntrantPreservesValid(one, b);
    assert gone.queue == [] && gone.entrants == {};
    var w1 := AddEntrantAsWritten(gone, a).value.state;
    assert w1.queue == [Pair(a, b)];
    var w2 := AddEntrantAsWritten(w1, b).value.state;
    assert w2.queue == [Pair(a, b), Pair(a, b)];
    assert !Distinct(w2.queue) by {
      assert w2.queue[0] == w2.queue[1];
    }
    var c1 := AddEntrant(gone, a).value.state;
    AddEntrantPreservesValid(gone, a);
    AddEntrantPreservesValid(c1, b);
  }

  /** The source's `setPlacement` leaves a forfeit's FIRST slot behind: removing one side of an
   *  unplayed first-place pairing and adding it back sets the opponent to FIRST and then to
   *  TBD, after which the lookup still names the opponent for FIRST. With the slot freed,
   *  nobody holds FIRST. */
  lemma ForfeitThenReturnLeavesStaleSlot<E>(a: E, b: E)
    requires a != b
    ensures var forfeit := PL.SetPlacementAsWritten(PL.SetPlacementAsWritten(PL.Empty(), a, NoPlacement).state, b, First).state;
            var back := PL.SetPlacementAsWritten(PL.SetPlacementAsWritten(forfeit, a, Tbd).state, b, Tbd).state;
            PL.GetEntrantByPlacement(back, First) == Ok(Some(b)) && PL.GetPlacement(back, b) == Tbd
    ensures var f := Create(Pair(a, b), None).value;
            var back := AddEntrant(RemoveEntrant(f, a).value.state, a).value.state;
            PL.GetEntrantByPlacement(back.placements, First) == Ok(None)
  {
    var f := Create(Pair(a, b), None).value;
    RemoveThenAddRestores(f, a);
    var back := AddEntrant(RemoveEntrant(f, a).value.state, a).value.state;
    RemoveEntrantPreservesValid(f, a);
    AddEntrantPreservesValid(RemoveEntrant(f, a).value.state, a);
    assert PL.Sound(back.placements);
  }

  /** Deciding the active pairing `p` of a valid final with `w` as winner awards the
   *  placements and finishes `p`, and nothing else changes. */
  lemma DecideActive<E>(f: Final<E>, w: E, p: Pairing<E>)
    requires Valid(f) && PM.Active(f.pairings) == {p} && p.first != p.second
    requires w in f.entrants && PairingFor(f, w) == Some(p)
    ensures var r := DeclareWinner(f, w);
            r.Ok? && r.value.value == p && Valid(r.value.state) &&
            r.value.state == f.(pairings := r.value.state.pairings, placements := Award(f, p, w, Other(p, w))) &&
            PM.Active(r.value.state.pairings) == {} && PM.Finished(r.value.state.pairings) == PM.Finished(f.pairings) + {p}
  {
    DeclareWinnerPreservesValid(f, w);
  }

  /** Starting a valid final whose queue is `[p] + rest` and which has no active pairing. */
  lemma StartNext<E>(f: Final<E>, p: Pairing<E>)
    requires Valid(f) && |f.queue| > 0 && f.queue[0] == p && PM.Active(f.pairings) == {}
    ensures var r := NextPairing(f);
            r.Ok? && r.value.value == p && Valid(r.value.state) &&
            r.value.state == f.(queue := f.queue[1..], pairings := r.value.state.pairings) &&
            PM.Active(r.value.state.pairings) == {p} && PM.Finished(r.value.state.pairings) == PM.Finished(f.pairings)
  {
    NextPairingPreservesValid(f);
  }

  /** The placements a final of four ends with when `c` wins third place and `a` first. */
  lemma FinalStandings<E>(a: E, b: E, c: E, d: E)
    requires a != b && a != c && a != d && b != c && b != d && c != d
    ensures var third := PL.SetPlacement(PL.SetPlacement(PL.Empty(), c, Third).state, d, NoPlacement).state;
            var m := PL.SetPlacement(PL.SetPlacement(third, a, First).state, b, Second).state;
            PL.GetEntrantByPlacement(m, First) == Ok(Some(a)) &&
            PL.GetEntrantByPlacement(m, Second) == Ok(Some(b)) &&
            PL.GetEntrantByPlacement(m, Third) == Ok(Some(c)) &&
            PL.GetPlacement(m, d) == NoPlacement
  {
  }

  /** A whole final: the third-place pairing is played and won by `c`, then the first-place
   *  pairing is won by `a`. The placements are FIRST `a`, SECOND `b`, THIRD `c`, NONE `d`,
   *  both pairings are finished and the final is over. */
  lemma PlayedFinalPlacements<E>(a: E, b: E, c: E, d: E)
    requires a != b && a != c && a != d && b != c && b != d && c != d
    ensures var f0 := Create(Pair(a, b), Some(Pair(c, d))).value;
            var n1 := NextPairing(f0);
            n1.Ok? && n1.value.value == Pair(c, d) &&
            var d1 := DeclareWinner(n1.value.state, c);
            d1.Ok? &&
            var n2 := NextPairing(d1.value.state);
            n2.Ok? && n2.value.value == Pair(a, b) &&
            var d2 := DeclareWinner(n2.value.state, a);
            d2.Ok? &&
            var f := d2.value.state;
            PL.GetEntrantByPlacement(f.placements, First) == Ok(Some(a)) &&
            PL.GetEntrantByPlacement(f.placements, Second) == Ok(Some(b)) &&
            PL.GetEntrantByPlacement(f.placements, Third) == Ok(Some(c)) &&
            PL.GetPlacement(f.placements, d) == NoPlacement &&
            PM.Finished(f.pairings) == {Pair(c, d), Pair(a, b)} && IsFinished(f)
  {
    var f0 := Create(Pair(a, b), Some(Pair(c, d))).value;
    StartNext(f0, Pair(c, d));
    var f1 := NextPairing(f0).value.state;
    DecideActive(f1, c, Pair(c, d));
    var f2 := DeclareWinner(f1, c).value.state;
    assert f2.queue == [Pair(a, b)];
    StartNext(f2, Pair(a, b));
    var f3 := NextPairing(f2).value.state;
    DecideActive(f3, a, Pair(a, b));
    FinalStandings(a, b, c, d);
  }
}
