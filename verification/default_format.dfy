/** `DefaultFormat`: a tournament starts with a dynamic elimination and goes on with one until
 *  at most four entrants advance; four play a semi-final, three a round-robin final, two a
 *  final, and the semi-final's winners and losers meet in a final. The source iterates hash
 *  sets to pick who is paired with whom; here `order` stands for that iteration order, and a
 *  set is iterated as `order` lists its members. */
module DefaultFormats {
  import opened Wrappers
  import opened Errors
  import opened Seqs
  import opened Pairs
  import opened Placements
  import opened Rounds
  import DE = DynamicEliminations
  import DP = DynamicEliminationProofs
  import SF = SemiFinals
  import F = Finals
  import FP = FinalProofs
  import RR = RoundRobinFinals
  import RP = RoundRobinFinalProofs
  import PM = PairingManagers
  import PL = PlacementManagers

  /** `order` lists every member of `s`: the iteration of `s` then sees all of it. */
  predicate Lists<E>(order: seq<E>, s: set<E>) {
    s <= Elems(order)
  }

  /** `createInitialRound`. */
  function CreateInitialRound<E>(): Round<E> {
    Elimination(DE.Empty())
  }

  /** The first round is an empty dynamic elimination that has not started and is valid. */
  lemma InitialRoundIsFresh<E>()
    ensures var r := CreateInitialRound<E>();
            r.Elimination? && Entrants(r) == {} && !HasStarted(r) && !IsFinalRound(r) && Valid(r)
  {
    DP.EmptyIsValid<E>();
  }

  /** `createNextRound(DynamicElimination)`: the number of advanced entrants decides. */
  function NextFromElimination<E>(d: DE.DynamicElimination<E>, order: seq<E>): (r: Result<Round<E>, Error>)
    ensures r == Err(FinalRound) <==> |d.results.advanced| < 2
    ensures r.Ok? ==> (r.value.Elimination? <==> |d.results.advanced| > 4)
    ensures r.Ok? ==> (r.value.SemiFinal? <==> |d.results.advanced| == 4)
    ensures r.Ok? ==> (r.value.RoundRobinFinal? <==> |d.results.advanced| == 3)
    ensures r.Ok? ==> (r.value.Final? <==> |d.results.advanced| == 2)
  {
    var advanced := d.results.advanced;
    var es := Enumerate(order, advanced);
    if |advanced| > 4 then Ok(Elimination(DE.FromSeq(es)))
    else if |advanced| == 4 then
      (match SF.FromSeq(es)
       case Err(x) => Err(x)
       case Ok(s) => Ok(SemiFinal(s)))
    else if |advanced| == 3 then
      if |es| < 3 then Err(NoSuchElement)
      else Ok(RoundRobinFinal(RR.Create(es[0], es[1], es[2])))
    else if |advanced| == 2 then
      if |es| < 2 then Err(NoSuchElement)
      else
        (match F.Create(Pair(es[0], es[1]), None)
         case Err(x) => Err(x)
         case Ok(f) => Ok(Final(f)))
    else Err(FinalRound)
  }

  /** The final built when only one side of the semi-final has two entrants left: the two play
   *  the pairing of their level, and the lone entrant `winner` of the other level is paired
   *  with `loser`, who left, and wins that pairing at once. `advancedCount` is the number of
   *  winners left: with two, `other` is played for first place; with one, for third place;
   *  with any other count both places go to the predetermined pairing, which the final
   *  refuses. */
  function Predetermined<E>(other: Pairing<E>, winner: E, loser: E, advancedCount: nat): (r: Result<F.Final<E>, Error>)
    ensures r.Ok? ==> r.value.first == (if advancedCount == 2 then other else Pair(winner, loser))
    ensures r.Ok? ==> r.value.third == Some(if advancedCount == 1 then other else Pair(winner, loser))
    ensures advancedCount != 1 && advancedCount != 2 ==> r == Err(IllegalArgument)
    ensures r.Err? ==> r.error != RoundNotFinished
  {
    var predetermined := Pair(winner, loser);
    var first := if advancedCount == 2 then other else predetermined;
    var third := if advancedCount == 1 then other else predetermined;
    match F.Create(first, Some(third))
    case Err(x) => Err(x)
    case Ok(f) =>
      var f1 := if Pairs.Contains(third, winner) then F.SetThirdPlacePairingFirst(f)
                else if Pairs.Contains(first, winner) then F.SetFirstPlacePairingFirst(f)
                else f;
      match F.NextPairing(f1)
      case Err(_) => Err(Fault)
      case Ok(n) =>
        match F.DeclareWinner(n.state, winner)
        case Err(x) => Err(x)
        case Ok(decided) => Ok(decided.state)
  }

  /** The uneven case of `createNextRound(SemiFinal)`: one level has two entrants left, the
   *  other fewer. The lone entrant, if any, is paired with a finished entrant who is on
   *  neither list. */
  function NextFromSplit<E>(s: SF.SemiFinal<E>, order: seq<E>): (r: Result<Round<E>, Error>)
    ensures |s.round.results.eliminated| == 0 ==> r == Err(NoSuchElement)
    ensures r.Ok? ==> r.value.Final?
    ensures r != Err(RoundNotFinished)
  {
    var advanced := s.round.results.advanced;
    var eliminated := s.round.results.eliminated;
    var pair := if |advanced| == 2 then advanced else eliminated;
    var lone := if |advanced| == 1 then advanced else eliminated;
    var withTwo := Enumerate(order, pair);
    var withOne := Enumerate(order, lone);
    EnumerateCard(order, pair);
    EnumerateCard(order, lone);
    if |withTwo| < 2 || |withOne| == 0 then Err(NoSuchElement)
    else
      var other := Pair(withTwo[0], withTwo[1]);
      var winner := withOne[0];
      var rest := Enumerate(order, PM.FinishedEntrants(s.round.pairings) - {other.first, other.second, winner});
      if |rest| == 0 then Err(NoSuchElement)
      else
        match Predetermined(other, winner, rest[0], |advanced|)
        case Err(x) => Err(x)
        case Ok(f) => Ok(Final(f))
  }

  /** `createNextRound(SemiFinal)`: two winners and two losers play for first and for third
   *  place; with a level down to one entrant, that entrant wins its place against someone who
   *  left; with both levels down to one, nothing is left to play. */
  function NextFromSemiFinal<E>(s: SF.SemiFinal<E>, order: seq<E>): (r: Result<Round<E>, Error>)
    ensures var advanced := s.round.results.advanced;
            var eliminated := s.round.results.eliminated;
            (|advanced| > 2 || |eliminated| > 2 ==> r == Err(Fault)) &&
            (|advanced| <= 1 && |eliminated| <= 1 ==> r == Err(FinalRound)) &&
            (|advanced| == 2 && |eliminated| == 0 ==> r == Err(NoSuchElement))
    ensures r.Ok? ==> r.value.Final?
    ensures r != Err(RoundNotFinished)
  {
    var advanced := s.round.results.advanced;
    var eliminated := s.round.results.eliminated;
    if |advanced| > 2 || |eliminated| > 2 then Err(Fault)
    else if |advanced| == 2 && |eliminated| == 2 then
      var a := Enumerate(order, advanced);
      var l := Enumerate(order, eliminated);
      if |a| < 2 || |l| < 2 then Err(NoSuchElement)
      else
        match F.Create(Pair(a[0], a[1]), Some(Pair(l[0], l[1])))
        case Err(x) => Err(x)
        case Ok(f) => Ok(Final(f))
    else if |advanced| <= 1 && |eliminated| <= 1 then Err(FinalRound)
    else NextFromSplit(s, order)
  }

  /** A tied round-robin final is played again by the same three, in iteration order. */
  function Rematch<E>(rr: RR.RoundRobinFinal<E>, order: seq<E>): (r: Result<Round<E>, Error>)
    ensures r.Ok? ==> r.value.RoundRobinFinal? && Entrants(r.value) <= rr.entrants
    ensures |rr.entrants| < 3 ==> r == Err(NoSuchElement)
  {
    var es := Enumerate(order, rr.entrants);
    EnumerateCard(order, rr.entrants);
    if |es| < 3 then Err(NoSuchElement)
    else
      assert es[0] in Elems(es) && es[1] in Elems(es) && es[2] in Elems(es);
      Ok(RoundRobinFinal(RR.Create(es[0], es[1], es[2])))
  }

  /** `createNextRound(Round)`: an unfinished round has no successor; a tied round-robin final
   *  is played again; after any other final round the tournament is over; a semi-final is
   *  recognised before the dynamic elimination it extends. `order` stands for a hash set's
   *  iteration order only when it lists the entrants it is used on (`Lists`), as the lemmas
   *  about the successor require: an order that misses an entrant can make a draw come up
   *  short where the source would always find one. */
  function CreateNextRound<E>(round: Round<E>, order: seq<E>): (r: Result<Round<E>, Error>)
    ensures r == Err(RoundNotFinished) <==> !IsFinished(round)
    ensures IsFinished(round) && round.Final? ==> r == Err(FinalRound)
    ensures IsFinished(round) && round.RoundRobinFinal? && !RR.IsTie(round.robin) ==> r == Err(FinalRound)
    ensures r.Ok? && IsFinalRound(round) ==> round.RoundRobinFinal? && r.value.RoundRobinFinal?
    ensures r.Ok? && round.SemiFinal? ==> r.value.Final?
    ensures IsFinished(round) && round.Elimination? ==> r == NextFromElimination(round.elimination, order)
  {
    if !IsFinished(round) then Err(RoundNotFinished)
    else if round.RoundRobinFinal? && RR.IsTie(round.robin) then Rematch(round.robin, order)
    else if IsFinalRound(round) then Err(FinalRound)
    else if round.SemiFinal? then NextFromSemiFinal(round.semi, order)
    else NextFromElimination(round.elimination, order)
  }

  /** The predetermined pairing is played at once: when nobody of `other` is in it, the final
   *  comes out valid with that pairing finished, `winner` placed FIRST and `loser` SECOND
   *  (THIRD and NONE when it is the third-place pairing), and only `other` still queued. */
  lemma PredeterminedPlays<E>(other: Pairing<E>, winner: E, loser: E, advancedCount: nat)
    requires winner != loser && !Pairs.Contains(other, winner) && !Pairs.Contains(other, loser)
    requires advancedCount == 1 || advancedCount == 2
    ensures var r := Predetermined(other, winner, loser, advancedCount);
            r.Ok? && F.Valid(r.value) && r.value.queue == [other] &&
            PM.Active(r.value.pairings) == {} && PM.Finished(r.value.pairings) == {Pair(winner, loser)} &&
            PL.GetPlacement(r.value.placements, winner) == (if advancedCount == 2 then Third else First) &&
            PL.GetPlacement(r.value.placements, loser) == (if advancedCount == 2 then NoPlacement else Second)
  {
    var predetermined := Pair(winner, loser);
    var first := if advancedCount == 2 then other else predetermined;
    var third := if advancedCount == 1 then other else predetermined;
    var f := F.Create(first, Some(third)).value;
    assert PM.Active(f.pairings) == {} && PM.Finished(f.pairings) == {};
    var f1 := if Pairs.Contains(third, winner) then F.SetThirdPlacePairingFirst(f)
              else F.SetFirstPlacePairingFirst(f);
    assert f1.queue == [predetermined, other] by {
      assert f.queue == [third, first];
      assert predetermined in f.queue;
      assert f1.queue[0] == predetermined;
      assert Elems(f1.queue) == {first, third};
      assert other in Elems(f1.queue);
    }
    FP.StartNext(f1, predetermined);
    var n := F.NextPairing(f1).value.state;
    assert n.queue == [other];
    assert F.PairingFor(n, winner) == Some(predetermined);
    FP.DecideActive(n, winner, predetermined);
  }

  /** When `order` lists all of `s`, its enumeration of `s` has every member once: for up to
   *  three members, they are the first entries. */
  lemma EnumeratedMembers<E>(order: seq<E>, s: set<E>)
    requires Lists(order, s)
    ensures var es := Enumerate(order, s);
            |es| == |s| && Elems(es) == s &&
            (|s| == 1 ==> s == {es[0]}) &&
            (|s| == 2 ==> s == {es[0], es[1]} && es[0] != es[1]) &&
            (|s| == 3 ==> s == {es[0], es[1], es[2]} && es[0] != es[1] && es[0] != es[2] && es[1] != es[2])
  {
    EnumerateCard(order, s);
    var es := Enumerate(order, s);
    if |s| == 1 {
      OneEntry(es);
    } else if |s| == 2 {
      TwoEntries(es);
    } else if |s| == 3 {
      ThreeEntries(es);
    }
  }

  lemma OneEntry<E>(es: seq<E>)
    requires |es| == 1
    ensures Elems(es) == {es[0]}
  {
    assert es == [es[0]];
  }

  lemma TwoEntries<E>(es: seq<E>)
    requires |es| == 2 && Distinct(es)
    ensures Elems(es) == {es[0], es[1]} && es[0] != es[1]
  {
    assert es == [es[0], es[1]];
  }

  lemma ThreeEntries<E>(es: seq<E>)
    requires |es| == 3 && Distinct(es)
    ensures Elems(es) == {es[0], es[1], es[2]} && es[0] != es[1] && es[0] != es[2] && es[1] != es[2]
  {
    assert es == [es[0], es[1], es[2]];
  }

  /** After a dynamic elimination with at least two advanced entrants, the next round is made
   *  of exactly those entrants, is valid and has not started; with fewer there is none. */
  lemma NextFromEliminationIsFresh<E>(d: DE.DynamicElimination<E>, order: seq<E>)
    requires Lists(order, d.results.advanced)
    ensures var r := NextFromElimination(d, order);
            (r.Ok? <==> |d.results.advanced| >= 2) &&
            (r.Ok? ==> Entrants(r.value) == d.results.advanced && !HasStarted(r.value) && Valid(r.value))
  {
    var advanced := d.results.advanced;
    var es := Enumerate(order, advanced);
    EnumeratedMembers(order, advanced);
    if |advanced| > 4 {
      DP.FromSeqIsValid(es);
      assert NextFromElimination(d, order) == Ok(Elimination(DE.FromSeq(es)));
    } else if |advanced| == 4 {
      assert NextFromElimination(d, order) == Ok(SemiFinal(SF.FromSeq(es).value));
    } else if |advanced| == 3 {
      RP.CreateIsValid(es[0], es[1], es[2]);
      assert NextFromElimination(d, order) == Ok(RoundRobinFinal(RR.Create(es[0], es[1], es[2])));
    } else if |advanced| == 2 {
      assert NextFromElimination(d, order) == Ok(Final(F.Create(Pair(es[0], es[1]), None).value));
    }
  }

  /** Two winners and two losers of a semi-final: the winners play for first place and the
   *  losers for third, the third-place pairing first, and nothing has been played yet. */
  lemma WinnersAndLosersMeet<E>(s: SF.SemiFinal<E>, order: seq<E>)
    requires |s.round.results.advanced| == 2 && |s.round.results.eliminated| == 2
    requires s.round.results.advanced !! s.round.results.eliminated
    requires Lists(order, s.round.results.advanced) && Lists(order, s.round.results.eliminated)
    ensures var r := NextFromSemiFinal(s, order);
            r.Ok? && r.value.Final? &&
            var f := r.value.playoff;
            Sides(f.first) == s.round.results.advanced &&
            f.third.Some? && Sides(f.third.value) == s.round.results.eliminated &&
            f.queue == [f.third.value, f.first] &&
            f.entrants == s.round.results.advanced + s.round.results.eliminated &&
            !HasStarted(r.value) && Valid(r.value)
  {
    EnumeratedMembers(order, s.round.results.advanced);
    EnumeratedMembers(order, s.round.results.eliminated);
  }

  /** The entrants a lone entrant may be paired with: finished entrants on neither level. */
  function Leavers<E>(s: SF.SemiFinal<E>): set<E> {
    PM.FinishedEntrants(s.round.pairings) - s.round.results.advanced - s.round.results.eliminated
  }

  /** A semi-final with one winner `w` left and both losers: `w` is FIRST against a leaver,
   *  who is SECOND; that pairing is already finished, and only the losers' pairing is queued. */
  lemma LoneWinnerTakesFirst<E>(s: SF.SemiFinal<E>, order: seq<E>, w: E)
    requires s.round.results.advanced == {w} && |s.round.results.eliminated| == 2
    requires w !in s.round.results.eliminated
    requires Lists(order, {w}) && Lists(order, s.round.results.eliminated)
    requires Leavers(s) != {} && Lists(order, Leavers(s))
    ensures var r := NextFromSemiFinal(s, order);
            r.Ok? && r.value.Final? &&
            var f := r.value.playoff;
            f.first.first == w && f.first.second in Leavers(s) &&
            PL.GetPlacement(f.placements, w) == First && PL.GetPlacement(f.placements, f.first.second) == Second &&
            f.third.Some? && Sides(f.third.value) == s.round.results.eliminated && f.queue == [f.third.value] &&
            PM.Finished(f.pairings) == {f.first} && HasStarted(r.value) && Valid(r.value)
  {
    var eliminated := s.round.results.eliminated;
    EnumeratedMembers(order, eliminated);
    EnumeratedMembers(order, {w});
    var es := Enumerate(order, eliminated);
    var other := Pair(es[0], es[1]);
    var left := PM.FinishedEntrants(s.round.pairings) - {other.first, other.second, w};
    assert left == Leavers(s);
    EnumeratedMembers(order, left);
    var loser := Enumerate(order, left)[0];
    assert loser in left;
    PredeterminedPlays(other, w, loser, 1);
  }

  /** A semi-final with both winners left and one loser `l`: `l` is THIRD against a leaver,
   *  who gets NONE; that pairing is already finished, and only the winners' pairing is queued. */
  lemma LoneLoserTakesThird<E>(s: SF.SemiFinal<E>, order: seq<E>, l: E)
    requires |s.round.results.advanced| == 2 && s.round.results.eliminated == {l}
    requires l !in s.round.results.advanced
    requires Lists(order, s.round.results.advanced) && Lists(order, {l})
    requires Leavers(s) != {} && Lists(order, Leavers(s))
    ensures var r := NextFromSemiFinal(s, order);
            r.Ok? && r.value.Final? &&
            var f := r.value.playoff;
            f.third.Some? && f.third.value.first == l && f.third.value.second in Leavers(s) &&
            PL.GetPlacement(f.placements, l) == Third &&
            PL.GetPlacement(f.placements, f.third.value.second) == NoPlacement &&
            Sides(f.first) == s.round.results.advanced && f.queue == [f.first] &&
            PM.Finished(f.pairings) == {f.third.value} && HasStarted(r.value) && Valid(r.value)
  {
    var advanced := s.round.results.advanced;
    EnumeratedMembers(order, advanced);
    EnumeratedMembers(order, {l});
    var es := Enumerate(order, advanced);
    var other := Pair(es[0], es[1]);
    var left := PM.FinishedEntrants(s.round.pairings) - {other.first, other.second, l};
    assert left == Leavers(s);
    EnumeratedMembers(order, left);
    var loser := Enumerate(order, left)[0];
    assert loser in left;
    PredeterminedPlays(other, l, loser, 2);
  }

  /** A tied round-robin final of three is played again from scratch by the same three. */
  lemma TieIsPlayedAgain<E>(rr: RR.RoundRobinFinal<E>, order: seq<E>)
    requires RR.IsTie(rr) && |rr.entrants| == 3 && Lists(order, rr.entrants)
    ensures var r := CreateNextRound(RoundRobinFinal(rr), order);
            r.Ok? && r.value.RoundRobinFinal? && Entrants(r.value) == rr.entrants &&
            !HasStarted(r.value) && Valid(r.value) && (forall e :: RR.Score(r.value.robin, e) == 0)
  {
    EnumeratedMembers(order, rr.entrants);
    var es := Enumerate(order, rr.entrants);
    RP.CreateIsValid(es[0], es[1], es[2]);
    var again := RR.Create(es[0], es[1], es[2]);
    assert Rematch(rr, order) == Ok(RoundRobinFinal(again));
    assert CreateNextRound(RoundRobinFinal(rr), order) == Rematch(rr, order);
  }

  /** A finished round-robin final that some of the three have left is no tie while anyone is
   *  still in it, so it ends the tournament, even when the scores stood at one win each. Once
   *  all three have left it counts as a tie, and the rematch finds nobody to draw. */
  lemma DepartureEndsRoundRobinFinal<E>(rr: RR.RoundRobinFinal<E>, order: seq<E>)
    requires RR.Valid(rr) && RR.IsFinished(rr) && rr.entrants != RR.Members(rr.trio)
    ensures rr.entrants != {} ==> CreateNextRound(RoundRobinFinal(rr), order) == Err(FinalRound)
    ensures rr.entrants == {} ==> CreateNextRound(RoundRobinFinal(rr), order) == Err(NoSuchElement)
  {
    RP.IsTieIff(rr);
  }

  /** A final built around a predetermined pairing exists only when the pairing shares nobody
   *  with `other`, and then it is valid and has started. */
  lemma PredeterminedIsValid<E>(other: Pairing<E>, winner: E, loser: E, advancedCount: nat)
    requires winner != loser
    ensures var r := Predetermined(other, winner, loser, advancedCount);
            r.Ok? ==> F.Valid(r.value) && PM.Finished(r.value.pairings) == {Pair(winner, loser)}
  {
    if advancedCount != 1 && advancedCount != 2 {
    } else if !Pairs.Contains(other, winner) && !Pairs.Contains(other, loser) {
      PredeterminedPlays(other, winner, loser, advancedCount);
    } else {
      var first := if advancedCount == 2 then other else Pair(winner, loser);
      var third := if advancedCount == 1 then other else Pair(winner, loser);
      assert !(Sides(first) !! Sides(third));
    }
  }

  /** The semi-finals whose next round starts with a pairing already decided: one level is
   *  down to a single entrant and the other still has two. */
  predicate PlaysAtOnce<E>(round: Round<E>) {
    && round.SemiFinal?
    && var a := |round.semi.round.results.advanced|;
       var l := |round.semi.round.results.eliminated|;
       (a == 2 && l == 1) || (a == 1 && l == 2)
  }

  lemma NextFromSplitIsValid<E>(s: SF.SemiFinal<E>, order: seq<E>)
    requires |s.round.results.advanced| <= 2 && |s.round.results.eliminated| <= 2
    requires |s.round.results.advanced| < 2 || |s.round.results.eliminated| < 2
    ensures var r := NextFromSplit(s, order);
            r.Ok? ==> Valid(r.value) && HasStarted(r.value) &&
                      (|s.round.results.advanced| == 1 || |s.round.results.eliminated| == 1)
  {
    var advanced := s.round.results.advanced;
    var eliminated := s.round.results.eliminated;
    var pair := if |advanced| == 2 then advanced else eliminated;
    var lone := if |advanced| == 1 then advanced else eliminated;
    var withTwo := Enumerate(order, pair);
    var withOne := Enumerate(order, lone);
    EnumerateCard(order, pair);
    EnumerateCard(order, lone);
    if |withTwo| >= 2 && |withOne| > 0 {
      var other := Pair(withTwo[0], withTwo[1]);
      var winner := withOne[0];
      var rest := Enumerate(order, PM.FinishedEntrants(s.round.pairings) - {other.first, other.second, winner});
      if |rest| > 0 {
        assert rest[0] in Elems(rest);
        PredeterminedIsValid(other, winner, rest[0], |advanced|);
        if |advanced| != 1 && |eliminated| != 1 {
          assert |advanced| != 2;
          assert pair == lone;
          assert withTwo == withOne;
          assert Pairs.Contains(other, winner);
        }
      }
    }
  }

  /** Every next round is valid, and it has started exactly when a semi-final had a level
   *  down to a single entrant. */
  lemma NextRoundIsValid<E>(round: Round<E>, order: seq<E>)
    ensures var r := CreateNextRound(round, order);
            r.Ok? ==> Valid(r.value) && (HasStarted(r.value) <==> PlaysAtOnce(round))
  {
    if IsFinished(round) {
      if round.RoundRobinFinal? && RR.IsTie(round.robin) {
        RematchIsValid(round.robin, order);
      } else if round.SemiFinal? {
        NextFromSemiFinalIsValid(round.semi, order);
      } else if round.Elimination? {
        EliminationNextIsValid(round.elimination, order);
      }
    }
  }

  lemma RematchIsValid<E>(rr: RR.RoundRobinFinal<E>, order: seq<E>)
    ensures var r := Rematch(rr, order);
            r.Ok? ==> Valid(r.value) && !HasStarted(r.value)
  {
    var es := Enumerate(order, rr.entrants);
    EnumerateCard(order, rr.entrants);
    if |es| >= 3 {
      RP.CreateIsValid(es[0], es[1], es[2]);
    }
  }

  lemma NextFromSemiFinalIsValid<E>(s: SF.SemiFinal<E>, order: seq<E>)
    ensures var r := NextFromSemiFinal(s, order);
            r.Ok? ==> Valid(r.value) && (HasStarted(r.value) <==> PlaysAtOnce(SemiFinal(s)))
  {
    var a := |s.round.results.advanced|;
    var l := |s.round.results.eliminated|;
    if a <= 2 && l <= 2 && !(a == 2 && l == 2) && !(a <= 1 && l <= 1) {
      NextFromSplitIsValid(s, order);
    }
  }

  lemma EliminationNextIsValid<E>(d: DE.DynamicElimination<E>, order: seq<E>)
    ensures var r := NextFromElimination(d, order);
            r.Ok? ==> Valid(r.value) && !HasStarted(r.value)
  {
    var advanced := d.results.advanced;
    var es := Enumerate(order, advanced);
    EnumerateCard(order, advanced);
    if |advanced| > 4 {
      DP.FromSeqIsValid(es);
      assert NextFromElimination(d, order) == Ok(Elimination(DE.FromSeq(es)));
    } else if |advanced| == 3 && |es| >= 3 {
      RP.CreateIsValid(es[0], es[1], es[2]);
    }
  }

  /** A semi-final whose two winners both left has no next round, even with both losers
   *  there: the lone entrant is looked for among the losers, who already make up the other
   *  pairing. */
  lemma NoWinnerLeftFails<E>(s: SF.SemiFinal<E>, order: seq<E>)
    requires |s.round.results.advanced| == 0 && |s.round.results.eliminated| == 2
    ensures NextFromSemiFinal(s, order).Err?
  {
    NextFromSplitIsValid(s, order);
  }
}
