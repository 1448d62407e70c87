/** `RoundRobinFinal`: three entrants play each other once and a win scores a point. An
 *  entrant who leaves forfeits the pairings still to be played, and coming back takes those
 *  forfeits back. The placements follow from the scores: two wins are first place; once the
 *  round is over, one win each is a tie and otherwise one, two and zero wins are second,
 *  first and third place. */
module RoundRobinFinals {
  import opened Wrappers
  import opened Errors
  import opened Seqs
  import opened Pairs
  import opened Placements
  import PM = PairingManagers
  import SM = ScoreManagers
  import SS = ShuffledSets

  /** `ENTRANT_COUNT`, `MIN_SCORE` and `MAX_SCORE`. */
  const EntrantCount: nat := 3
  const MinScore: int := 0
  const MaxScore: int := 2

  /** The constructor's three entrants, in argument order. */
  datatype Trio<E> = Trio(a: E, b: E, c: E)

  /** `trio` with the pairings it determines stands for `originalPairings`; `winners` is
   *  `pairingWinners`. `forfeits` records, for each pairing retired because an entrant left,
   *  the opponent who was given the point; the source keeps no such record, and the
   *  operations that model it as written leave it untouched. */
  datatype RoundRobinFinal<E> = RoundRobinFinal(
    trio: Trio<E>,
    entrants: set<E>,
    outstanding: SS.ShuffledSet<Pairing<E>>,
    winners: map<Pairing<E>, E>,
    forfeits: map<Pairing<E>, E>,
    pairings: PM.PairingManager<E>,
    scores: SM.ScoreManager<E>)

  function Members<E(==)>(t: Trio<E>): set<E> {
    {t.a, t.b, t.c}
  }

  predicate Distinct3<E(==)>(t: Trio<E>) {
    t.a != t.b && t.a != t.c && t.b != t.c
  }

  /** The first, second and third original pairing. */
  function P0<E>(t: Trio<E>): Pairing<E> { Pair(t.a, t.b) }
  function P1<E>(t: Trio<E>): Pairing<E> { Pair(t.a, t.c) }
  function P2<E>(t: Trio<E>): Pairing<E> { Pair(t.b, t.c) }

  /** `originalPairings.elements()`: the three pairings, without repeats. */
  function Original<E(==)>(t: Trio<E>): set<Pairing<E>> {
    {P0(t), P1(t), P2(t)}
  }

  /** The original pairings in a fixed order, each once: the model's enumeration of the
   *  pairing sets the source iterates over. Every loop it drives only adds to scores and
   *  removes from (or adds to) a set, so the order does not matter. */
  function Schedule<E(==)>(t: Trio<E>): (ps: seq<Pairing<E>>)
    ensures Elems(ps) == Original(t) && Distinct(ps)
    ensures Distinct3(t) ==> ps == [P0(t), P1(t), P2(t)]
  {
    var first := [P0(t)];
    var second := if P1(t) != P0(t) then [P1(t)] else [];
    var third := if P2(t) != P0(t) && P2(t) != P1(t) then [P2(t)] else [];
    assert Elems(first + second + third) == Original(t) by {
      assert Elems(first + second + third) == Elems(first) + Elems(second) + Elems(third);
    }
    first + second + third
  }

  function Score<E>(r: RoundRobinFinal<E>, e: E): int {
    SM.GetScore(r.scores, e)
  }

  /** `originalPairings.findByElement`: the original pairings of `e`. */
  function PairsOf<E>(r: RoundRobinFinal<E>, e: E): (ps: set<Pairing<E>>)
    ensures ps <= Original(r.trio)
  {
    set p | p in Original(r.trio) && Contains(p, e)
  }

  /** `getUnfinishedPairingsByEntrant`: the original pairings of `e` that are not finished. */
  function Unfinished<E>(r: RoundRobinFinal<E>, e: E): (ps: set<Pairing<E>>)
    ensures ps <= PairsOf(r, e) && ps !! PM.Finished(r.pairings)
    ensures forall p :: p in PairsOf(r, e) && !PM.IsFinished(r.pairings, p) ==> p in ps
  {
    PairsOf(r, e) - PM.Finished(r.pairings)
  }

  /** `isFinished`: nothing outstanding and nothing active. */
  predicate IsFinished<E>(r: RoundRobinFinal<E>) {
    r.outstanding.elements == {} && !PM.HasActive(r.pairings)
  }

  /** The constructor: the three entrants, the three pairings outstanding, no scores. */
  function Create<E>(a: E, b: E, c: E): (r: RoundRobinFinal<E>)
    ensures r.trio == Trio(a, b, c) && r.entrants == {a, b, c}
    ensures r.outstanding.elements == {Pair(a, b), Pair(a, c), Pair(b, c)} && SS.Valid(r.outstanding)
    ensures PM.Active(r.pairings) == {} && PM.Finished(r.pairings) == {} && PM.Valid(r.pairings)
    ensures r.winners == map[] && r.forfeits == map[] && r.scores.scores == map[]
    ensures !IsFinished(r)
  {
    var t := Trio(a, b, c);
    var r := RoundRobinFinal(t, {a, b, c}, SS.FromSeq(Schedule(t)), map[], map[], PM.Empty(), SM.Empty());
    assert P0(t) in r.outstanding.elements;
    r
  }

  /** The loop of `removeEntrant`: for each of `ps`, the opponent of `e` gets a point and the
   *  pairing is no longer outstanding. */
  function Retire<E>(scores: SM.ScoreManager<E>, outstanding: SS.ShuffledSet<Pairing<E>>, ps: seq<Pairing<E>>, e: E)
    : (r: (SM.ScoreManager<E>, SS.ShuffledSet<Pairing<E>>))
    ensures r.1.elements == outstanding.elements - Elems(ps)
    ensures SS.Valid(outstanding) ==> SS.Valid(r.1)
    decreases |ps|
  {
    if |ps| == 0 then (scores, outstanding)
    else
      ElemsSplit(ps);
      Retire(SM.IncrementScore(scores, Other(ps[0], e)).state, SS.Remove(outstanding, ps[0]).state, ps[1..], e)
  }

  /** The loop of `addEntrant`: for each of `ps`, the opponent of `e` loses a point and the
   *  pairing is outstanding again. */
  function Restore<E>(scores: SM.ScoreManager<E>, outstanding: SS.ShuffledSet<Pairing<E>>, ps: seq<Pairing<E>>, e: E)
    : (r: (SM.ScoreManager<E>, SS.ShuffledSet<Pairing<E>>))
    ensures r.1.elements == outstanding.elements + Elems(ps)
    ensures SS.Valid(outstanding) ==> SS.Valid(r.1)
    decreases |ps|
  {
    if |ps| == 0 then (scores, outstanding)
    else
      ElemsSplit(ps);
      Restore(SM.DecrementScore(scores, Other(ps[0], e)).state, SS.Add(outstanding, ps[0]).state, ps[1..], e)
  }

  /** How many of `ps` have `x` as the opponent of `e`: the points `Retire` gives `x`. */
  function Tally<E(==)>(ps: seq<Pairing<E>>, e: E, x: E): nat {
    if |ps| == 0 then 0
    else (if Other(ps[0], e) == x then 1 else 0) + Tally(ps[1..], e, x)
  }

  /** `removeEntrant` as the source writes it: the entrant's active pairing is cancelled, and
   *  every original pairing of the entrant that is not finished gives the opponent a point,
   *  including a pairing retired earlier because the opponent left. */
  function RemoveEntrantAsWritten<E>(r: RoundRobinFinal<E>, e: E): (res: Result<Step<RoundRobinFinal<E>, bool>, Error>)
    ensures res.Ok? && (res.value.value <==> e in r.entrants)
    ensures !res.value.value ==> res.value.state == r
    ensures res.value.value ==>
              res.value.state.entrants == r.entrants - {e} &&
              res.value.state.outstanding.elements == r.outstanding.elements - Unfinished(r, e) &&
              res.value.state.winners == r.winners && res.value.state.forfeits == r.forfeits &&
              PM.Finished(res.value.state.pairings) == PM.Finished(r.pairings)
  {
    if e !in r.entrants then Ok(Step(r, false))
    else
      var cancelled := PM.RemoveActiveByEntrant(r.pairings, e);
      var r1 := r.(pairings := cancelled.state);
      var ps := Filter(Schedule(r.trio), Unfinished(r1, e));
      var retired := Retire(r.scores, r.outstanding, ps, e);
      Ok(Step(r1.(entrants := r.entrants - {e}, outstanding := retired.1, scores := retired.0), true))
  }

  /** `addEntrant` as the source writes it: every original pairing of the entrant that is not
   *  finished is outstanding again and the opponent loses a point, whether or not the
   *  opponent is still in the round and whoever got that point. */
  function AddEntrantAsWritten<E>(r: RoundRobinFinal<E>, e: E): (res: Result<Step<RoundRobinFinal<E>, bool>, Error>)
    ensures res.Err? <==> e !in r.entrants && PairsOf(r, e) == {}
    ensures res.Err? ==> res.error == NewEntrantsNotAllowed
    ensures res.Ok? ==> (res.value.value <==> e !in r.entrants)
    ensures res.Ok? && !res.value.value ==> res.value.state == r
    ensures res.Ok? && res.value.value ==>
              res.value.state.entrants == r.entrants + {e} &&
              res.value.state.outstanding.elements == r.outstanding.elements + Unfinished(r, e) &&
              res.value.state.pairings == r.pairings && res.value.state.forfeits == r.forfeits
  {
    if e in r.entrants then Ok(Step(r, false))
    else if PairsOf(r, e) == {} then Err(NewEntrantsNotAllowed)
    else
      var ps := Filter(Schedule(r.trio), Unfinished(r, e));
      var restored := Restore(r.scores, r.outstanding, ps, e);
      Ok(Step(r.(entrants := r.entrants + {e}, outstanding := restored.1, scores := restored.0), true))
  }

  /** The pairings `removeEntrant` forfeits: the entrant's pairings that are neither finished
   *  nor forfeited already. */
  function Forfeitable<E>(r: RoundRobinFinal<E>, e: E): (ps: set<Pairing<E>>)
    ensures ps <= Unfinished(r, e) && ps !! r.forfeits.Keys
  {
    Unfinished(r, e) - r.forfeits.Keys
  }

  /** The pairings `addEntrant` brings back into play: the entrant's forfeited pairings whose
   *  opponent is in the round, whichever of the two left first. */
  function Returning<E>(r: RoundRobinFinal<E>, e: E): (ps: set<Pairing<E>>)
    ensures ps <= Unfinished(r, e) && ps <= r.forfeits.Keys
    ensures forall p :: p in ps ==> Other(p, e) in r.entrants
  {
    set p | p in Unfinished(r, e) && p in r.forfeits && Other(p, e) in r.entrants
  }

  /** The loop of the corrected `addEntrant`: for each of `ps`, whoever holds its point in
   *  `holders` loses it and the pairing is outstanding again. */
  function Revoke<E>(scores: SM.ScoreManager<E>, outstanding: SS.ShuffledSet<Pairing<E>>, ps: seq<Pairing<E>>,
                     holders: map<Pairing<E>, E>)
    : (r: (SM.ScoreManager<E>, SS.ShuffledSet<Pairing<E>>))
    ensures r.1.elements == outstanding.elements + Elems(ps)
    ensures SS.Valid(outstanding) ==> SS.Valid(r.1)
    decreases |ps|
  {
    if |ps| == 0 then (scores, outstanding)
    else
      ElemsSplit(ps);
      var next := if ps[0] in holders then SM.DecrementScore(scores, holders[ps[0]]).state else scores;
      Revoke(next, SS.Add(outstanding, ps[0]).state, ps[1..], holders)
  }

  /** How many of `ps` have `x` as their holder: the points `Revoke` takes from `x`. */
  function Owed<E(==)>(ps: seq<Pairing<E>>, holders: map<Pairing<E>, E>, x: E): nat {
    if |ps| == 0 then 0
    else (if ps[0] in holders && holders[ps[0]] == x then 1 else 0) + Owed(ps[1..], holders, x)
  }

  /** `removeEntrant`, corrected: a pairing that is already forfeited gives nobody another
   *  point, and each forfeit is recorded with the opponent who got the point. */
  function RemoveEntrant<E>(r: RoundRobinFinal<E>, e: E): (res: Result<Step<RoundRobinFinal<E>, bool>, Error>)
    ensures res.Ok? && (res.value.value <==> e in r.entrants)
    ensures !res.value.value ==> res.value.state == r
    ensures res.value.value ==>
              res.value.state.entrants == r.entrants - {e} &&
              res.value.state.outstanding.elements == r.outstanding.elements - Forfeitable(r, e) &&
              res.value.state.winners == r.winners &&
              res.value.state.forfeits == r.forfeits + (map p | p in Forfeitable(r, e) :: Other(p, e)) &&
              PM.Finished(res.value.state.pairings) == PM.Finished(r.pairings)
    ensures res.value.state.trio == r.trio
  {
    if e !in r.entrants then Ok(Step(r, false))
    else
      var cancelled := PM.RemoveActiveByEntrant(r.pairings, e);
      var chosen := Forfeitable(r, e);
      var ps := Filter(Schedule(r.trio), chosen);
      var retired := Retire(r.scores, r.outstanding, ps, e);
      var forfeits := r.forfeits + map p | p in chosen :: Other(p, e);
      Ok(Step(r.(entrants := r.entrants - {e}, outstanding := retired.1, forfeits := forfeits,
                 pairings := cancelled.state, scores := retired.0), true))
  }

  /** `addEntrant`, corrected: the entrant's forfeited pairings against an opponent still in
   *  the round are played after all, and whoever was given each of those points loses it. */
  function AddEntrant<E>(r: RoundRobinFinal<E>, e: E): (res: Result<Step<RoundRobinFinal<E>, bool>, Error>)
    ensures res.Err? <==> e !in r.entrants && PairsOf(r, e) == {}
    ensures res.Err? ==> res.error == NewEntrantsNotAllowed
    ensures res.Ok? ==> (res.value.value <==> e !in r.entrants)
    ensures res.Ok? && !res.value.value ==> res.value.state == r
    ensures res.Ok? && res.value.value ==>
              res.value.state.entrants == r.entrants + {e} &&
              res.value.state.outstanding.elements == r.outstanding.elements + Returning(r, e) &&
              res.value.state.forfeits == r.forfeits - Returning(r, e) &&
              res.value.state.pairings == r.pairings && res.value.state.winners == r.winners
    ensures res.Ok? ==> res.value.state.trio == r.trio
  {
    if e in r.entrants then Ok(Step(r, false))
    else if PairsOf(r, e) == {} then Err(NewEntrantsNotAllowed)
    else
      var chosen := Returning(r, e);
      var ps := Filter(Schedule(r.trio), chosen);
      var restored := Revoke(r.scores, r.outstanding, ps, r.forfeits);
      Ok(Step(r.(entrants := r.entrants + {e}, outstanding := restored.1, forfeits := r.forfeits - chosen,
                 scores := restored.0), true))
  }

  /** `nextPairing`: `NoMorePairingsException` once finished, `UnfinishedPairingsException`
   *  while a pairing is active, and otherwise a random outstanding pairing becomes active.
   *  An empty draw (`EmptySetException`) is a `Fault`. */
  function NextPairing<E>(r: RoundRobinFinal<E>, rng: nat -> nat): (res: Result<Step<RoundRobinFinal<E>, Pairing<E>>, Error>)
    ensures IsFinished(r) ==> res == Err(NoMorePairings)
    ensures !IsFinished(r) && PM.HasActive(r.pairings) ==> res == Err(UnfinishedPairings)
    ensures res.Ok? ==> res.value.state.outstanding.elements == r.outstanding.elements - {res.value.value}
    ensures res.Ok? && SS.Valid(r.outstanding) ==> res.value.value in r.outstanding.elements
    ensures res.Ok? ==> res.value.state.entrants == r.entrants && res.value.state.scores == r.scores &&
                        res.value.state.winners == r.winners && res.value.state.forfeits == r.forfeits
    ensures res.Ok? && !PM.IsFinished(r.pairings, res.value.value) ==>
              PM.Active(res.value.state.pairings) == PM.Active(r.pairings) + {res.value.value} &&
              res.value.state.pairings.finished == r.pairings.finished
    ensures res.Ok? ==> res.value.state.trio == r.trio
    ensures res.Ok? && SS.Valid(r.outstanding) ==> SS.Valid(res.value.state.outstanding)
    ensures res.Ok? && PM.Valid(r.pairings) ==> PM.Valid(res.value.state.pairings)
  {
    if IsFinished(r) then Err(NoMorePairings)
    else if PM.HasActive(r.pairings) then Err(UnfinishedPairings)
    else
      var drawn := SS.RemoveRandom(r.outstanding, rng);
      match drawn.value
      case None => Err(Fault)
      case Some(p) =>
        match PM.Add(r.pairings, p)
        case Err(x) => Err(x)
        case Ok(added) => Ok(Step(r.(outstanding := drawn.state, pairings := added.state), p))
  }

  /** `declareWinner(entrant, pairing)`: `IllegalArgumentException` when the entrant is not
   *  in the pairing, then `NoSuchEntrantException`, then `NoSuchPairingException` for a
   *  pairing that is not active; otherwise the pairing is finished, its winner recorded and
   *  the winner's score goes up by one. */
  function DeclareWinnerIn<E>(r: RoundRobinFinal<E>, w: E, p: Pairing<E>): (res: Result<RoundRobinFinal<E>, Error>)
    ensures !Contains(p, w) ==> res == Err(IllegalArgument)
    ensures Contains(p, w) && w !in r.entrants ==> res == Err(NoSuchEntrant)
    ensures Contains(p, w) && w in r.entrants && !PM.IsActive(r.pairings, p) ==> res == Err(NoSuchPairing)
    ensures res.Ok? <==> Contains(p, w) && w in r.entrants && PM.IsActive(r.pairings, p)
    ensures res.Ok? ==> PM.Finished(res.value.pairings) == PM.Finished(r.pairings) + {p}
    ensures res.Ok? && !PM.IsFinished(r.pairings, p) ==> PM.Active(res.value.pairings) == PM.Active(r.pairings) - {p}
    ensures res.Ok? ==> res.value.winners == r.winners[p := w] && Score(res.value, w) == Score(r, w) + 1 &&
                        res.value.scores.scores - {w} == r.scores.scores - {w}
    ensures res.Ok? ==> res.value.entrants == r.entrants && res.value.outstanding == r.outstanding &&
                        res.value.forfeits == r.forfeits && res.value.trio == r.trio
    ensures res.Ok? && PM.Valid(r.pairings) ==> PM.Valid(res.value.pairings)
  {
    if !Contains(p, w) then Err(IllegalArgument)
    else if w !in r.entrants then Err(NoSuchEntrant)
    else if !PM.IsActive(r.pairings, p) then Err(NoSuchPairing)
    else
      match PM.Finish(r.pairings, p)
      case Err(x) => Err(x)
      case Ok(finished) =>
        Ok(r.(pairings := finished.state, winners := r.winners[p := w], scores := SM.IncrementScore(r.scores, w).state))
  }

  /** `declareWinner(entrant)`: `NoSuchEntrantException`, then `MissingPairingException` when
   *  the entrant has no active pairing; otherwise the entrant wins that pairing. */
  function DeclareWinner<E>(r: RoundRobinFinal<E>, w: E): (res: Result<Step<RoundRobinFinal<E>, Pairing<E>>, Error>)
    ensures w !in r.entrants ==> res == Err(NoSuchEntrant)
    ensures w in r.entrants && !PM.HasActiveEntrant(r.pairings, w) ==> res == Err(MissingPairing)
    ensures res.Ok? ==> Some(res.value.value) == PM.FindActiveByEntrant(r.pairings, w) &&
                        Ok(res.value.state) == DeclareWinnerIn(r, w, res.value.value)
  {
    if w !in r.entrants then Err(NoSuchEntrant)
    else if !PM.HasActiveEntrant(r.pairings, w) then Err(MissingPairing)
    else
      var p := PM.FindActiveByEntrant(r.pairings, w).value;
      match DeclareWinnerIn(r, w, p)
      case Err(x) => Err(x)
      case Ok(decided) => Ok(Step(decided, p))
  }

  /** `replayPairing`: false for an active pairing; `NoSuchPairingException` for one that is
   *  not finished, `MissingEntrantException` when a side has left, `OrphanedPairingException`
   *  when a side is in another active pairing; otherwise the recorded winner loses the point
   *  and the pairing is active again. A finished pairing without a recorded winner fails the
   *  source's assertion that the pairing has one, and is `Fault`: only a broken round has such
   *  a pairing, and `ReplayPairingPreservesValid` shows a valid round never gets `Fault` here.
   *  The `assert false` that `getPlacement` ends with is different: a valid round reaches it,
   *  so `GetPlacementAsWritten` returns the `TBD` the source goes on to return. */
  function ReplayPairing<E>(r: RoundRobinFinal<E>, p: Pairing<E>): (res: Result<Step<RoundRobinFinal<E>, bool>, Error>)
    ensures PM.IsActive(r.pairings, p) ==> res == Ok(Step(r, false))
    ensures !PM.IsActive(r.pairings, p) && !PM.IsFinished(r.pairings, p) ==> res == Err(NoSuchPairing)
    ensures !PM.IsActive(r.pairings, p) && PM.IsFinished(r.pairings, p) && !(Sides(p) <= r.entrants) ==>
              res == Err(MissingEntrant)
    ensures PM.IsFinished(r.pairings, p) && Sides(p) <= r.entrants && !PM.IsActive(r.pairings, p) &&
            (PM.HasActiveEntrant(r.pairings, p.first) || PM.HasActiveEntrant(r.pairings, p.second)) ==>
              res == Err(OrphanedPairing)
    ensures res.Ok? && res.value.value ==>
              p in r.winners && res.value.state.winners == r.winners - {p} &&
              Score(res.value.state, r.winners[p]) == Score(r, r.winners[p]) - 1 &&
              res.value.state.scores.scores - {r.winners[p]} == r.scores.scores - {r.winners[p]} &&
              PM.IsActive(res.value.state.pairings, p) && !PM.IsFinished(res.value.state.pairings, p)
    ensures res.Ok? ==> res.value.state.entrants == r.entrants && res.value.state.outstanding == r.outstanding &&
                        res.value.state.forfeits == r.forfeits && res.value.state.trio == r.trio
    ensures res.Ok? && res.value.value && PM.Valid(r.pairings) ==>
              PM.Valid(res.value.state.pairings) &&
              PM.Active(res.value.state.pairings) == PM.Active(r.pairings) + {p} &&
              PM.Finished(res.value.state.pairings) == PM.Finished(r.pairings) - {p}
  {
    if PM.IsActive(r.pairings, p) then Ok(Step(r, false))
    else if !PM.IsFinished(r.pairings, p) then Err(NoSuchPairing)
    else if p.first !in r.entrants || p.second !in r.entrants then Err(MissingEntrant)
    else if PM.HasActiveEntrant(r.pairings, p.first) || PM.HasActiveEntrant(r.pairings, p.second) then Err(OrphanedPairing)
    else if p !in r.winners then Err(Fault)
    else
      var scores := SM.DecrementScore(r.scores, r.winners[p]).state;
      var removed := PM.RemoveFinished(r.pairings, p);
      match PM.Add(removed.state, p)
      case Err(x) => Err(x)
      case Ok(added) =>
        if !added.value then Err(Fault)
        else Ok(Step(r.(winners := r.winners - {p}, pairings := added.state, scores := scores), true))
  }

  /** The unsupported operations: `resetEntrant`, `declareTie`, `hasWon` and `hasLost`. */
  function ResetEntrant<E>(r: RoundRobinFinal<E>, e: E): (res: Result<bool, Error>)
    ensures res == Err(Unsupported)
  {
    Err(Unsupported)
  }

  function DeclareTie<E>(r: RoundRobinFinal<E>, p: Pairing<E>): (res: Result<RoundRobinFinal<E>, Error>)
    ensures res == Err(Unsupported)
  {
    Err(Unsupported)
  }

  function HasWon<E>(r: RoundRobinFinal<E>, e: E): (res: Result<bool, Error>)
    ensures res == Err(Unsupported)
  {
    Err(Unsupported)
  }

  function HasLost<E>(r: RoundRobinFinal<E>, e: E): (res: Result<bool, Error>)
    ensures res == Err(Unsupported)
  {
    Err(Unsupported)
  }

  /** The end of `getPlacement`, for a finished round and a score `s` below two, comparing
   *  with the scores of `others`: one win each is no placement, one win between a player
   *  without a win and a player with two is second place, no win is third place, and any
   *  other case is the unreachable-by-design TBD. */
  function Rank<E>(r: RoundRobinFinal<E>, s: int, others: set<E>): Placement {
    var withOne := |set o | o in others && Score(r, o) == 1|;
    var hasZero := exists o :: o in others && Score(r, o) == 0;
    var hasTwo := exists o :: o in others && Score(r, o) == 2;
    if s == 1 && withOne == 2 then NoPlacement
    else if s == 1 && hasZero && hasTwo then Second
    else if s == 0 then Third
    else Tbd
  }

  /** `getPlacement` as the source writes it: the comparison is with the entrants still in
   *  the round, so an entrant who left takes their score with them. */
  function GetPlacementAsWritten<E>(r: RoundRobinFinal<E>, e: E): (p: Placement)
    ensures Score(r, e) == MaxScore ==> p == First
    ensures Score(r, e) != MaxScore && !IsFinished(r) ==> p == Tbd
  {
    var s := Score(r, e);
    if s == MaxScore then First
    else if !IsFinished(r) then Tbd
    else Rank(r, s, r.entrants - {e})
  }

  /** `getPlacement`, corrected: the comparison is with the other original entrants, whose
   *  scores stand whether or not they are still in the round. */
  function GetPlacement<E>(r: RoundRobinFinal<E>, e: E): (p: Placement)
    ensures Score(r, e) == MaxScore ==> p == First
    ensures Score(r, e) != MaxScore && !IsFinished(r) ==> p == Tbd
    ensures IsFinished(r) && Score(r, e) == 0 ==> p == Third
  {
    var s := Score(r, e);
    if s == MaxScore then First
    else if !IsFinished(r) then Tbd
    else Rank(r, s, Members(r.trio) - {e})
  }

  /** `isTie`: finished, and no entrant has a placement. It ranks with `getPlacement` as the
   *  source writes it, against the entrants still present, and that is what makes a round
   *  that lost an entrant no tie: the corrected ranking would call a one-win-each round of
   *  two a tie, and the rematch of `createNextRound` needs three entrants. */
  predicate IsTie<E>(r: RoundRobinFinal<E>) {
    IsFinished(r) && forall e :: e in r.entrants ==> GetPlacementAsWritten(r, e) == NoPlacement
  }

  /** `hasEntrantResult`: the entrant won or lost one of their original pairings. */
  predicate HasEntrantResult<E>(r: RoundRobinFinal<E>, e: E) {
    exists p :: p in PairsOf(r, e) && p in r.winners
  }

  /** `hasStateAbout`: `e` is one of the three. */
  predicate HasStateAbout<E>(r: RoundRobinFinal<E>, e: E) {
    PairsOf(r, e) != {}
  }

  /** `hasEntrant`. */
  predicate HasEntrant<E>(r: RoundRobinFinal<E>, e: E) {
    e in r.entrants
  }

  /** `isEntrantPaired`. */
  predicate IsEntrantPaired<E>(r: RoundRobinFinal<E>, e: E) {
    PM.HasActiveEntrant(r.pairings, e)
  }

  // Invariant

  /** The pairing's point: its recorded winner, or the opponent who was given it when an
   *  entrant left, or nobody while it is outstanding or active. */
  function Credit<E>(r: RoundRobinFinal<E>, p: Pairing<E>): Option<E> {
    if p in r.winners then Some(r.winners[p])
    else if p in r.forfeits then Some(r.forfeits[p])
    else None
  }

  function Point<E>(r: RoundRobinFinal<E>, p: Pairing<E>, x: E): nat {
    if Credit(r, p) == Some(x) then 1 else 0
  }

  /** The points `x` holds over the three original pairings. */
  function Points<E>(r: RoundRobinFinal<E>, x: E): nat {
    Point(r, P0(r.trio), x) + Point(r, P1(r.trio), x) + Point(r, P2(r.trio), x)
  }

  /** Outstanding or active. */
  function Live<E>(r: RoundRobinFinal<E>): set<Pairing<E>> {
    r.outstanding.elements + PM.Active(r.pairings)
  }

  /** Every original pairing is in exactly one state: outstanding, active, finished with a
   *  recorded winner from the pairing, or forfeited to a side of the pairing. */
  ghost predicate Statuses<E>(r: RoundRobinFinal<E>) {
    && SS.Valid(r.outstanding) && PM.Valid(r.pairings)
    && r.outstanding.elements !! PM.Active(r.pairings)
    && r.winners.Keys == PM.Finished(r.pairings)
    && r.winners.Keys !! r.forfeits.Keys
    && Live(r) !! r.winners.Keys && Live(r) !! r.forfeits.Keys
    && Live(r) + r.winners.Keys + r.forfeits.Keys == Original(r.trio)
    && (forall p :: p in r.winners ==> Contains(p, r.winners[p]))
    && (forall p :: p in r.forfeits ==> Contains(p, r.forfeits[p]))
  }

  /** Both sides of every outstanding or active pairing are in the round, and a side of every
   *  forfeited pairing is not. */
  ghost predicate Seated<E>(r: RoundRobinFinal<E>) {
    && (forall p :: p in Live(r) ==> Sides(p) <= r.entrants)
    && (forall p :: p in r.forfeits ==> !(Sides(p) <= r.entrants))
  }

  /** Only the three have scores, and each score is the number of points held. */
  ghost predicate Ledger<E>(r: RoundRobinFinal<E>) {
    && r.scores.scores.Keys <= Members(r.trio)
    && forall x :: x in Members(r.trio) ==> Score(r, x) == Points(r, x)
  }

  ghost predicate Valid<E>(r: RoundRobinFinal<E>) {
    && Distinct3(r.trio)
    && r.entrants <= Members(r.trio)
    && Statuses(r) && Seated(r) && Ledger(r)
  }
}
