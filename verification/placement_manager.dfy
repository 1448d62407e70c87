/** `PlacementManager`: a placement per entrant (TBD unless set) and, for FIRST, SECOND and
 *  THIRD, the reverse lookup from placement to entrant. */
module PlacementManagers {
  import opened Wrappers
  import opened Errors
  import opened Placements

  const DefaultPlacement: Placement := Tbd

  datatype PlacementManager<E> = PlacementManager(placements: map<E, Placement>, winners: map<Placement, E>)

  /** The reverse lookup only names entrants that hold the placement they are filed under,
   *  which is what "the entrant with this placement or null" asks of it. */
  ghost predicate Sound<E>(m: PlacementManager<E>) {
    forall p :: p in m.winners ==> GetPlacement(m, m.winners[p]) == p
  }

  function Empty<E>(): (m: PlacementManager<E>)
    ensures Sound(m)
  {
    PlacementManager(map[], map[])
  }

  /** `getPlacement`: the stored placement, TBD for an entrant never placed. */
  function GetPlacement<E>(m: PlacementManager<E>, e: E): (p: Placement)
    ensures e !in m.placements ==> p == DefaultPlacement
  {
    if e in m.placements then m.placements[e] else DefaultPlacement
  }

  /** `getEntrantByPlacement`: `IllegalArgumentException` for NONE and TBD, otherwise the
   *  entrant filed under the placement, or null. */
  function GetEntrantByPlacement<E>(m: PlacementManager<E>, p: Placement): (r: Result<Option<E>, Error>)
    ensures r.Err? <==> !IsRanked(p)
    ensures r.Err? ==> r.error == IllegalArgument
    ensures Sound(m) && r.Ok? && r.value.Some? ==> GetPlacement(m, r.value.value) == p
  {
    if !IsRanked(p) then Err(IllegalArgument)
    else if p in m.winners then Ok(Some(m.winners[p]))
    else Ok(None)
  }

  /** `setPlacement` as the source writes it: it files `e` under a ranked placement but never
   *  takes `e` out of the slot of the placement it had before. */
  function SetPlacementAsWritten<E>(m: PlacementManager<E>, e: E, p: Placement): (r: Step<PlacementManager<E>, Placement>)
    ensures r.value == GetPlacement(m, e) && GetPlacement(r.state, e) == p
    ensures r.state.placements - {e} == m.placements - {e}
    ensures IsRanked(p) ==> r.state.winners == m.winners[p := e]
    ensures !IsRanked(p) ==> r.state.winners == m.winners
    ensures forall q :: q in m.winners && q != p ==> q in r.state.winners && r.state.winners[q] == m.winners[q]
  {
    var placements := m.placements[e := p];
    var winners := if IsRanked(p) then m.winners[p := e] else m.winners;
    Step(PlacementManager(placements, winners), GetPlacement(m, e))
  }

  /** `setPlacement` with the entrant's old slot freed, which keeps the lookup `Sound`:
   *  returns the old placement and stores the new one, and a ranked placement names `e`. */
  function SetPlacement<E>(m: PlacementManager<E>, e: E, p: Placement): (r: Step<PlacementManager<E>, Placement>)
    ensures r.value == GetPlacement(m, e) && GetPlacement(r.state, e) == p
    ensures r.state.placements - {e} == m.placements - {e}
    ensures IsRanked(p) ==> GetEntrantByPlacement(r.state, p) == Ok(Some(e))
    ensures Sound(m) ==> Sound(r.state)
  {
    var previous := GetPlacement(m, e);
    var freed := if previous in m.winners && m.winners[previous] == e then m.winners - {previous} else m.winners;
    var placements := m.placements[e := p];
    var winners := if IsRanked(p) then freed[p := e] else freed;
    Step(PlacementManager(placements, winners), previous)
  }

  /** `resetPlacement`: returns the old placement, the entrant is TBD again, and the slot of
   *  the old placement is emptied. */
  function ResetPlacement<E>(m: PlacementManager<E>, e: E): (r: Step<PlacementManager<E>, Placement>)
    ensures r.value == GetPlacement(m, e) && GetPlacement(r.state, e) == DefaultPlacement
    ensures e in m.placements ==> m.placements[e] !in r.state.winners
    ensures r.state.placements == m.placements - {e}
    ensures Sound(m) ==> Sound(r.state)
  {
    var winners := if e in m.placements then m.winners - {m.placements[e]} else m.winners;
    Step(PlacementManager(m.placements - {e}, winners), GetPlacement(m, e))
  }

  /** Setting an entrant to FIRST and then to TBD leaves it filed under FIRST, so the lookup
   *  names an entrant whose placement is TBD. */
  lemma SetPlacementAsWrittenKeepsStaleSlot<E>(e: E)
    ensures var m := SetPlacementAsWritten(SetPlacementAsWritten(Empty(), e, First).state, e, Tbd).state;
            GetEntrantByPlacement(m, First) == Ok(Some(e)) && GetPlacement(m, e) == Tbd && !Sound(m)
  {
  }

  /** With the old slot freed, the same calls leave FIRST unoccupied. */
  lemma SetPlacementFreesOldSlot<E>(e: E)
    ensures var m := SetPlacement(SetPlacement(Empty(), e, First).state, e, Tbd).state;
            GetEntrantByPlacement(m, First) == Ok(None)
  {
  }
}
