/** The `Placement` enumeration. */
module Placements {

  /** FIRST, SECOND, THIRD, NONE (no placement) and TBD (to be determined). */
  datatype Placement = First | Second | Third | NoPlacement | Tbd

  /** FIRST, SECOND and THIRD: the placements the reverse lookup keeps an entrant for. */
  predicate IsRanked(p: Placement) {
    p == First || p == Second || p == Third
  }

  function GetValue(p: Placement): (v: int)
    ensures IsRanked(p) <==> v >= 1
    ensures IsRanked(p) ==> v <= 3
    ensures p == NoPlacement <==> v == 0
    ensures p == Tbd <==> v == -1
    ensures p == First <==> v == 1
    ensures p == Second <==> v == 2
    ensures p == Third <==> v == 3
  {
    match p
    case First => 1
    case Second => 2
    case Third => 3
    case NoPlacement => 0
    case Tbd => -1
  }

  /** The title for a ranked placement, the constant's name otherwise. */
  function ToString(p: Placement): (s: string)
    ensures IsRanked(p) ==> |s| == 3 && s[0] == '0' + GetValue(p) as char
    ensures p == First ==> s == "1st"
    ensures p == Second ==> s == "2nd"
    ensures p == Third ==> s == "3rd"
    ensures !IsRanked(p) ==> s == (if p == NoPlacement then "NONE" else "TBD")
  {
    match p
    case First => "1st"
    case Second => "2nd"
    case Third => "3rd"
    case NoPlacement => "NONE"
    case Tbd => "TBD"
  }

  /** Distinct placements have distinct values, so the value identifies the placement. */
  lemma GetValueInjective(p: Placement, q: Placement)
    ensures GetValue(p) == GetValue(q) ==> p == q
  {
  }

  /** Distinct placements print differently, so the text identifies the placement. */
  lemma ToStringInjective(p: Placement, q: Placement)
    ensures ToString(p) == ToString(q) ==> p == q
  {
    if ToString(p) == ToString(q) {
      assert |ToString(p)| == |ToString(q)|;
      if IsRanked(p) && IsRanked(q) {
        assert ToString(p)[0] == ToString(q)[0];
        GetValueInjective(p, q);
      } else if !IsRanked(p) && !IsRanked(q) {
        assert ToString(p)[0] == ToString(q)[0];
      }
    }
  }
}
