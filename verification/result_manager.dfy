/** `ResultManager`: which entrants advanced and which were eliminated. */
module ResultManagers {

  datatype ResultManager<E> = ResultManager(advanced: set<E>, eliminated: set<E>)

  /** No entrant is both advanced and eliminated. */
  ghost predicate Valid<E>(r: ResultManager<E>) {
    r.advanced !! r.eliminated
  }

  function Empty<E>(): (r: ResultManager<E>)
    ensures Valid(r) && r.advanced == {} && r.eliminated == {}
  {
    ResultManager({}, {})
  }

  predicate IsAdvanced<E>(r: ResultManager<E>, e: E) {
    e in r.advanced
  }

  predicate IsEliminated<E>(r: ResultManager<E>, e: E) {
    e in r.eliminated
  }

  /** `contains`: advanced or eliminated. */
  predicate Contains<E>(r: ResultManager<E>, e: E) {
    IsAdvanced(r, e) || IsEliminated(r, e)
  }

  /** `advance`: `e` ends up advanced and not eliminated; nobody else changes. The source
   *  asserts that `e` was not eliminated; callers are shown to respect that. */
  function Advance<E>(r: ResultManager<E>, e: E): (s: ResultManager<E>)
    ensures IsAdvanced(s, e) && !IsEliminated(s, e)
    ensures s.advanced - {e} == r.advanced - {e} && s.eliminated - {e} == r.eliminated - {e}
    ensures Valid(r) ==> Valid(s)
  {
    var cleared := Reset(r, e);
    ResultManager(cleared.advanced + {e}, cleared.eliminated)
  }

  /** `eliminate`: `e` ends up eliminated and not advanced; nobody else changes. */
  function Eliminate<E>(r: ResultManager<E>, e: E): (s: ResultManager<E>)
    ensures IsEliminated(s, e) && !IsAdvanced(s, e)
    ensures s.advanced - {e} == r.advanced - {e} && s.eliminated - {e} == r.eliminated - {e}
    ensures Valid(r) ==> Valid(s)
  {
    var cleared := Reset(r, e);
    ResultManager(cleared.advanced, cleared.eliminated + {e})
  }

  /** `reset`: `e` is neither advanced nor eliminated; nobody else changes. */
  function Reset<E>(r: ResultManager<E>, e: E): (s: ResultManager<E>)
    ensures !Contains(s, e)
    ensures s.advanced - {e} == r.advanced - {e} && s.eliminated - {e} == r.eliminated - {e}
    ensures Valid(r) ==> Valid(s)
  {
    ResultManager(r.advanced - {e}, r.eliminated - {e})
  }

  /** The two managers after `moveTo`, and its answer. */
  datatype Transfer<E> = Transfer(moved: bool, source: ResultManager<E>, target: ResultManager<E>)

  /** `moveTo`: an unclassified entrant is not moved and neither manager changes; otherwise
   *  the target gets the entrant's classification and the source forgets it. */
  function MoveTo<E>(source: ResultManager<E>, target: ResultManager<E>, e: E): (t: Transfer<E>)
    ensures t.moved <==> Contains(source, e)
    ensures !t.moved ==> t.source == source && t.target == target
    ensures t.moved ==> !Contains(t.source, e)
    ensures t.moved ==> (IsAdvanced(t.target, e) <==> IsAdvanced(source, e))
    ensures t.moved ==> Contains(t.target, e)
    ensures Valid(source) && t.moved ==> (IsEliminated(t.target, e) <==> IsEliminated(source, e))
    ensures t.source.advanced - {e} == source.advanced - {e} && t.source.eliminated - {e} == source.eliminated - {e}
    ensures t.target.advanced - {e} == target.advanced - {e} && t.target.eliminated - {e} == target.eliminated - {e}
    ensures Valid(source) ==> Valid(t.source)
    ensures Valid(target) ==> Valid(t.target)
  {
    if !Contains(source, e) then Transfer(false, source, target)
    else if IsAdvanced(source, e) then Transfer(true, Reset(source, e), Advance(target, e))
    else Transfer(true, Reset(source, e), Eliminate(target, e))
  }

  /** Moving a result there and back restores both managers' view of the entrant. */
  lemma MoveToAndBack<E>(a: ResultManager<E>, b: ResultManager<E>, e: E)
    requires Valid(a) && Contains(a, e)
    ensures var t := MoveTo(a, b, e);
            var u := MoveTo(t.target, t.source, e);
            u.moved && (IsAdvanced(u.target, e) <==> IsAdvanced(a, e)) &&
            (IsEliminated(u.target, e) <==> IsEliminated(a, e)) && !Contains(u.source, e)
  {
  }
}
