/** `ScoreManager`: an integer score per entrant, 0 unless set. */
module ScoreManagers {
  import opened Wrappers

  const MinScore: int := 0
  const DefaultScore: int := MinScore

  datatype ScoreManager<E> = ScoreManager(scores: map<E, int>)

  function Empty<E>(): ScoreManager<E> {
    ScoreManager(map[])
  }

  /** `getScore`: the stored score, or the default for an entrant never scored. */
  function GetScore<E>(m: ScoreManager<E>, e: E): (v: int)
    ensures e !in m.scores ==> v == DefaultScore
  {
    if e in m.scores then m.scores[e] else DefaultScore
  }

  /** `add`: an explicit entry with the default score. */
  function Add<E>(m: ScoreManager<E>, e: E): (s: ScoreManager<E>)
    ensures GetScore(s, e) == DefaultScore && e in s.scores
    ensures s.scores - {e} == m.scores - {e}
  {
    ScoreManager(m.scores[e := DefaultScore])
  }

  /** `addScore`: stores and returns the old score plus `value`. */
  function AddScore<E>(m: ScoreManager<E>, e: E, value: int): (r: Step<ScoreManager<E>, int>)
    ensures r.value == GetScore(m, e) + value && GetScore(r.state, e) == r.value
    ensures r.state.scores - {e} == m.scores - {e}
  {
    var score := GetScore(m, e) + value;
    Step(ScoreManager(m.scores[e := score]), score)
  }

  /** `incrementScore`: the new score, one more than the old. */
  function IncrementScore<E>(m: ScoreManager<E>, e: E): (r: Step<ScoreManager<E>, int>)
    ensures r.value == GetScore(m, e) + 1 && GetScore(r.state, e) == r.value
    ensures r.state.scores - {e} == m.scores - {e}
  {
    AddScore(m, e, 1)
  }

  /** `decrementScore`: the new score, one less than the old; it may go below 0. */
  function DecrementScore<E>(m: ScoreManager<E>, e: E): (r: Step<ScoreManager<E>, int>)
    ensures r.value == GetScore(m, e) - 1 && GetScore(r.state, e) == r.value
    ensures r.state.scores - {e} == m.scores - {e}
  {
    AddScore(m, e, -1)
  }

  /** `resetScore`: returns the old score; afterwards the score is the default again. */
  function ResetScore<E>(m: ScoreManager<E>, e: E): (r: Step<ScoreManager<E>, int>)
    ensures r.value == GetScore(m, e) && GetScore(r.state, e) == DefaultScore
    ensures r.state.scores == m.scores - {e}
  {
    Step(ScoreManager(m.scores - {e}), GetScore(m, e))
  }

  /** Incrementing and then decrementing gives back the score. */
  lemma IncrementThenDecrement<E>(m: ScoreManager<E>, e: E, x: E)
    ensures GetScore(DecrementScore(IncrementScore(m, e).state, e).state, x) == GetScore(m, x)
  {
  }

  /** Changing the score of `e` leaves every other entrant's score as it was. */
  lemma OthersUnchanged<E>(m: ScoreManager<E>, e: E, x: E, value: int)
    requires x != e
    ensures GetScore(AddScore(m, e, value).state, x) == GetScore(m, x)
    ensures GetScore(ResetScore(m, e).state, x) == GetScore(m, x)
  {
  }
}
