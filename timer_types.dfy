/** The records the store keeps and returns. Seconds are natural numbers: every
    session length is `duration - timeRemaining` taken while the store's invariant
    guarantees `timeRemaining <= duration`. */
module TimerTypes {

  /** One finished or stopped study interval; never changed after it is logged. */
  datatype StudySession = StudySession(id: string, date: string, duration: nat, completed: bool, tag: string)

  /** Seconds studied on one calendar date (`YYYY-MM-DD`). */
  datatype DailyProgress = DailyProgress(date: string, totalSeconds: nat)

  /** Seconds and number of sessions logged under one subject tag. */
  datatype TagStats = TagStats(tag: string, totalSeconds: nat, sessionCount: nat)

  const UNTAGGED: string := "Untagged"

  /** `tag || 'Untagged'`: the label a session is recorded and counted under. */
  function TagLabel(tag: string): (r: string)
    ensures r != ""
    ensures tag != "" ==> r == tag
    ensures tag == "" ==> r == UNTAGGED
  {
    if tag == "" then UNTAGGED else tag
  }

  /** Seconds of all logged sessions together. */
  function SumDurations(sessions: seq<StudySession>): nat
  {
    if sessions == [] then 0
    else SumDurations(sessions[..|sessions| - 1]) + sessions[|sessions| - 1].duration
  }
}
