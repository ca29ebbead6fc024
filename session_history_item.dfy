/** One row of the history list. The locale-formatted date and time of the row
    come from the host and are passed in as text. */
module SessionHistoryItem {

  import opened Text
  import opened TimerStore
  import DailyProgressBar
  import TimerTypes

  /** `formatDuration`: whole minutes below an hour, otherwise hours with "h " and
      the leftover minutes with "m" only when there are any. */
  function FormatDuration(seconds: nat): (r: string)
    ensures seconds / 60 < 60 ==> r == NatToString(seconds / 60) + " min"
    ensures seconds / 60 >= 60 && seconds / 60 % 60 == 0 ==> r == NatToString(seconds / 60 / 60) + "h "
    ensures seconds / 60 >= 60 && seconds / 60 % 60 > 0 ==>
      r == NatToString(seconds / 60 / 60) + ("h " + (NatToString(seconds / 60 % 60) + "m"))
  {
    var mins := seconds / 60;
    if mins < 60 then NatToString(mins) + " min"
    else
      var hours := mins / 60;
      var remainingMins := mins % 60;
      NatToString(hours) + ("h " + if remainingMins > 0 then NatToString(remainingMins) + "m" else "")
  }

  /** From an hour on, a row reads exactly like the progress bar's text. */
  lemma FormatDurationAsProgress(seconds: nat)
    requires seconds >= 3600
    ensures FormatDuration(seconds) == DailyProgressBar.FormatProgress(seconds)
  {
    HoursAndMinutes(seconds);
  }

  /** The row tells apart exactly the durations that differ in whole minutes;
      seconds below a minute never show. */
  lemma FormatDurationShowsMinutes(s1: nat, s2: nat)
    ensures FormatDuration(s1) == FormatDuration(s2) <==> s1 / 60 == s2 / 60
  {
    var m1, m2 := s1 / 60, s2 / 60;
    if FormatDuration(s1) == FormatDuration(s2) {
      if m1 < 60 && m2 < 60 {
        NumberPrefixUnique(m1, m2, " min", " min");
      } else if m1 >= 60 && m2 >= 60 {
        FormatDurationAsProgress(s1);
        FormatDurationAsProgress(s2);
        DailyProgressBar.FormatProgressShowsMinutes(s1, s2);
      } else {
        var x1 := FormatDuration(s1)[|NatToString(if m1 < 60 then m1 else m1 / 60)|..];
        var x2 := FormatDuration(s2)[|NatToString(if m2 < 60 then m2 else m2 / 60)|..];
        assert FormatDuration(s1) == NatToString(if m1 < 60 then m1 else m1 / 60) + x1;
        assert FormatDuration(s2) == NatToString(if m2 < 60 then m2 else m2 / 60) + x2;
        NumberPrefixUnique(if m1 < 60 then m1 else m1 / 60, if m2 < 60 then m2 else m2 / 60, x1, x2);
      }
    }
  }

  /** The status on the right of the row. */
  function StatusText(completed: bool): (r: string)
    ensures r == "Completed" <==> completed
    ensures !completed ==> r == "Stopped"
  {
    if completed then "Completed" else "Stopped"
  }

  /** `session.tag && …`: the tag row is drawn for a non-empty tag. */
  function ShowsTagRow(tag: string): (r: bool)
    ensures r <==> TimerTypes.TagLabel(tag) == tag
  {
    tag != ""
  }

  /** The store records "Untagged" rather than an empty tag, so every logged
      session gets its tag row. */
  lemma LoggedSessionsShowTagRow(store: Store)
    requires store.Valid()
    ensures forall i :: 0 <= i < |store.sessions| ==> ShowsTagRow(store.sessions[i].tag)
  {
  }

  /** The date line: "Today" for a session of today, otherwise the locale date. */
  function DateLabel(isToday: bool, localeDate: string): (r: string)
    ensures isToday ==> r == "Today"
    ensures !isToday ==> r == localeDate
  {
    if isToday then "Today" else localeDate
  }
}
