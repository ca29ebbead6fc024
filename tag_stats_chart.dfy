/** The per-subject chart of the history screen, drawn from `getTagStats()`.
    Bar widths (a floating-point fraction of the largest total) are not modelled;
    what is modelled is which rows are drawn, with what text, and which is
    highlighted. */
module TagStatsChart {

  import opened Text
  import opened TimerTypes
  import TagStatistics

  /** One drawn row: the tag, its session count, its time and whether it is the
      highlighted top bar. */
  datatype Row = Row(tag: string, countText: string, timeText: string, top: bool)

  datatype ChartView = Placeholder(message: string) | Rows(rows: seq<Row>)

  const EMPTY_MESSAGE := "No subject data yet"

  /** `formatTime`: minutes alone below an hour, hours alone on the hour,
      otherwise both. */
  function FormatTime(seconds: nat): (r: string)
    ensures seconds / 3600 == 0 ==> r == NatToString(seconds % 3600 / 60) + "m"
    ensures seconds / 3600 > 0 && seconds % 3600 / 60 == 0 ==> r == NatToString(seconds / 3600) + "h"
    ensures seconds / 3600 > 0 && seconds % 3600 / 60 > 0 ==>
      r == NatToString(seconds / 3600) + ("h " + (NatToString(seconds % 3600 / 60) + "m"))
  {
    var hours := seconds / 3600;
    var minutes := seconds % 3600 / 60;
    NatToString(if hours == 0 then minutes else hours) + AfterLeadingNumber(hours, minutes)
  }

  function AfterLeadingNumber(hours: nat, minutes: nat): (r: string)
    ensures Delimited(r)
  {
    if hours == 0 then "m"
    else if minutes == 0 then "h"
    else "h " + (NatToString(minutes) + "m")
  }

  /** The time on a bar tells apart exactly the totals that differ in whole minutes. */
  lemma FormatTimeShowsMinutes(s1: nat, s2: nat)
    ensures FormatTime(s1) == FormatTime(s2) <==> s1 / 60 == s2 / 60
  {
    HoursAndMinutes(s1);
    HoursAndMinutes(s2);
    var h1, m1, h2, m2 := s1 / 3600, s1 % 3600 / 60, s2 / 3600, s2 % 3600 / 60;
    if FormatTime(s1) == FormatTime(s2) {
      var x1, x2 := AfterLeadingNumber(h1, m1), AfterLeadingNumber(h2, m2);
      NumberPrefixUnique(if h1 == 0 then m1 else h1, if h2 == 0 then m2 else h2, x1, x2);
      assert (h1 == 0 <==> x1[0] == 'm') && (h2 == 0 <==> x2[0] == 'm');
      if h1 > 0 && h2 > 0 && m1 > 0 && m2 > 0 {
        assert NatToString(m1) + "m" == x1[2..];
        assert NatToString(m2) + "m" == x2[2..];
        NumberPrefixUnique(m1, m2, "m", "m");
      }
    }
  }

  /** "<n> session", with "s" unless the count is exactly 1. */
  function SessionLabel(count: nat): (r: string)
    ensures |r| > |NatToString(count)| && r[..|NatToString(count)|] == NatToString(count)
    ensures r[|NatToString(count)|..] == " session" || r[|NatToString(count)|..] == " sessions"
    ensures r[|r| - 1] == 's' <==> count != 1
  {
    var n := NatToString(count);
    var r := n + " session" + PluralSuffix(count);
    assert r[..|n|] == n;
    r
  }

  /** `Math.max(...tagStats.map(stat => stat.totalSeconds))`, taken only when
      there is at least one entry. */
  function MaxSeconds(stats: seq<TagStats>): (m: nat)
    requires |stats| > 0
    ensures forall i :: 0 <= i < |stats| ==> stats[i].totalSeconds <= m
    ensures exists i :: 0 <= i < |stats| && stats[i].totalSeconds == m
  {
    if |stats| == 1 then stats[0].totalSeconds
    else
      var rest := MaxSeconds(stats[1..]);
      assert forall i :: 1 <= i < |stats| ==> stats[i] == stats[1..][i - 1];
      if stats[0].totalSeconds >= rest then stats[0].totalSeconds else rest
  }

  /** What the chart draws: the placeholder for an empty list, otherwise one row
      per entry in the given order, the first one highlighted. */
  function Chart(stats: seq<TagStats>): (v: ChartView)
    ensures v.Placeholder? <==> |stats| == 0
    ensures v.Placeholder? ==> v.message == EMPTY_MESSAGE
    ensures v.Rows? ==> |v.rows| == |stats|
    ensures v.Rows? ==> forall i :: 0 <= i < |stats| ==>
      v.rows[i] == Row(stats[i].tag, SessionLabel(stats[i].sessionCount),
                       FormatTime(stats[i].totalSeconds), i == 0)
  {
    if |stats| == 0 then Placeholder(EMPTY_MESSAGE)
    else
      Rows(seq(|stats|, i requires 0 <= i < |stats| =>
        Row(stats[i].tag, SessionLabel(stats[i].sessionCount), FormatTime(stats[i].totalSeconds), i == 0)))
  }

  /** In a list ordered from most to fewest seconds the first entry holds the maximum. */
  lemma FirstHoldsMax(stats: seq<TagStats>)
    requires |stats| > 0
    requires forall j :: 0 < j < |stats| ==> stats[0].totalSeconds >= stats[j].totalSeconds
    ensures stats[0].totalSeconds == MaxSeconds(stats)
  {
    var m := MaxSeconds(stats);
    var i :| 0 <= i < |stats| && stats[i].totalSeconds == m;
    if i > 0 {
      assert stats[0].totalSeconds >= stats[i].totalSeconds;
    }
  }

  /** On the store's statistics the highlighted top bar is the one with the most
      seconds. */
  lemma TopBarHoldsMax(sessions: seq<StudySession>)
    requires |TagStatistics.TagStatsOf(sessions)| > 0
    ensures var stats := TagStatistics.TagStatsOf(sessions);
      stats[0].totalSeconds == MaxSeconds(stats)
  {
    var stats := TagStatistics.TagStatsOf(sessions);
    TagStatistics.TagStatsCorrect(sessions);
    forall j | 0 < j < |stats| ensures stats[0].totalSeconds >= stats[j].totalSeconds {
      assert TagStatistics.RankedBefore(sessions, stats[0], stats[j]);
    }
    FirstHoldsMax(stats);
  }

  /** The placeholder shows exactly when no session has been logged. */
  lemma PlaceholderIffNoSessions(sessions: seq<StudySession>)
    ensures Chart(TagStatistics.TagStatsOf(sessions)).Placeholder? <==> sessions == []
  {
    TagStatistics.TagStatsCorrect(sessions);
    if sessions == [] {
      assert TagStatistics.GroupByTag(sessions) == [];
    }
  }
}
