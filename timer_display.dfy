/** The clock face: the time left as minutes and seconds, and the label under it. */
module TimerDisplay {

  import opened Text

  /** `formatTime`: whole minutes and leftover seconds, each zero-padded to two
      digits, around a colon. The seconds field is always exactly two digits. */
  function FormatTime(seconds: nat): (r: string)
    ensures |r| >= 5 && r[|r| - 3] == ':'
    ensures r[..|r| - 3] == PadStart2(NatToString(seconds / 60))
    ensures r[|r| - 2..] == PadStart2(NatToString(seconds % 60))
    ensures AllDigits(r[..|r| - 3]) && AllDigits(r[|r| - 2..])
  {
    var mins := PadStart2(NatToString(seconds / 60));
    var secs := PadStart2(NatToString(seconds % 60));
    NatToStringAtMostTwo(seconds % 60);
    PadStart2Value(NatToString(seconds / 60));
    PadStart2Value(NatToString(seconds % 60));
    ClockFields(mins, secs);
    mins + ":" + secs
  }

  /** Where the two fields sit in a text made of a field, a colon and a
      two-character field. */
  lemma ClockFields(mins: string, secs: string)
    requires |secs| == 2
    ensures var r := mins + ":" + secs;
      && |r| == |mins| + 3 && r[|r| - 3] == ':'
      && r[..|r| - 3] == mins && r[|r| - 2..] == secs
  {
    var r := mins + ":" + secs;
    assert r[..|mins|] == mins;
    assert r[|mins| + 1..] == secs;
  }

  /** Reads a clock text back: the digits before the colon are minutes, the two
      after it seconds. */
  function ReadClock(t: string): Option<nat>
  {
    if |t| < 3 || t[|t| - 3] != ':' then None
    else
      match (ParseInt(t[..|t| - 3]), ParseInt(t[|t| - 2..]))
      case (Some(m), Some(s)) => Some(m * 60 + s)
      case _ => None
  }

  /** The clock text shows the time left exactly: reading it back gives the
      number of seconds it was made from. */
  lemma FormatTimeRoundTrip(seconds: nat)
    ensures ReadClock(FormatTime(seconds)) == Some(seconds)
  {
    ParseIntPadded(seconds / 60);
    ParseIntPadded(seconds % 60);
  }

  /** Different times left never show the same text. */
  lemma FormatTimeInjective(a: nat, b: nat)
    requires FormatTime(a) == FormatTime(b)
    ensures a == b
  {
    FormatTimeRoundTrip(a);
    FormatTimeRoundTrip(b);
  }

  /** The text is the five characters MM:SS exactly below 100 minutes; a longer
      time gets a longer minutes field. */
  lemma FormatTimeLength(seconds: nat)
    ensures |FormatTime(seconds)| == 5 <==> seconds < 6000
  {
    NatToStringAtMostTwo(seconds / 60);
    NatToStringAtMostTwo(seconds % 60);
  }

  /** The longest preset, two hours, shows as "120:00". */
  lemma LongestPresetText()
    ensures FormatTime(7200) == "120:00"
  {
    assert NatToString(12) == "12";
    assert NatToString(120) == NatToString(12) + "0";
    assert PadStart2(NatToString(120)) == "120";
    assert PadStart2(NatToString(0)) == "00";
    assert 7200 / 60 == 120 && 7200 % 60 == 0;
    assert FormatTime(7200) == PadStart2(NatToString(120)) + ":" + PadStart2(NatToString(0));
  }

  /** The label under the clock. */
  function TimeLabel(timeRemaining: int): (r: string)
    ensures r == "Time's up!" <==> timeRemaining == 0
    ensures timeRemaining != 0 ==> r == "remaining"
  {
    if timeRemaining == 0 then "Time's up!" else "remaining"
  }
}
