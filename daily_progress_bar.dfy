/** The daily-target bar: today's seconds against the target, as text. The
    width of the bar (a floating-point percentage) is not modelled. */
module DailyProgressBar {

  import opened Text

  /** `Math.max(0, target - current)`: what is left of the target, never negative. */
  function Remaining(current: int, target: int): (rem: nat)
    ensures rem >= target - current
    ensures rem == 0 || rem == target - current
  {
    if target - current > 0 then target - current else 0
  }

  /** `formatTimeRemaining`: "Target reached!" once less than a minute is left,
      otherwise the hours and leftover minutes still to go. */
  function FormatTimeRemaining(current: int, target: int): (r: string)
    ensures r == "Target reached!" <==> Remaining(current, target) < 60
    ensures Remaining(current, target) >= 60 ==>
      var rem := Remaining(current, target);
      r == NatToString(rem / 3600) + ("h " + (NatToString(rem % 3600 / 60) + "m remaining"))
  {
    var rem := Remaining(current, target);
    var hours := rem / 3600;
    var minutes := rem % 3600 / 60;
    if hours == 0 && minutes == 0 then "Target reached!"
    else
      var r := NatToString(hours) + ("h " + (NatToString(minutes) + "m remaining"));
      assert IsDigit(r[0]);
      r
  }

  /** The text tells apart exactly the remainders that differ in whole minutes:
      every remainder below a minute reads "Target reached!". */
  lemma FormatTimeRemainingShowsMinutes(c1: int, t1: int, c2: int, t2: int)
    ensures FormatTimeRemaining(c1, t1) == FormatTimeRemaining(c2, t2)
            <==> Remaining(c1, t1) / 60 == Remaining(c2, t2) / 60
  {
    var r1, r2 := Remaining(c1, t1), Remaining(c2, t2);
    HoursAndMinutes(r1);
    HoursAndMinutes(r2);
    if r1 < 60 || r2 < 60 {
      if r1 >= 60 || r2 >= 60 {
        assert r1 / 60 != r2 / 60;
      }
    } else if FormatTimeRemaining(c1, t1) == FormatTimeRemaining(c2, t2) {
      TwoNumbersUnique(r1 / 3600, r1 % 3600 / 60, "m remaining",
                       r2 / 3600, r2 % 3600 / 60, "m remaining", "h ");
    }
  }

  /** `formatProgress`: whole hours with "h ", then the leftover minutes with "m"
      only when there are any (no minutes leaves the trailing space). */
  function FormatProgress(seconds: nat): (r: string)
    ensures seconds % 3600 < 60 ==> r == NatToString(seconds / 3600) + "h "
    ensures seconds % 3600 >= 60 ==>
      r == NatToString(seconds / 3600) + ("h " + (NatToString(seconds % 3600 / 60) + "m"))
  {
    var hours := seconds / 3600;
    var minutes := seconds % 3600 / 60;
    NatToString(hours) + ("h " + if minutes > 0 then NatToString(minutes) + "m" else "")
  }

  /** The progress text tells apart exactly the amounts that differ in whole minutes. */
  lemma FormatProgressShowsMinutes(s1: nat, s2: nat)
    ensures FormatProgress(s1) == FormatProgress(s2) <==> s1 / 60 == s2 / 60
  {
    HoursAndMinutes(s1);
    HoursAndMinutes(s2);
    var h1, m1, h2, m2 := s1 / 3600, s1 % 3600 / 60, s2 / 3600, s2 % 3600 / 60;
    if FormatProgress(s1) == FormatProgress(s2) {
      var x1 := "h " + if m1 > 0 then NatToString(m1) + "m" else "";
      var x2 := "h " + if m2 > 0 then NatToString(m2) + "m" else "";
      NumberPrefixUnique(h1, h2, x1, x2);
      if m1 > 0 && m2 > 0 {
        assert NatToString(m1) + "m" == x1[2..];
        assert NatToString(m2) + "m" == x2[2..];
        NumberPrefixUnique(m1, m2, "m", "m");
      }
    }
  }
}
