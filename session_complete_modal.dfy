/** The dialog shown when a session runs out: the session length in words. */
module SessionCompleteModal {

  import opened Text

  /** `formatDuration`: minutes in words below an hour, otherwise hours in words
      and, when there are any, the leftover minutes; every count pluralised on its
      own. The leftover seconds are computed by the component but never shown. */
  function FormatDuration(seconds: nat): (r: string)
    ensures var mins := seconds / 60;
      mins < 60 ==> r == NatToString(mins) + (" minute" + PluralSuffix(mins))
    ensures var mins := seconds / 60;
      mins >= 60 && mins % 60 == 0 ==>
        r == NatToString(mins / 60) + (" hour" + PluralSuffix(mins / 60) + " ")
    ensures var mins := seconds / 60;
      mins >= 60 && mins % 60 > 0 ==>
        r == NatToString(mins / 60) + (" hour" + PluralSuffix(mins / 60) + " "
             + (NatToString(mins % 60) + " minute" + PluralSuffix(mins % 60)))
  {
    var mins := seconds / 60;
    NatToString(if mins < 60 then mins else mins / 60) + AfterLeadingCount(mins)
  }

  /** What follows the first number of the text for `mins` whole minutes. */
  function AfterLeadingCount(mins: nat): (r: string)
    ensures Delimited(r)
  {
    if mins < 60 then " minute" + PluralSuffix(mins)
    else
      var hours := mins / 60;
      var remainingMins := mins % 60;
      " hour" + PluralSuffix(hours) + " "
        + if remainingMins > 0 then NatToString(remainingMins) + " minute" + PluralSuffix(remainingMins) else ""
  }

  lemma AfterLeadingCountInjective(m1: nat, m2: nat)
    requires (if m1 < 60 then m1 else m1 / 60) == (if m2 < 60 then m2 else m2 / 60)
    requires AfterLeadingCount(m1) == AfterLeadingCount(m2)
    ensures m1 == m2
  {
    var x1, x2 := AfterLeadingCount(m1), AfterLeadingCount(m2);
    assert (m1 < 60 <==> x1[1] == 'm') && (m2 < 60 <==> x2[1] == 'm');
    if m1 >= 60 && m2 >= 60 && (m1 % 60 > 0 || m2 % 60 > 0) {
      var p := " hour" + PluralSuffix(m1 / 60) + " ";
      if m1 % 60 > 0 && m2 % 60 > 0 {
        var t1, t2 := " minute" + PluralSuffix(m1 % 60), " minute" + PluralSuffix(m2 % 60);
        assert x1 == p + (NatToString(m1 % 60) + t1);
        assert x2 == p + (NatToString(m2 % 60) + t2);
        assert NatToString(m1 % 60) + t1 == x1[|p|..];
        assert NatToString(m2 % 60) + t2 == x2[|p|..];
        NumberPrefixUnique(m1 % 60, m2 % 60, t1, t2);
      }
    }
  }

  /** The text tells apart exactly the lengths that differ in whole minutes. */
  lemma FormatDurationShowsMinutes(s1: nat, s2: nat)
    ensures FormatDuration(s1) == FormatDuration(s2) <==> s1 / 60 == s2 / 60
  {
    var m1, m2 := s1 / 60, s2 / 60;
    if FormatDuration(s1) == FormatDuration(s2) {
      NumberPrefixUnique(if m1 < 60 then m1 else m1 / 60, if m2 < 60 then m2 else m2 / 60,
                         AfterLeadingCount(m1), AfterLeadingCount(m2));
      AfterLeadingCountInjective(m1, m2);
    }
  }

  /** The seconds are dropped: a length reads like the same length cut down to
      its whole minutes. */
  lemma FormatDurationDropsSeconds(seconds: nat)
    ensures FormatDuration(seconds) == FormatDuration(seconds - seconds % 60)
  {
    FormatDurationShowsMinutes(seconds, seconds - seconds % 60);
  }
}
