/** Date helpers. The clock is not modelled: the caller passes the value of
    `new Date().toISOString()` in as `nowIso`. */
module DateUtils {

  import opened Text

  predicate IsDigitChar(c: char) { '0' <= c <= '9' }

  /** The shape of `Date.prototype.toISOString()` for the years 0000 to 9999:
      `YYYY-MM-DDTHH:mm:ss.sssZ` (the extended format of ISO 8601). */
  predicate IsIsoTimestamp(s: string)
  {
    && |s| == 24
    && (forall i :: 0 <= i < 24 && i !in {4, 7, 10, 13, 16, 19, 23} ==> IsDigitChar(s[i]))
    && s[4] == '-' && s[7] == '-' && s[10] == 'T'
    && s[13] == ':' && s[16] == ':' && s[19] == '.' && s[23] == 'Z'
  }

  /** `iso.split('T')[0]`, the date `getTodayDateString` takes from the clock: the
      text before the first 'T', or all of it when there is none; for a timestamp
      in the `toISOString` format, its first ten characters. */
  function DatePart(iso: string): (r: string)
    ensures |r| <= |iso| && r == iso[..|r|]
    ensures 'T' !in r
    ensures |r| < |iso| ==> iso[|r|] == 'T'
    ensures IsIsoTimestamp(iso) ==> r == iso[..10]
  {
    if iso == [] || iso[0] == 'T' then []
    else
      var r := [iso[0]] + DatePart(iso[1..]);
      assert iso[1..][..|r| - 1] == iso[1..|r|];
      r
  }

  /** `isToday(dateString)`: the date string is today's, `getTodayDateString()`
      being the date part of the clock reading. */
  function IsToday(dateString: string, nowIso: string): (r: bool)
    ensures IsIsoTimestamp(nowIso) ==> (r <==> dateString == nowIso[..10])
  {
    dateString == DatePart(nowIso)
  }

  /** `formatDisplayDate`: "Today" for today's date; any other date is shown in the
      host's locale format, which the caller passes in as `localeText`. */
  function FormatDisplayDate(dateString: string, nowIso: string, localeText: string): (r: string)
    ensures IsToday(dateString, nowIso) ==> r == "Today"
    ensures !IsToday(dateString, nowIso) ==> r == localeText
  {
    if IsToday(dateString, nowIso) then "Today" else localeText
  }

  /** `formatTimeFromSeconds`: whole hours and leftover minutes in words, each
      pluralised on its own; leftover seconds are dropped. */
  function FormatTimeFromSeconds(seconds: nat): (r: string)
    ensures seconds < 3600 ==>
      r == NatToString(seconds / 60) + (" min" + PluralSuffix(seconds / 60))
    ensures seconds >= 3600 && seconds % 3600 < 60 ==>
      r == NatToString(seconds / 3600) + (" hr" + PluralSuffix(seconds / 3600))
    ensures seconds >= 3600 && seconds % 3600 >= 60 ==>
      r == NatToString(seconds / 3600) + (" hr" + PluralSuffix(seconds / 3600) + " "
           + NatToString(seconds % 3600 / 60) + " min" + PluralSuffix(seconds % 3600 / 60))
  {
    var hours, minutes := seconds / 3600, seconds % 3600 / 60;
    assert seconds < 3600 ==> hours == 0 && minutes == seconds / 60;
    HoursMinutesText(hours, minutes)
  }

  /** The text for `hours` and `minutes`, written as the number it starts with
      followed by the rest. */
  function HoursMinutesText(hours: nat, minutes: nat): string
  {
    NatToString(if hours == 0 then minutes else hours) + AfterLeadingNumber(hours, minutes)
  }

  function AfterLeadingNumber(hours: nat, minutes: nat): (r: string)
    ensures Delimited(r)
  {
    if hours == 0 then " min" + PluralSuffix(minutes)
    else if minutes == 0 then " hr" + PluralSuffix(hours)
    else " hr" + PluralSuffix(hours) + " " + NatToString(minutes) + " min" + PluralSuffix(minutes)
  }

  lemma AfterLeadingNumberInjective(h1: nat, m1: nat, h2: nat, m2: nat)
    requires (if h1 == 0 then m1 else h1) == (if h2 == 0 then m2 else h2)
    requires AfterLeadingNumber(h1, m1) == AfterLeadingNumber(h2, m2)
    ensures h1 == h2 && m1 == m2
  {
    var x1, x2 := AfterLeadingNumber(h1, m1), AfterLeadingNumber(h2, m2);
    assert (h1 == 0 <==> x1[1] == 'm') && (h2 == 0 <==> x2[1] == 'm');
    if h1 > 0 && h2 > 0 && (m1 > 0 || m2 > 0) {
      var p := " hr" + PluralSuffix(h1) + " ";
      if m1 > 0 && m2 > 0 {
        var t1, t2 := " min" + PluralSuffix(m1), " min" + PluralSuffix(m2);
        assert x1 == p + (NatToString(m1) + t1);
        assert x2 == p + (NatToString(m2) + t2);
        assert NatToString(m1) + t1 == x1[|p|..];
        assert NatToString(m2) + t2 == x2[|p|..];
        NumberPrefixUnique(m1, m2, t1, t2);
      }
    }
  }

  /** The text shows exactly the whole minutes: two durations read the same
      if and only if they have the same number of whole minutes. */
  lemma FormatTimeFromSecondsShowsMinutes(s1: nat, s2: nat)
    ensures FormatTimeFromSeconds(s1) == FormatTimeFromSeconds(s2) <==> s1 / 60 == s2 / 60
  {
    HoursAndMinutes(s1);
    HoursAndMinutes(s2);
    var h1, m1 := s1 / 3600, s1 % 3600 / 60;
    var h2, m2 := s2 / 3600, s2 % 3600 / 60;
    if FormatTimeFromSeconds(s1) == FormatTimeFromSeconds(s2) {
      NumberPrefixUnique(if h1 == 0 then m1 else h1, if h2 == 0 then m2 else h2,
                         AfterLeadingNumber(h1, m1), AfterLeadingNumber(h2, m2));
      AfterLeadingNumberInjective(h1, m1, h2, m2);
    }
  }

  /** Leftover seconds never show: a duration reads like the same duration cut
      down to its whole minutes. */
  lemma FormatTimeFromSecondsDropsSeconds(seconds: nat)
    ensures FormatTimeFromSeconds(seconds) == FormatTimeFromSeconds(seconds - seconds % 60)
  {
    FormatTimeFromSecondsShowsMinutes(seconds, seconds - seconds % 60);
  }
}
