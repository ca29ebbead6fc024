/** `getTagStats`: the session log grouped by tag label (a JavaScript `Map`, so
    entries stay in the order their tag was first seen), then sorted by total
    seconds, largest first, with a stable sort (section 22.1.3.27 of ECMA-262,
    10th edition), so that equal totals keep first-seen order. */
module TagStatistics {

  import opened TimerTypes

  // ---------------------------------------------------------------------------
  // Reference definitions over the session log

  /** Seconds logged under `tag`. */
  function TotalFor(sessions: seq<StudySession>, tag: string): nat
  {
    if sessions == [] then 0
    else
      var last := sessions[|sessions| - 1];
      TotalFor(sessions[..|sessions| - 1], tag) + (if TagLabel(last.tag) == tag then last.duration else 0)
  }

  /** Number of sessions logged under `tag`. */
  function CountFor(sessions: seq<StudySession>, tag: string): nat
  {
    if sessions == [] then 0
    else
      var last := sessions[|sessions| - 1];
      CountFor(sessions[..|sessions| - 1], tag) + (if TagLabel(last.tag) == tag then 1 else 0)
  }

  /** Index of the first session logged under `tag`; |sessions| when there is none. */
  function FirstSeen(sessions: seq<StudySession>, tag: string): (k: nat)
    ensures k <= |sessions|
    ensures k < |sessions| ==> TagLabel(sessions[k].tag) == tag
    ensures forall j :: 0 <= j < k ==> TagLabel(sessions[j].tag) != tag
  {
    if sessions == [] then 0
    else if TagLabel(sessions[0].tag) == tag then 0
    else 1 + FirstSeen(sessions[1..], tag)
  }

  function SumTotals(stats: seq<TagStats>): nat
  {
    if stats == [] then 0 else SumTotals(stats[..|stats| - 1]) + stats[|stats| - 1].totalSeconds
  }

  function SumCounts(stats: seq<TagStats>): nat
  {
    if stats == [] then 0 else SumCounts(stats[..|stats| - 1]) + stats[|stats| - 1].sessionCount
  }

  // ---------------------------------------------------------------------------
  // The grouping pass

  /** `tagMap.get(tag)`: the index of the entry for `tag`, or -1. */
  function IndexOfTag(entries: seq<TagStats>, tag: string): (i: int)
    ensures -1 <= i < |entries|
    ensures i >= 0 ==> entries[i].tag == tag
    ensures i < 0 ==> forall j :: 0 <= j < |entries| ==> entries[j].tag != tag
  {
    if entries == [] then -1
    else if entries[0].tag == tag then 0
    else
      var k := IndexOfTag(entries[1..], tag);
      if k < 0 then -1 else k + 1
  }

  /** One step of the `forEach`: add a session to the entry of its label, creating
      the entry at the end when the label is new. */
  function AddSession(entries: seq<TagStats>, session: StudySession): (r: seq<TagStats>)
    ensures var t := TagLabel(session.tag);
      var i := IndexOfTag(entries, t);
      && (i >= 0 ==>
            && |r| == |entries|
            && r[i] == TagStats(t, entries[i].totalSeconds + session.duration, entries[i].sessionCount + 1)
            && forall j :: 0 <= j < |r| && j != i ==> r[j] == entries[j])
      && (i < 0 ==> r == entries + [TagStats(t, session.duration, 1)])
  {
    var tag := TagLabel(session.tag);
    var i := IndexOfTag(entries, tag);
    if i >= 0 then
      entries[i := TagStats(tag, entries[i].totalSeconds + session.duration, entries[i].sessionCount + 1)]
    else
      entries + [TagStats(tag, session.duration, 1)]
  }

  /** The `Map` after the whole log, as its entries in insertion order. */
  function GroupByTag(sessions: seq<StudySession>): (r: seq<TagStats>)
    ensures |r| <= |sessions|
    ensures r == [] <==> sessions == []
  {
    if sessions == [] then [] else AddSession(GroupByTag(sessions[..|sessions| - 1]), sessions[|sessions| - 1])
  }

  /** What the grouping pass guarantees of its entries. */
  ghost predicate GroupedCorrectly(sessions: seq<StudySession>, g: seq<TagStats>)
  {
    EntriesCounted(sessions, g) && InFirstSeenOrder(sessions, g) && LabelsCovered(sessions, g)
  }

  /** Every entry holds its own label's seconds and count, and its label occurs in the log. */
  ghost predicate EntriesCounted(sessions: seq<StudySession>, g: seq<TagStats>)
  {
    forall i :: 0 <= i < |g| ==>
      && g[i].totalSeconds == TotalFor(sessions, g[i].tag)
      && g[i].sessionCount == CountFor(sessions, g[i].tag)
      && FirstSeen(sessions, g[i].tag) < |sessions|
  }

  /** Entries run in the order their labels first occur in the log. */
  ghost predicate InFirstSeenOrder(sessions: seq<StudySession>, g: seq<TagStats>)
  {
    forall i, j :: 0 <= i < j < |g| ==> FirstSeen(sessions, g[i].tag) < FirstSeen(sessions, g[j].tag)
  }

  /** Every label of the log has an entry. */
  ghost predicate LabelsCovered(sessions: seq<StudySession>, g: seq<TagStats>)
  {
    forall j :: 0 <= j < |sessions| ==> IndexOfTag(g, TagLabel(sessions[j].tag)) >= 0
  }

  lemma {:induction false} FirstSeenAppend(sessions: seq<StudySession>, x: StudySession, tag: string)
    ensures FirstSeen(sessions, tag) < |sessions| ==> FirstSeen(sessions + [x], tag) == FirstSeen(sessions, tag)
    ensures FirstSeen(sessions, tag) == |sessions| && TagLabel(x.tag) == tag ==>
      FirstSeen(sessions + [x], tag) == |sessions|
  {
    if sessions != [] {
      assert (sessions + [x])[1..] == sessions[1..] + [x];
      FirstSeenAppend(sessions[1..], x, tag);
    }
  }

  lemma {:induction false} AbsentTagTotals(sessions: seq<StudySession>, tag: string)
    requires forall j :: 0 <= j < |sessions| ==> TagLabel(sessions[j].tag) != tag
    ensures TotalFor(sessions, tag) == 0 && CountFor(sessions, tag) == 0
  {
    if sessions != [] {
      AbsentTagTotals(sessions[..|sessions| - 1], tag);
    }
  }

  lemma {:induction false} SumsUpdate(g: seq<TagStats>, k: nat, e: TagStats)
    requires k < |g|
    ensures SumTotals(g[k := e]) == SumTotals(g) - g[k].totalSeconds + e.totalSeconds
    ensures SumCounts(g[k := e]) == SumCounts(g) - g[k].sessionCount + e.sessionCount
  {
    var n := |g| - 1;
    assert g[k := e][..n] == if k == n then g[..n] else g[..n][k := e];
    if k < n {
      SumsUpdate(g[..n], k, e);
    }
  }

  lemma TotalsAppend(p: seq<StudySession>, x: StudySession, u: string)
    ensures TotalFor(p + [x], u) == TotalFor(p, u) + (if TagLabel(x.tag) == u then x.duration else 0)
    ensures CountFor(p + [x], u) == CountFor(p, u) + (if TagLabel(x.tag) == u then 1 else 0)
  {
    assert (p + [x])[..|p|] == p;
  }

  /** Entries whose tags lie before position n of the log keep their first-seen index. */
  lemma FirstSeenKept(p: seq<StudySession>, x: StudySession, g: seq<TagStats>)
    requires forall i :: 0 <= i < |g| ==> FirstSeen(p, g[i].tag) < |p|
    ensures forall i :: 0 <= i < |g| ==> FirstSeen(p + [x], g[i].tag) == FirstSeen(p, g[i].tag)
  {
    forall i | 0 <= i < |g| ensures FirstSeen(p + [x], g[i].tag) == FirstSeen(p, g[i].tag) {
      FirstSeenAppend(p, x, g[i].tag);
    }
  }

  /** A session whose label already has an entry adds to that entry. */
  lemma AddSessionToEntry(p: seq<StudySession>, g: seq<TagStats>, x: StudySession)
    requires GroupedCorrectly(p, g)
    requires IndexOfTag(g, TagLabel(x.tag)) >= 0
    ensures GroupedCorrectly(p + [x], AddSession(g, x))
    ensures SumTotals(AddSession(g, x)) == SumTotals(g) + x.duration
    ensures SumCounts(AddSession(g, x)) == SumCounts(g) + 1
  {
    var k := IndexOfTag(g, TagLabel(x.tag));
    SumsUpdate(g, k, AddSession(g, x)[k]);
    FirstSeenKept(p, x, g);
    ToEntryCounted(p, g, x);
    ToEntryOrdered(p, g, x);
    ToEntryCovered(p, g, x);
  }

  lemma ToEntryCounted(p: seq<StudySession>, g: seq<TagStats>, x: StudySession)
    requires EntriesCounted(p, g) && InFirstSeenOrder(p, g)
    requires IndexOfTag(g, TagLabel(x.tag)) >= 0
    requires forall i :: 0 <= i < |g| ==> FirstSeen(p + [x], g[i].tag) == FirstSeen(p, g[i].tag)
    ensures EntriesCounted(p + [x], AddSession(g, x))
  {
    var s := p + [x];
    var k := IndexOfTag(g, TagLabel(x.tag));
    var g' := AddSession(g, x);
    forall i | 0 <= i < |g'|
      ensures g'[i].totalSeconds == TotalFor(s, g'[i].tag)
      ensures g'[i].sessionCount == CountFor(s, g'[i].tag)
      ensures FirstSeen(s, g'[i].tag) < |s|
    {
      TotalsAppend(p, x, g[i].tag);
      if i != k {
        assert FirstSeen(p, g[i].tag) != FirstSeen(p, g[k].tag);
      }
    }
  }

  lemma ToEntryOrdered(p: seq<StudySession>, g: seq<TagStats>, x: StudySession)
    requires InFirstSeenOrder(p, g)
    requires IndexOfTag(g, TagLabel(x.tag)) >= 0
    requires forall i :: 0 <= i < |g| ==> FirstSeen(p + [x], g[i].tag) == FirstSeen(p, g[i].tag)
    ensures InFirstSeenOrder(p + [x], AddSession(g, x))
  {
    var g' := AddSession(g, x);
    forall i, j | 0 <= i < j < |g'| ensures FirstSeen(p + [x], g'[i].tag) < FirstSeen(p + [x], g'[j].tag) {
      assert g'[i].tag == g[i].tag && g'[j].tag == g[j].tag;
    }
  }

  lemma ToEntryCovered(p: seq<StudySession>, g: seq<TagStats>, x: StudySession)
    requires LabelsCovered(p, g)
    requires IndexOfTag(g, TagLabel(x.tag)) >= 0
    ensures LabelsCovered(p + [x], AddSession(g, x))
  {
    var s := p + [x];
    var k := IndexOfTag(g, TagLabel(x.tag));
    var g' := AddSession(g, x);
    forall j | 0 <= j < |s| ensures IndexOfTag(g', TagLabel(s[j].tag)) >= 0 {
      var u := TagLabel(s[j].tag);
      if j < |p| {
        assert s[j] == p[j];
        assert g'[IndexOfTag(g, u)].tag == u;
      } else {
        assert g'[k].tag == u;
      }
    }
  }

  /** A session with a new label gets a new entry at the end. */
  lemma AddSessionNewEntry(p: seq<StudySession>, g: seq<TagStats>, x: StudySession)
    requires GroupedCorrectly(p, g)
    requires IndexOfTag(g, TagLabel(x.tag)) < 0
    ensures GroupedCorrectly(p + [x], AddSession(g, x))
    ensures SumTotals(AddSession(g, x)) == SumTotals(g) + x.duration
    ensures SumCounts(AddSession(g, x)) == SumCounts(g) + 1
  {
    var t := TagLabel(x.tag);
    var g' := AddSession(g, x);
    assert g' == g + [TagStats(t, x.duration, 1)];
    assert g'[..|g|] == g;
    forall j | 0 <= j < |p| ensures TagLabel(p[j].tag) != t {
      assert IndexOfTag(g, TagLabel(p[j].tag)) >= 0;
    }
    AbsentTagTotals(p, t);
    FirstSeenAppend(p, x, t);
    FirstSeenKept(p, x, g);
    NewEntryCounted(p, g, x);
    NewEntryOrdered(p, g, x);
    NewEntryCovered(p, g, x);
  }

  lemma NewEntryCounted(p: seq<StudySession>, g: seq<TagStats>, x: StudySession)
    requires EntriesCounted(p, g)
    requires IndexOfTag(g, TagLabel(x.tag)) < 0
    requires TotalFor(p, TagLabel(x.tag)) == 0 && CountFor(p, TagLabel(x.tag)) == 0
    requires forall i :: 0 <= i < |g| ==> FirstSeen(p + [x], g[i].tag) == FirstSeen(p, g[i].tag)
    ensures EntriesCounted(p + [x], AddSession(g, x))
  {
    var s := p + [x];
    var g' := AddSession(g, x);
    assert g' == g + [TagStats(TagLabel(x.tag), x.duration, 1)];
    forall i | 0 <= i < |g'|
      ensures g'[i].totalSeconds == TotalFor(s, g'[i].tag)
      ensures g'[i].sessionCount == CountFor(s, g'[i].tag)
      ensures FirstSeen(s, g'[i].tag) < |s|
    {
      TotalsAppend(p, x, g'[i].tag);
      if i < |g| {
        assert g'[i] == g[i];
      }
    }
  }

  lemma NewEntryOrdered(p: seq<StudySession>, g: seq<TagStats>, x: StudySession)
    requires InFirstSeenOrder(p, g)
    requires forall i :: 0 <= i < |g| ==> FirstSeen(p, g[i].tag) < |p|
    requires IndexOfTag(g, TagLabel(x.tag)) < 0
    requires FirstSeen(p + [x], TagLabel(x.tag)) == |p|
    requires forall i :: 0 <= i < |g| ==> FirstSeen(p + [x], g[i].tag) == FirstSeen(p, g[i].tag)
    ensures InFirstSeenOrder(p + [x], AddSession(g, x))
  {
    var g' := AddSession(g, x);
    assert g' == g + [TagStats(TagLabel(x.tag), x.duration, 1)];
    forall i, j | 0 <= i < j < |g'| ensures FirstSeen(p + [x], g'[i].tag) < FirstSeen(p + [x], g'[j].tag) {
      assert g'[i] == g[i];
      if j < |g| {
        assert g'[j] == g[j];
      } else {
        assert g'[j].tag == TagLabel(x.tag);
      }
    }
  }

  lemma NewEntryCovered(p: seq<StudySession>, g: seq<TagStats>, x: StudySession)
    requires LabelsCovered(p, g)
    requires IndexOfTag(g, TagLabel(x.tag)) < 0
    ensures LabelsCovered(p + [x], AddSession(g, x))
  {
    var s := p + [x];
    var g' := AddSession(g, x);
    assert g' == g + [TagStats(TagLabel(x.tag), x.duration, 1)];
    forall j | 0 <= j < |s| ensures IndexOfTag(g', TagLabel(s[j].tag)) >= 0 {
      var u := TagLabel(s[j].tag);
      if j < |p| {
        assert s[j] == p[j];
        assert g'[IndexOfTag(g, u)].tag == u;
      } else {
        assert g'[|g|].tag == u;
      }
    }
  }

  /** Each step keeps the entries correct for the log seen so far. */
  lemma AddSessionCorrect(p: seq<StudySession>, g: seq<TagStats>, x: StudySession)
    requires GroupedCorrectly(p, g)
    ensures GroupedCorrectly(p + [x], AddSession(g, x))
    ensures SumTotals(AddSession(g, x)) == SumTotals(g) + x.duration
    ensures SumCounts(AddSession(g, x)) == SumCounts(g) + 1
  {
    if IndexOfTag(g, TagLabel(x.tag)) >= 0 {
      AddSessionToEntry(p, g, x);
    } else {
      AddSessionNewEntry(p, g, x);
    }
  }

  /** The grouping pass is correct: one entry per label, in first-seen order,
      each holding that label's seconds and session count, and nothing lost. */
  lemma {:induction false} GroupByTagCorrect(sessions: seq<StudySession>)
    ensures GroupedCorrectly(sessions, GroupByTag(sessions))
    ensures SumTotals(GroupByTag(sessions)) == SumDurations(sessions)
    ensures SumCounts(GroupByTag(sessions)) == |sessions|
  {
    if sessions != [] {
      var p := sessions[..|sessions| - 1];
      assert p + [sessions[|sessions| - 1]] == sessions;
      GroupByTagCorrect(p);
      AddSessionCorrect(p, GroupByTag(p), sessions[|sessions| - 1]);
    }
  }

  // ---------------------------------------------------------------------------
  // The stable sort

  /** Insert `x` in front of the first entry whose total does not exceed its own. */
  function InsertDescending(x: TagStats, s: seq<TagStats>): (r: seq<TagStats>)
    ensures multiset(r) == multiset(s) + multiset{x}
  {
    if s == [] || s[0].totalSeconds <= x.totalSeconds then [x] + s
    else
      assert s == [s[0]] + s[1..];
      [s[0]] + InsertDescending(x, s[1..])
  }

  /** `tagStats.sort((a, b) => b.totalSeconds - a.totalSeconds)` as a stable insertion sort. */
  function SortByTotalDesc(s: seq<TagStats>): (r: seq<TagStats>)
    ensures multiset(r) == multiset(s)
  {
    if s == [] then []
    else
      assert s == [s[0]] + s[1..];
      InsertDescending(s[0], SortByTotalDesc(s[1..]))
  }

  /** `a` belongs before `b`: more seconds, or as many and its tag seen first. */
  ghost predicate RankedBefore(sessions: seq<StudySession>, a: TagStats, b: TagStats)
  {
    a.totalSeconds > b.totalSeconds
    || (a.totalSeconds == b.totalSeconds && FirstSeen(sessions, a.tag) < FirstSeen(sessions, b.tag))
  }

  ghost predicate Ranked(sessions: seq<StudySession>, s: seq<TagStats>)
  {
    forall i, j :: 0 <= i < j < |s| ==> RankedBefore(sessions, s[i], s[j])
  }

  lemma {:induction false} InsertRanked(sessions: seq<StudySession>, x: TagStats, s: seq<TagStats>)
    requires Ranked(sessions, s)
    requires forall y :: y in s ==> FirstSeen(sessions, x.tag) < FirstSeen(sessions, y.tag)
    ensures Ranked(sessions, InsertDescending(x, s))
  {
    if s != [] && s[0].totalSeconds > x.totalSeconds {
      InsertRanked(sessions, x, s[1..]);
      InsertBehindHead(sessions, x, s);
    } else {
      InsertAtHead(sessions, x, s);
    }
  }

  /** `x` goes first when the first entry does not exceed it. */
  lemma InsertAtHead(sessions: seq<StudySession>, x: TagStats, s: seq<TagStats>)
    requires Ranked(sessions, s)
    requires forall y :: y in s ==> FirstSeen(sessions, x.tag) < FirstSeen(sessions, y.tag)
    requires s == [] || s[0].totalSeconds <= x.totalSeconds
    ensures Ranked(sessions, [x] + s)
  {
    var r := [x] + s;
    forall i, j | 0 <= i < j < |r| ensures RankedBefore(sessions, r[i], r[j]) {
      if i == 0 {
        assert r[j] == s[j - 1] && r[j] in s;
        if j > 1 { assert RankedBefore(sessions, s[0], s[j - 1]); }
      } else {
        assert r[i] == s[i - 1] && r[j] == s[j - 1];
      }
    }
  }

  /** The first entry stays first when it exceeds `x`. */
  lemma InsertBehindHead(sessions: seq<StudySession>, x: TagStats, s: seq<TagStats>)
    requires Ranked(sessions, s)
    requires s != [] && s[0].totalSeconds > x.totalSeconds
    requires Ranked(sessions, InsertDescending(x, s[1..]))
    ensures Ranked(sessions, InsertDescending(x, s))
  {
    var rest := InsertDescending(x, s[1..]);
    forall y | y in rest ensures RankedBefore(sessions, s[0], y) {
      assert y in multiset(rest);
      if y != x {
        assert y in multiset(s[1..]);
        var j :| 0 <= j < |s[1..]| && s[1..][j] == y;
        assert s[j + 1] == y;
      }
    }
    assert InsertDescending(x, s) == [s[0]] + rest;
    ConsRanked(sessions, s[0], rest);
  }

  /** An entry ranked before every entry of a ranked list can go in front of it. */
  lemma ConsRanked(sessions: seq<StudySession>, a: TagStats, rest: seq<TagStats>)
    requires Ranked(sessions, rest)
    requires forall y :: y in rest ==> RankedBefore(sessions, a, y)
    ensures Ranked(sessions, [a] + rest)
  {
    var r := [a] + rest;
    forall i, j | 0 <= i < j < |r| ensures RankedBefore(sessions, r[i], r[j]) {
      if i == 0 {
        assert r[j] == rest[j - 1] && r[j] in rest;
      } else {
        assert r[i] == rest[i - 1] && r[j] == rest[j - 1];
      }
    }
  }

  /** Sorting entries that are in first-seen order ranks them: non-increasing
      totals, and equal totals still in first-seen order. */
  lemma {:induction false} SortRanked(sessions: seq<StudySession>, s: seq<TagStats>)
    requires forall i, j :: 0 <= i < j < |s| ==> FirstSeen(sessions, s[i].tag) < FirstSeen(sessions, s[j].tag)
    ensures Ranked(sessions, SortByTotalDesc(s))
  {
    if s != [] {
      var sorted := SortByTotalDesc(s[1..]);
      SortRanked(sessions, s[1..]);
      forall y | y in sorted ensures FirstSeen(sessions, s[0].tag) < FirstSeen(sessions, y.tag) {
        assert y in multiset(sorted);
        assert y in s[1..];
        var j :| 0 <= j < |s[1..]| && s[1..][j] == y;
        assert s[j + 1] == y;
      }
      InsertRanked(sessions, s[0], sorted);
    }
  }

  lemma {:induction false} SumsCons(x: TagStats, s: seq<TagStats>)
    ensures SumTotals([x] + s) == x.totalSeconds + SumTotals(s)
    ensures SumCounts([x] + s) == x.sessionCount + SumCounts(s)
  {
    if s != [] {
      var n := |s| - 1;
      assert ([x] + s)[..n + 1] == [x] + s[..n];
      SumsCons(x, s[..n]);
    }
  }

  lemma {:induction false} InsertSums(x: TagStats, s: seq<TagStats>)
    ensures SumTotals(InsertDescending(x, s)) == x.totalSeconds + SumTotals(s)
    ensures SumCounts(InsertDescending(x, s)) == x.sessionCount + SumCounts(s)
  {
    SumsCons(x, s);
    if s != [] && s[0].totalSeconds > x.totalSeconds {
      InsertSums(x, s[1..]);
      SumsCons(s[0], InsertDescending(x, s[1..]));
      SumsCons(s[0], s[1..]);
      assert [s[0]] + s[1..] == s;
    }
  }

  /** Sorting loses no seconds and no sessions. */
  lemma {:induction false} SortSums(s: seq<TagStats>)
    ensures SumTotals(SortByTotalDesc(s)) == SumTotals(s)
    ensures SumCounts(SortByTotalDesc(s)) == SumCounts(s)
  {
    if s != [] {
      assert SortByTotalDesc(s) == InsertDescending(s[0], SortByTotalDesc(s[1..]));
      SortSums(s[1..]);
      InsertSums(s[0], SortByTotalDesc(s[1..]));
      SumsCons(s[0], s[1..]);
      assert [s[0]] + s[1..] == s;
    }
  }

  /** The value `getTagStats` returns. */
  function TagStatsOf(sessions: seq<StudySession>): (r: seq<TagStats>)
    ensures multiset(r) == multiset(GroupByTag(sessions))
    ensures |r| <= |sessions|
    ensures r == [] <==> sessions == []
  {
    var g := GroupByTag(sessions);
    var r := SortByTotalDesc(g);
    assert |r| == |multiset(r)| == |multiset(g)| == |g|;
    r
  }

  /** Reordering the entries keeps each one correct. */
  lemma CountedPermuted(sessions: seq<StudySession>, g: seq<TagStats>, r: seq<TagStats>)
    requires multiset(g) == multiset(r)
    requires EntriesCounted(sessions, g)
    ensures EntriesCounted(sessions, r)
  {
    forall i | 0 <= i < |r|
      ensures r[i].totalSeconds == TotalFor(sessions, r[i].tag)
      ensures r[i].sessionCount == CountFor(sessions, r[i].tag)
      ensures FirstSeen(sessions, r[i].tag) < |sessions|
    {
      assert r[i] in multiset(g);
      var k :| 0 <= k < |g| && g[k] == r[i];
    }
  }

  /** Reordering the entries keeps every label covered. */
  lemma CoveredPermuted(sessions: seq<StudySession>, g: seq<TagStats>, r: seq<TagStats>)
    requires multiset(g) == multiset(r)
    requires LabelsCovered(sessions, g)
    ensures LabelsCovered(sessions, r)
  {
    forall j | 0 <= j < |sessions| ensures IndexOfTag(r, TagLabel(sessions[j].tag)) >= 0 {
      var e := g[IndexOfTag(g, TagLabel(sessions[j].tag))];
      assert e in multiset(r);
      var k :| 0 <= k < |r| && r[k] == e;
    }
  }

  /** In a ranked list of correct entries no label appears twice: equal labels
      would mean equal totals and the same first-seen index. */
  lemma RankedDistinct(sessions: seq<StudySession>, r: seq<TagStats>)
    requires EntriesCounted(sessions, r) && Ranked(sessions, r)
    ensures forall i, j :: 0 <= i < j < |r| ==> r[i].tag != r[j].tag
  {
    forall i, j | 0 <= i < j < |r| ensures r[i].tag != r[j].tag {
      assert RankedBefore(sessions, r[i], r[j]);
    }
  }

  /** Everything `getTagStats` promises: every entry holds its own label's seconds and
      session count, every label of the log has an entry and none has two, entries
      run from most to fewest seconds with ties in first-seen order, and the totals
      add up to the whole log. */
  lemma TagStatsCorrect(sessions: seq<StudySession>)
    ensures EntriesCounted(sessions, TagStatsOf(sessions))
    ensures LabelsCovered(sessions, TagStatsOf(sessions))
    ensures forall i, j :: 0 <= i < j < |TagStatsOf(sessions)| ==>
      TagStatsOf(sessions)[i].tag != TagStatsOf(sessions)[j].tag
    ensures Ranked(sessions, TagStatsOf(sessions))
    ensures SumTotals(TagStatsOf(sessions)) == SumDurations(sessions)
    ensures SumCounts(TagStatsOf(sessions)) == |sessions|
  {
    var g := GroupByTag(sessions);
    var r := TagStatsOf(sessions);
    GroupByTagCorrect(sessions);
    SortRanked(sessions, g);
    SortSums(g);
    CountedPermuted(sessions, g, r);
    CoveredPermuted(sessions, g, r);
    RankedDistinct(sessions, r);
  }

  /** Equal totals keep first-seen order: Math 600 s, Math 300 s, Physics 900 s
      give Math before Physics. */
  lemma TieKeepsFirstSeenOrder()
    ensures TagStatsOf([
      StudySession("1", "d", 600, true, "Math"),
      StudySession("2", "d", 300, true, "Math"),
      StudySession("3", "d", 900, true, "Physics")])
      == [TagStats("Math", 900, 2), TagStats("Physics", 900, 1)]
  {
    var s := [
      StudySession("1", "d", 600, true, "Math"),
      StudySession("2", "d", 300, true, "Math"),
      StudySession("3", "d", 900, true, "Physics")];
    assert s[..2][..1] == [s[0]];
    assert s[..2] == [s[0], s[1]];
    assert GroupByTag([s[0]]) == [TagStats("Math", 600, 1)];
    assert GroupByTag(s[..2]) == [TagStats("Math", 900, 2)];
    assert GroupByTag(s) == [TagStats("Math", 900, 2), TagStats("Physics", 900, 1)];
  }
}
