/** The timer/session store: one state object whose actions each overwrite a few
    of its fields. The engine itself guards no transition (the controls screen does),
    so every action is callable in every state; what every action keeps is the
    consistency predicate `Consistent`. */
module TimerStore {

  import opened TimerTypes
  import DateUtils
  import TagStatistics

  const MAX_DURATION := 7200
  const MIN_DAILY_TARGET := 4 * 60 * 60
  const MAX_DAILY_TARGET := 9 * 60 * 60
  const MAX_RECENT_TAGS := 5

  /** The persisted fields of the store. */
  datatype TimerState = TimerState(
    duration: int,
    timeRemaining: int,
    isRunning: bool,
    isPaused: bool,
    sessions: seq<StudySession>,
    dailyTarget: int,
    dailyProgress: seq<DailyProgress>,
    currentTag: string,
    recentTags: seq<string>)

  /** The state a fresh install starts in. */
  const INITIAL_STATE := TimerState(1500, 1500, false, false, [], 4 * 60 * 60, [], "", [])

  predicate NoDuplicates(tags: seq<string>)
  {
    forall i, j :: 0 <= i < j < |tags| ==> tags[i] != tags[j]
  }

  predicate DistinctDates(progress: seq<DailyProgress>)
  {
    forall i, j :: 0 <= i < j < |progress| ==> progress[i].date != progress[j].date
  }

  /** Seconds recorded across all dates. */
  function SumProgress(progress: seq<DailyProgress>): nat
  {
    if progress == [] then 0
    else SumProgress(progress[..|progress| - 1]) + progress[|progress| - 1].totalSeconds
  }

  /** What holds of the store in every state its actions reach. */
  ghost predicate Consistent(st: TimerState)
  {
    && st.timeRemaining <= st.duration <= MAX_DURATION
    && !(st.isRunning && st.isPaused)
    && MIN_DAILY_TARGET <= st.dailyTarget <= MAX_DAILY_TARGET
    && DistinctDates(st.dailyProgress)
    && SumProgress(st.dailyProgress) == SumDurations(st.sessions)
    && |st.recentTags| <= MAX_RECENT_TAGS
    && NoDuplicates(st.recentTags)
    && (forall i :: 0 <= i < |st.recentTags| ==> st.recentTags[i] != "")
    && (forall i :: 0 <= i < |st.sessions| ==> st.sessions[i].tag != "")
  }

  lemma InitialStateConsistent()
    ensures Consistent(INITIAL_STATE)
  {
  }

  // ---------------------------------------------------------------------------
  // Pure parts of the actions

  /** `Math.min(duration, MAX_DURATION)`: capped from above only. */
  function ClampDuration(d: int): (r: int)
    ensures r <= MAX_DURATION
    ensures r == d || r == MAX_DURATION
    ensures d <= MAX_DURATION <==> r == d
  {
    if d < MAX_DURATION then d else MAX_DURATION
  }

  /** `Math.max(MIN_DAILY_TARGET, Math.min(hours * 3600, MAX_DAILY_TARGET))`. */
  function ClampDailyTarget(hours: int): (r: int)
    ensures MIN_DAILY_TARGET <= r <= MAX_DAILY_TARGET
    ensures 4 <= hours <= 9 <==> r == hours * 3600
    ensures hours <= 4 ==> r == MIN_DAILY_TARGET
    ensures hours >= 9 ==> r == MAX_DAILY_TARGET
  {
    var s := hours * 60 * 60;
    var capped := if s < MAX_DAILY_TARGET then s else MAX_DAILY_TARGET;
    if MIN_DAILY_TARGET < capped then capped else MIN_DAILY_TARGET
  }

  /** `findIndex(p => p.date === date)`: the first index holding `date`, or -1. */
  function FirstDateIndex(progress: seq<DailyProgress>, date: string): (i: int)
    ensures -1 <= i < |progress|
    ensures i >= 0 ==> progress[i].date == date
    ensures forall j :: 0 <= j < |progress| && (i < 0 || j < i) ==> progress[j].date != date
  {
    if progress == [] then -1
    else if progress[0].date == date then 0
    else
      var k := FirstDateIndex(progress[1..], date);
      if k < 0 then -1 else k + 1
  }

  /** The daily-progress update of `completeSession`: add `amount` to the first entry
      for `date`, or append a new entry when there is none. */
  function AddProgress(progress: seq<DailyProgress>, date: string, amount: nat): (r: seq<DailyProgress>)
    ensures FirstDateIndex(progress, date) >= 0 ==>
      var i := FirstDateIndex(progress, date);
      && |r| == |progress|
      && r[i] == progress[i].(totalSeconds := progress[i].totalSeconds + amount)
      && forall j :: 0 <= j < |r| && j != i ==> r[j] == progress[j]
    ensures FirstDateIndex(progress, date) < 0 ==> r == progress + [DailyProgress(date, amount)]
  {
    var i := FirstDateIndex(progress, date);
    if i >= 0 then
      progress[i := progress[i].(totalSeconds := progress[i].totalSeconds + amount)]
    else
      progress + [DailyProgress(date, amount)]
  }

  /** Seconds recorded for `date`, as the screens read them
      (`find(p => p.date === today)`, or 0 when there is no entry). */
  function SecondsOn(progress: seq<DailyProgress>, date: string): nat
  {
    var i := FirstDateIndex(progress, date);
    if i >= 0 then progress[i].totalSeconds else 0
  }

  /** `tags.filter(t => t !== tag)`. */
  function Without(tags: seq<string>, tag: string): (r: seq<string>)
    ensures |r| <= |tags|
    ensures forall u :: u in r <==> u in tags && u != tag
  {
    if tags == [] then []
    else (if tags[0] == tag then [] else [tags[0]]) + Without(tags[1..], tag)
  }

  /** The recent-tags update of `completeSession`: drop `tag`, put it in front,
      keep the first MAX_RECENT_TAGS. */
  function RecentTagsAfter(tags: seq<string>, tag: string): (r: seq<string>)
    ensures 1 <= |r| <= MAX_RECENT_TAGS && r[0] == tag
    ensures |r| == if |Without(tags, tag)| < MAX_RECENT_TAGS then |Without(tags, tag)| + 1 else MAX_RECENT_TAGS
    ensures forall u :: u in r ==> u == tag || u in tags
  {
    var moved := [tag] + Without(tags, tag);
    if |moved| <= MAX_RECENT_TAGS then moved else moved[..MAX_RECENT_TAGS]
  }

  /** The state `completeSession(completed)` leaves behind: the elapsed part of the
      session logged under the current tag (or "Untagged") and added to today's
      progress, the tag moved to the front of the recent tags, and the timer idle
      at its full duration with the tag cleared. */
  function AfterCompletion(st: TimerState, completed: bool, id: string, date: string, nowIso: string): (r: TimerState)
    requires st.timeRemaining <= st.duration
    ensures r.duration == st.duration && r.dailyTarget == st.dailyTarget
    ensures r.timeRemaining == st.duration && !r.isRunning && !r.isPaused && r.currentTag == ""
  {
    var amount := (st.duration - st.timeRemaining) as nat;
    var tag := TagLabel(st.currentTag);
    st.(sessions := st.sessions + [StudySession(id, date, amount, completed, tag)],
        dailyProgress := AddProgress(st.dailyProgress, DateUtils.DatePart(nowIso), amount),
        timeRemaining := st.duration,
        isRunning := false,
        isPaused := false,
        recentTags := RecentTagsAfter(st.recentTags, tag),
        currentTag := "")
  }

  // ---------------------------------------------------------------------------
  // The store

  class Store {
    var duration: int
    var timeRemaining: int
    var isRunning: bool
    var isPaused: bool
    var sessions: seq<StudySession>
    var dailyTarget: int
    var dailyProgress: seq<DailyProgress>
    var currentTag: string
    var recentTags: seq<string>

    function State(): TimerState
      reads this
    {
      TimerState(duration, timeRemaining, isRunning, isPaused, sessions,
                 dailyTarget, dailyProgress, currentTag, recentTags)
    }

    ghost predicate Valid()
      reads this
    {
      Consistent(State())
    }

    /** The store before anything is persisted: 25 minutes, a 4 hour target, no log. */
    constructor ()
      ensures Valid() && State() == INITIAL_STATE
    {
      duration, timeRemaining := 1500, 1500;
      isRunning, isPaused := false, false;
      sessions := [];
      dailyTarget := 4 * 60 * 60;
      dailyProgress := [];
      currentTag := "";
      recentTags := [];
    }

    /** `setDuration`: the capped value becomes both the length and the time left. */
    method SetDuration(d: int)
      requires Valid()
      modifies this
      ensures Valid()
      ensures State() == old(State()).(duration := ClampDuration(d), timeRemaining := ClampDuration(d))
    {
      var validDuration := ClampDuration(d);
      duration := validDuration;
      timeRemaining := validDuration;
    }

    /** `startTimer`. */
    method StartTimer()
      requires Valid()
      modifies this
      ensures Valid()
      ensures State() == old(State()).(isRunning := true, isPaused := false)
    {
      isRunning := true;
      isPaused := false;
    }

    /** `pauseTimer`: the time left is kept as it is. */
    method PauseTimer()
      requires Valid()
      modifies this
      ensures Valid()
      ensures State() == old(State()).(isRunning := false, isPaused := true)
    {
      isRunning := false;
      isPaused := true;
    }

    /** `resumeTimer`. */
    method ResumeTimer()
      requires Valid()
      modifies this
      ensures Valid()
      ensures State() == old(State()).(isRunning := true, isPaused := false)
    {
      isRunning := true;
      isPaused := false;
    }

    /** `resetTimer`: back to idle with the full duration; nothing is logged and the
        current tag is kept. */
    method ResetTimer()
      requires Valid()
      modifies this
      ensures Valid()
      ensures State() == old(State()).(timeRemaining := old(duration), isRunning := false, isPaused := false)
    {
      timeRemaining := duration;
      isRunning := false;
      isPaused := false;
    }

    /** `setCurrentTag`: stored as given. */
    method SetCurrentTag(tag: string)
      requires Valid()
      modifies this
      ensures Valid()
      ensures State() == old(State()).(currentTag := tag)
    {
      currentTag := tag;
    }

    /** `setDailyTarget`: hours are turned into seconds and clamped to [4 h, 9 h]. */
    method SetDailyTarget(hours: int)
      requires Valid()
      modifies this
      ensures Valid()
      ensures State() == old(State()).(dailyTarget := ClampDailyTarget(hours))
    {
      dailyTarget := ClampDailyTarget(hours);
    }

    /** The daily-progress part of `completeSession`: a copy of the list with the
        session's seconds added to today's entry, or a new entry for today. */
    static method UpdatedProgress(currentProgress: seq<DailyProgress>, today: string, sessionDuration: nat)
      returns (updatedProgress: seq<DailyProgress>)
      ensures updatedProgress == AddProgress(currentProgress, today, sessionDuration)
    {
      var todayProgressIndex := FindDateIndex(currentProgress, today);
      updatedProgress := currentProgress;
      if todayProgressIndex >= 0 {
        updatedProgress := updatedProgress[todayProgressIndex :=
          updatedProgress[todayProgressIndex].(totalSeconds :=
            updatedProgress[todayProgressIndex].totalSeconds + sessionDuration)];
      } else {
        updatedProgress := updatedProgress + [DailyProgress(today, sessionDuration)];
      }
    }

    /** `findIndex` over the daily progress list. */
    static method FindDateIndex(progress: seq<DailyProgress>, date: string) returns (idx: int)
      ensures idx == FirstDateIndex(progress, date)
      ensures -1 <= idx < |progress|
      ensures idx >= 0 ==> progress[idx].date == date
      ensures forall j :: 0 <= j < |progress| && (idx < 0 || j < idx) ==> progress[j].date != date
    {
      var i := 0;
      while i < |progress|
        invariant 0 <= i <= |progress|
        invariant forall j :: 0 <= j < i ==> progress[j].date != date
      {
        if progress[i].date == date {
          return i;
        }
        i := i + 1;
      }
      return -1;
    }

    /** `completeSession(completed)`. The clock readings `Date.now().toString()` and
        `new Date().toISOString()` (read twice in the source, once for the session and
        once for today's date) come in as `id`, `date` and `nowIso`. */
    method CompleteSession(completed: bool, id: string, date: string, nowIso: string)
      requires Valid()
      modifies this
      ensures Valid()
      ensures State() == AfterCompletion(old(State()), completed, id, date, nowIso)
    {
      ghost var before := State();
      var sessionDuration: nat := duration - timeRemaining;
      var tag := TagLabel(currentTag);
      var newSession := StudySession(id, date, sessionDuration, completed, tag);

      var today := DateUtils.DatePart(nowIso);
      var currentProgress := dailyProgress;
      var updatedProgress := UpdatedProgress(currentProgress, today, sessionDuration);

      var updatedRecentTags := RecentTagsAfter(recentTags, tag);

      // The one `set(state => ({ ... }))` call.
      sessions, dailyProgress, timeRemaining, isRunning, isPaused, recentTags, currentTag :=
        sessions + [newSession], updatedProgress, duration, false, false, updatedRecentTags, "";
      assert sessions == before.sessions + [newSession];
      assert dailyProgress == AddProgress(before.dailyProgress, today, sessionDuration);
      assert recentTags == RecentTagsAfter(before.recentTags, TagLabel(before.currentTag));
      assert State() == AfterCompletion(before, completed, id, date, nowIso);
      CompletionConsistent(before, completed, id, date, nowIso);
    }

    /** `getTagStats`: reads the log and changes nothing. */
    method GetTagStats() returns (stats: seq<TagStats>)
      ensures stats == TagStatistics.TagStatsOf(sessions)
    {
      var logged := sessions;
      var tagMap: seq<TagStats> := [];
      var i := 0;
      while i < |logged|
        invariant 0 <= i <= |logged|
        invariant tagMap == TagStatistics.GroupByTag(logged[..i])
      {
        var session := logged[i];
        assert logged[..i + 1] == logged[..i] + [session];
        ghost var grouped := tagMap;
        var tag := TagLabel(session.tag);
        var k := TagStatistics.IndexOfTag(tagMap, tag);
        if k >= 0 {
          tagMap := tagMap[k := TagStats(tag, tagMap[k].totalSeconds + session.duration, tagMap[k].sessionCount + 1)];
        } else {
          tagMap := tagMap + [TagStats(tag, session.duration, 1)];
        }
        assert tagMap == TagStatistics.AddSession(grouped, session);
        i := i + 1;
      }
      assert logged[..i] == logged;
      stats := TagStatistics.SortByTotalDesc(tagMap);
    }
  }

  // ---------------------------------------------------------------------------
  // Properties of the updates

  lemma SumDurationsAppend(sessions: seq<StudySession>, s: StudySession)
    ensures SumDurations(sessions + [s]) == SumDurations(sessions) + s.duration
  {
    assert (sessions + [s])[..|sessions|] == sessions;
  }

  lemma {:induction false} SumProgressUpdate(progress: seq<DailyProgress>, k: nat, e: DailyProgress)
    requires k < |progress|
    ensures SumProgress(progress[k := e]) == SumProgress(progress) - progress[k].totalSeconds + e.totalSeconds
  {
    var n := |progress| - 1;
    assert progress[k := e][..n] == if k == n then progress[..n] else progress[..n][k := e];
    if k < n {
      SumProgressUpdate(progress[..n], k, e);
    }
  }

  /** The daily-progress update keeps dates distinct and adds exactly the
      session's seconds to the overall total. */
  lemma AddProgressConsistent(progress: seq<DailyProgress>, date: string, amount: nat)
    ensures var r := AddProgress(progress, date, amount);
      && (DistinctDates(progress) ==> DistinctDates(r))
      && SumProgress(r) == SumProgress(progress) + amount
  {
    var i := FirstDateIndex(progress, date);
    var r := AddProgress(progress, date, amount);
    if i >= 0 {
      SumProgressUpdate(progress, i, r[i]);
      assert forall j :: 0 <= j < |r| ==> r[j].date == progress[j].date;
    } else {
      assert r[..|progress|] == progress;
    }
  }

  /** What the screens read after the update: today's seconds grow by the session,
      every other date reads as before. */
  lemma AddProgressSecondsOn(progress: seq<DailyProgress>, date: string, amount: nat, other: string)
    ensures SecondsOn(AddProgress(progress, date, amount), date) == SecondsOn(progress, date) + amount
    ensures other != date ==> SecondsOn(AddProgress(progress, date, amount), other) == SecondsOn(progress, other)
  {
    var i := FirstDateIndex(progress, date);
    var r := AddProgress(progress, date, amount);
    var k := FirstDateIndex(progress, other);
    assert forall j :: 0 <= j < |progress| ==> r[j].date == progress[j].date;
    if i < 0 {
      assert r[..|progress|] == progress;
      assert r[|progress|].date == date;
      assert FirstDateIndex(r, date) == |progress|;
    } else {
      assert FirstDateIndex(r, date) == i;
    }
    var m := FirstDateIndex(r, other);
    if other != date {
      if k >= 0 {
        assert m == k;
      } else {
        assert m < 0;
      }
    }
  }

  /** Filtering keeps the other tags in order: the result is a subsequence. */
  predicate IsSubsequence(a: seq<string>, b: seq<string>)
    decreases |b|
  {
    a == [] || (b != [] && (if a[0] == b[0] then IsSubsequence(a[1..], b[1..]) else IsSubsequence(a, b[1..])))
  }

  lemma {:induction false} WithoutSubsequence(tags: seq<string>, tag: string)
    ensures IsSubsequence(Without(tags, tag), tags)
  {
    if tags != [] {
      WithoutSubsequence(tags[1..], tag);
      var rest := Without(tags[1..], tag);
      if tags[0] != tag {
        assert Without(tags, tag) == [tags[0]] + rest;
        assert ([tags[0]] + rest)[1..] == rest;
      } else {
        assert Without(tags, tag) == rest;
        SubsequenceDropFront(rest, tags);
      }
    }
  }

  lemma {:induction false} SubsequenceDropFront(a: seq<string>, b: seq<string>)
    requires b != [] && IsSubsequence(a, b[1..])
    ensures IsSubsequence(a, b)
    decreases |b|, |a|
  {
    if a != [] && a[0] == b[0] {
      SubsequenceTail(a, b[1..]);
    }
  }

  lemma {:induction false} SubsequenceTail(a: seq<string>, b: seq<string>)
    requires a != [] && IsSubsequence(a, b)
    ensures IsSubsequence(a[1..], b)
    decreases |b|, |a|
  {
    if a[0] == b[0] {
      SubsequenceDropFront(a[1..], b);
    } else {
      SubsequenceTail(a, b[1..]);
      SubsequenceDropFront(a[1..], b);
    }
  }

  lemma {:induction false} SubsequencePrefix(a: seq<string>, b: seq<string>, n: nat)
    requires IsSubsequence(a, b) && n <= |a|
    ensures IsSubsequence(a[..n], b)
    decreases |b|
  {
    if n > 0 {
      if a[0] == b[0] {
        SubsequencePrefix(a[1..], b[1..], n - 1);
        assert a[..n][1..] == a[1..][..n - 1];
      } else {
        SubsequencePrefix(a, b[1..], n);
      }
    }
  }

  lemma {:induction false} WithoutNoDuplicates(tags: seq<string>, tag: string)
    requires NoDuplicates(tags)
    ensures NoDuplicates(Without(tags, tag))
    ensures tag in tags ==> |Without(tags, tag)| == |tags| - 1
    ensures tag !in tags ==> Without(tags, tag) == tags
  {
    if tags != [] {
      assert NoDuplicates(tags[1..]) by {
        forall i, j | 0 <= i < j < |tags[1..]| ensures tags[1..][i] != tags[1..][j] {
          assert tags[1..][i] == tags[i + 1] && tags[1..][j] == tags[j + 1];
        }
      }
      WithoutNoDuplicates(tags[1..], tag);
      var rest := Without(tags[1..], tag);
      assert tags[0] !in tags[1..];
      if tags[0] == tag {
        assert Without(tags, tag) == rest;
      } else {
        var r := [tags[0]] + rest;
        assert Without(tags, tag) == r;
        assert tags[0] !in rest;
        forall i, j | 0 <= i < j < |r| ensures r[i] != r[j] {
          if i == 0 { assert r[j] in rest; } else { assert r[i] == rest[i - 1] && r[j] == rest[j - 1]; }
        }
        assert tags == [tags[0]] + tags[1..];
      }
    }
  }

  /** The recent-tags update: the recorded tag is first, the list holds at most five
      tags, stays free of duplicates, keeps the others in their old order, grows
      only when the tag is new, and never admits the empty tag. */
  lemma RecentTagsAfterConsistent(tags: seq<string>, tag: string)
    ensures var r := RecentTagsAfter(tags, tag);
      && |r| >= 1 && r[0] == tag
      && |r| <= MAX_RECENT_TAGS
      && IsSubsequence(r[1..], tags)
      && r[1..] == Without(tags, tag)[..|r| - 1]
      && (NoDuplicates(tags) && tag !in tags && |tags| == MAX_RECENT_TAGS ==>
            r == [tag] + tags[..MAX_RECENT_TAGS - 1])
      && (NoDuplicates(tags) ==> NoDuplicates(r))
      && (NoDuplicates(tags) && |tags| <= MAX_RECENT_TAGS && tag in tags ==> |r| == |tags|)
      && (NoDuplicates(tags) && tag !in tags ==>
            |r| == if |tags| < MAX_RECENT_TAGS then |tags| + 1 else MAX_RECENT_TAGS)
      && ((forall i :: 0 <= i < |tags| ==> tags[i] != "") && tag != "" ==>
            forall i :: 0 <= i < |r| ==> r[i] != "")
  {
    RecentTagsTail(tags, tag);
    if NoDuplicates(tags) {
      RecentTagsDistinct(tags, tag);
      WithoutNoDuplicates(tags, tag);
    }
    RecentTagsNonEmpty(tags, tag);
  }

  /** After the head come the filtered old tags, cut to fit. */
  lemma RecentTagsTail(tags: seq<string>, tag: string)
    ensures var r := RecentTagsAfter(tags, tag);
      && r[1..] == Without(tags, tag)[..|r| - 1]
      && IsSubsequence(r[1..], tags)
  {
    var w := Without(tags, tag);
    var r := RecentTagsAfter(tags, tag);
    assert r[1..] == w[..|r| - 1];
    WithoutSubsequence(tags, tag);
    SubsequencePrefix(w, tags, |r| - 1);
  }

  lemma RecentTagsDistinct(tags: seq<string>, tag: string)
    requires NoDuplicates(tags)
    ensures NoDuplicates(RecentTagsAfter(tags, tag))
  {
    var w := Without(tags, tag);
    var r := RecentTagsAfter(tags, tag);
    WithoutNoDuplicates(tags, tag);
    RecentTagsTail(tags, tag);
    forall i, j | 0 <= i < j < |r| ensures r[i] != r[j] {
      assert r[j] == w[j - 1] && w[j - 1] in w;
      if i > 0 { assert r[i] == w[i - 1]; }
    }
  }

  lemma RecentTagsNonEmpty(tags: seq<string>, tag: string)
    ensures var r := RecentTagsAfter(tags, tag);
      (forall i :: 0 <= i < |tags| ==> tags[i] != "") && tag != "" ==>
        forall i :: 0 <= i < |r| ==> r[i] != ""
  {
    var r := RecentTagsAfter(tags, tag);
    forall i | 0 <= i < |r| ensures (forall k :: 0 <= k < |tags| ==> tags[k] != "") && tag != "" ==> r[i] != "" {
      assert r[i] in r;
    }
  }

  /** Re-selecting a tag that is already recent moves it to the front without growing the list. */
  lemma ReselectTagDoesNotGrow()
    ensures RecentTagsAfter(["Math", "Physics", "Art"], "Physics") == ["Physics", "Math", "Art"]
  {
    assert Without(["Math", "Physics", "Art"], "Physics") == ["Math", "Art"] by {
      assert ["Math", "Physics", "Art"][1..] == ["Physics", "Art"];
      assert ["Physics", "Art"][1..] == ["Art"];
      assert ["Art"][1..] == [];
    }
  }

  /** `completeSession` keeps the store consistent. */
  lemma CompletionConsistent(st: TimerState, completed: bool, id: string, date: string, nowIso: string)
    requires Consistent(st)
    ensures Consistent(AfterCompletion(st, completed, id, date, nowIso))
  {
    var amount := (st.duration - st.timeRemaining) as nat;
    var tag := TagLabel(st.currentTag);
    var s := StudySession(id, date, amount, completed, tag);
    var r := AfterCompletion(st, completed, id, date, nowIso);
    assert r.sessions == st.sessions + [s];
    assert DistinctDates(r.dailyProgress) && SumProgress(r.dailyProgress) == SumDurations(r.sessions) by {
      AddProgressConsistent(st.dailyProgress, DateUtils.DatePart(nowIso), amount);
      SumDurationsAppend(st.sessions, s);
    }
    assert |r.recentTags| <= MAX_RECENT_TAGS && NoDuplicates(r.recentTags)
      && (forall i :: 0 <= i < |r.recentTags| ==> r.recentTags[i] != "") by {
      RecentTagsStayValid(st.recentTags, tag);
    }
    assert forall i :: 0 <= i < |r.sessions| ==> r.sessions[i].tag != "" by {
      LoggedTagsStayNonEmpty(st.sessions, s);
    }
  }

  /** The recent-tags part of the invariant survives recording a non-empty tag. */
  lemma RecentTagsStayValid(tags: seq<string>, tag: string)
    requires |tags| <= MAX_RECENT_TAGS && NoDuplicates(tags)
    requires forall i :: 0 <= i < |tags| ==> tags[i] != ""
    requires tag != ""
    ensures var r := RecentTagsAfter(tags, tag);
      && |r| <= MAX_RECENT_TAGS && NoDuplicates(r)
      && forall i :: 0 <= i < |r| ==> r[i] != ""
  {
    RecentTagsAfterConsistent(tags, tag);
  }

  /** Appending a session with a non-empty tag keeps every logged tag non-empty. */
  lemma LoggedTagsStayNonEmpty(sessions: seq<StudySession>, s: StudySession)
    requires forall i :: 0 <= i < |sessions| ==> sessions[i].tag != ""
    requires s.tag != ""
    ensures forall i :: 0 <= i < |sessions + [s]| ==> (sessions + [s])[i].tag != ""
  {
    forall i | 0 <= i < |sessions + [s]| ensures (sessions + [s])[i].tag != "" {
      if i < |sessions| { assert (sessions + [s])[i] == sessions[i]; }
    }
  }

  /** What `completeSession` records: exactly one new session, at the end, holding the
      elapsed seconds, the completion flag and the tag label; the earlier log, the
      duration and the daily target untouched; the timer idle and the tag cleared. */
  lemma CompletionEffects(st: TimerState, completed: bool, id: string, date: string, nowIso: string)
    requires Consistent(st)
    ensures var r := AfterCompletion(st, completed, id, date, nowIso);
      && |r.sessions| == |st.sessions| + 1
      && r.sessions[..|st.sessions|] == st.sessions
      && r.sessions[|st.sessions|].duration == st.duration - st.timeRemaining
      && r.sessions[|st.sessions|].completed == completed
      && r.sessions[|st.sessions|].tag == (if st.currentTag == "" then UNTAGGED else st.currentTag)
      && r.duration == st.duration && r.dailyTarget == st.dailyTarget
      && r.timeRemaining == r.duration && !r.isRunning && !r.isPaused && r.currentTag == ""
      && SecondsOn(r.dailyProgress, DateUtils.DatePart(nowIso))
           == SecondsOn(st.dailyProgress, DateUtils.DatePart(nowIso)) + (st.duration - st.timeRemaining)
      && r.recentTags[0] == TagLabel(st.currentTag)
  {
    var amount := (st.duration - st.timeRemaining) as nat;
    var tag := TagLabel(st.currentTag);
    var s := StudySession(id, date, amount, completed, tag);
    var r := AfterCompletion(st, completed, id, date, nowIso);
    assert r.sessions == st.sessions + [s];
    assert r.sessions[..|st.sessions|] == st.sessions;
    AddProgressSecondsOn(st.dailyProgress, DateUtils.DatePart(nowIso), amount, "");
    assert r.recentTags[0] == tag by {
      RecentTagsAfterConsistent(st.recentTags, tag);
    }
  }
}
