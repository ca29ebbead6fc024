/** The subject picker shown before a session starts: a free-text field whose
    trimmed content becomes the current tag, and the recent tags as buttons. */
module TagSelector {

  import opened TimerStore

  /** The characters `String.prototype.trim` removes: WhiteSpace and
      LineTerminator of sections 11.2 and 11.3 of ECMA-262 (10th edition). */
  const WHITE_SPACE: seq<char> := [
    '\t', '\n', '\U{000B}', '\U{000C}', '\r', ' ', '\U{00A0}', '\U{1680}',
    '\U{2000}', '\U{2001}', '\U{2002}', '\U{2003}', '\U{2004}', '\U{2005}',
    '\U{2006}', '\U{2007}', '\U{2008}', '\U{2009}', '\U{200A}',
    '\U{2028}', '\U{2029}', '\U{202F}', '\U{205F}', '\U{3000}', '\U{FEFF}'
  ]

  predicate IsWhiteSpace(c: char)
  {
    Among(c, WHITE_SPACE)
  }

  /** Membership, spelled out one character at a time. */
  predicate Among(c: char, cs: seq<char>)
  {
    cs != [] && (cs[0] == c || Among(c, cs[1..]))
  }

  /** How many white-space characters s starts with. */
  function LeadingWhiteSpace(s: string): (k: nat)
    ensures k <= |s|
    ensures forall i :: 0 <= i < k ==> IsWhiteSpace(s[i])
    ensures k < |s| ==> !IsWhiteSpace(s[k])
  {
    if s == [] || !IsWhiteSpace(s[0]) then 0 else 1 + LeadingWhiteSpace(s[1..])
  }

  /** How many white-space characters s ends with. */
  function TrailingWhiteSpace(s: string): (k: nat)
    ensures k <= |s|
    ensures forall i :: |s| - k <= i < |s| ==> IsWhiteSpace(s[i])
    ensures k < |s| ==> !IsWhiteSpace(s[|s| - k - 1])
  {
    if s == [] || !IsWhiteSpace(s[|s| - 1]) then 0
    else 1 + TrailingWhiteSpace(s[..|s| - 1])
  }

  /** `s.trim()`: s without the white space at either end. What is kept is the
      slice of s between its leading and its trailing white space. */
  function Trim(s: string): (r: string)
    ensures r == [] <==> forall i :: 0 <= i < |s| ==> IsWhiteSpace(s[i])
    ensures r != [] ==> !IsWhiteSpace(r[0]) && !IsWhiteSpace(r[|r| - 1])
    ensures var k := LeadingWhiteSpace(s);
      && k + |r| <= |s|
      && r == s[k..k + |r|]
      && (forall i :: k + |r| <= i < |s| ==> IsWhiteSpace(s[i]))
  {
    var a := LeadingWhiteSpace(s);
    var b := TrailingWhiteSpace(s[a..]);
    TrimmedSlice(s, a, b);
    s[a..|s| - b]
  }

  /** The slice between a white-space prefix and a white-space suffix that stop
      at non-white-space characters. */
  lemma TrimmedSlice(s: string, a: nat, b: nat)
    requires a == LeadingWhiteSpace(s) && b == TrailingWhiteSpace(s[a..])
    ensures a + b <= |s|
    ensures var r := s[a..|s| - b];
      && (r == [] <==> forall i :: 0 <= i < |s| ==> IsWhiteSpace(s[i]))
      && (r != [] ==> !IsWhiteSpace(r[0]) && !IsWhiteSpace(r[|r| - 1]))
      && (forall i :: |s| - b <= i < |s| ==> IsWhiteSpace(s[i]))
  {
    var rest := s[a..];
    forall i | |s| - b <= i < |s| ensures IsWhiteSpace(s[i]) {
      assert s[i] == rest[i - a];
    }
    if a < |s| {
      assert !IsWhiteSpace(s[a]);
      if b < |rest| {
        assert s[|s| - b - 1] == rest[|rest| - b - 1];
      }
    }
  }

  /** Trimming twice is trimming once. */
  lemma TrimIdempotent(s: string)
    ensures Trim(Trim(s)) == Trim(s)
  {
    var r := Trim(s);
    assert LeadingWhiteSpace(r) == 0;
    assert TrailingWhiteSpace(r[0..]) == 0;
  }

  /** `!newTag.trim()`: the add button is disabled when nothing but white space was typed. */
  function AddDisabled(newTag: string): (r: bool)
    ensures r <==> forall i :: 0 <= i < |newTag| ==> IsWhiteSpace(newTag[i])
  {
    Trim(newTag) == []
  }

  /** The recent-tags row is rendered only when there is a recent tag. */
  predicate RecentListShown(recentTags: seq<string>)
  {
    |recentTags| > 0
  }

  /** Once a session has been completed the recent-tags row is always shown: it
      starts with the tag just recorded. */
  lemma RecentListShownAfterSession(st: TimerState, completed: bool, id: string, date: string, nowIso: string)
    requires st.timeRemaining <= st.duration
    ensures var after := AfterCompletion(st, completed, id, date, nowIso);
      RecentListShown(after.recentTags) && after.recentTags[0] == TimerTypes.TagLabel(st.currentTag)
  {
  }

  /** The recent tags are keyed by their own text, which is sound because the
      store never holds a tag twice (nor an empty one). */
  lemma RecentTagsAreKeys(store: Store)
    requires store.Valid()
    ensures NoDuplicates(store.recentTags)
    ensures forall i :: 0 <= i < |store.recentTags| ==> store.recentTags[i] != ""
  {
  }

  /** The component's local state: the text of the new-tag field. */
  class Selector {
    var newTag: string

    constructor ()
      ensures newTag == ""
    {
      newTag := "";
    }

    /** `onChangeText={setNewTag}`: the field keeps whatever is typed. */
    method SetNewTag(text: string)
      modifies this
      ensures newTag == text
    {
      newTag := text;
    }

    /** `handleSelectTag`: a recent tag becomes the current tag as it is, and
        `onTagSelected` is called (`selected`). */
    method HandleSelectTag(store: Store, tag: string) returns (selected: bool)
      requires store.Valid()
      modifies store
      ensures store.Valid()
      ensures store.State() == old(store.State()).(currentTag := tag)
      ensures selected
    {
      store.SetCurrentTag(tag);
      selected := true;
    }

    /** `handleAddNewTag`: when the trimmed text is not empty it becomes the current
        tag and `onTagSelected` is called (`selected`); otherwise nothing happens,
        which is exactly when the add button is disabled. */
    method HandleAddNewTag(store: Store) returns (selected: bool)
      requires store.Valid()
      modifies store
      ensures store.Valid()
      ensures selected <==> !AddDisabled(newTag)
      ensures selected ==> store.State() == old(store.State()).(currentTag := Trim(newTag))
      ensures selected ==>
                store.currentTag != ""
                && !IsWhiteSpace(store.currentTag[0])
                && !IsWhiteSpace(store.currentTag[|store.currentTag| - 1])
      ensures !selected ==> store.State() == old(store.State())
    {
      var trimmed := Trim(newTag);
      if trimmed != [] {
        store.SetCurrentTag(trimmed);
        selected := true;
      } else {
        selected := false;
      }
    }
  }
}
