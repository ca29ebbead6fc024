/** The daily-target editor: a one-digit text field between a minus and a plus
    button, saved (clamped to 4..9 hours) into the store's `dailyTarget`. */
module DailyTargetSetter {

  import opened Text
  import opened TimerStore

  const MIN_HOURS := 4
  const MAX_HOURS := 9

  /** The text the field starts with: the store's target in whole hours. */
  function InitialHours(dailyTarget: int): (hours: string)
    requires dailyTarget >= 0
    ensures AllDigits(hours)
    ensures ParseInt(hours) == Some(dailyTarget / 3600)
    ensures MIN_DAILY_TARGET <= dailyTarget <= MAX_DAILY_TARGET ==>
      |hours| == 1 && MIN_HOURS <= dailyTarget / 3600 <= MAX_HOURS
  {
    ParseIntNatToString(dailyTarget / 3600);
    NatToString(dailyTarget / 3600)
  }

  /** The text after the minus button: one hour less when the text reads as more
      than MIN_HOURS, and the same text otherwise (unreadable text included). */
  function Decreased(hours: string): (r: string)
    ensures r != hours <==> ParseInt(hours).Some? && ParseInt(hours).value > MIN_HOURS
    ensures r != hours ==> ParseInt(r) == Some(ParseInt(hours).value - 1)
    ensures AllDigits(hours) ==> AllDigits(r)
  {
    match ParseInt(hours)
    case Some(v) =>
      if v > MIN_HOURS then ParseIntNatToString(v - 1); NatToString(v - 1) else hours
    case None => hours
  }

  /** The text after the plus button: one hour more when the text reads as less
      than MAX_HOURS, and the same text otherwise. */
  function Increased(hours: string): (r: string)
    ensures r != hours <==> ParseInt(hours).Some? && ParseInt(hours).value < MAX_HOURS
    ensures r != hours ==> ParseInt(r) == Some(ParseInt(hours).value + 1)
    ensures AllDigits(hours) ==> AllDigits(r)
  {
    match ParseInt(hours)
    case Some(v) =>
      if v < MAX_HOURS then ParseIntNatToString(v + 1); NatToString(v + 1) else hours
    case None => hours
  }

  /** The hours `handleSave` passes to the store: MIN_HOURS for text that does not
      read as a number, otherwise the number clamped to MIN_HOURS..MAX_HOURS. */
  function SavedHours(hours: string): (h: int)
    ensures MIN_HOURS <= h <= MAX_HOURS
    ensures ParseInt(hours).None? ==> h == MIN_HOURS
    ensures ParseInt(hours).Some? && MIN_HOURS <= ParseInt(hours).value <= MAX_HOURS ==>
      h == ParseInt(hours).value
    ensures ParseInt(hours).Some? && ParseInt(hours).value < MIN_HOURS ==> h == MIN_HOURS
    ensures ParseInt(hours).Some? && ParseInt(hours).value > MAX_HOURS ==> h == MAX_HOURS
  {
    match ParseInt(hours)
    case None => MIN_HOURS
    case Some(v) =>
      var low := if v < MAX_HOURS then v else MAX_HOURS;
      if MIN_HOURS > low then MIN_HOURS else low
  }

  /** `parseInt(hours) <= MIN_HOURS`; false for unreadable text (NaN). */
  function MinusDisabled(hours: string): (r: bool)
    ensures ParseInt(hours).Some? ==> (r <==> SavedHours(hours) == MIN_HOURS)
  {
    ParseInt(hours).Some? && ParseInt(hours).value <= MIN_HOURS
  }

  /** `parseInt(hours) >= MAX_HOURS`; false for unreadable text (NaN). */
  function PlusDisabled(hours: string): (r: bool)
    ensures ParseInt(hours).Some? ==> (r <==> SavedHours(hours) == MAX_HOURS)
  {
    ParseInt(hours).Some? && ParseInt(hours).value >= MAX_HOURS
  }

  /** On digit text, a button is disabled exactly when pressing it would change
      nothing, except on the empty text, where both are enabled and both do nothing. */
  lemma DisabledMeansNoEffect(hours: string)
    requires AllDigits(hours)
    ensures MinusDisabled(hours) <==> hours != "" && Decreased(hours) == hours
    ensures PlusDisabled(hours) <==> hours != "" && Increased(hours) == hours
    ensures hours == "" ==>
              !MinusDisabled(hours) && !PlusDisabled(hours)
              && Decreased(hours) == hours && Increased(hours) == hours
  {
    if hours != "" {
      assert IsDigit(hours[0]);
    }
  }

  /** What is saved is already in range, so the store keeps exactly that many hours. */
  lemma SavedTargetIsExact(hours: string)
    ensures ClampDailyTarget(SavedHours(hours)) == SavedHours(hours) * 3600
    ensures MIN_DAILY_TARGET <= SavedHours(hours) * 3600 <= MAX_DAILY_TARGET
  {
  }

  /** The component's local state: the text of the hours field. */
  class Setter {
    var hours: string

    /** The only text the handlers let into the field is decimal digits. */
    ghost predicate Valid()
      reads this
    {
      AllDigits(hours)
    }

    constructor (store: Store)
      requires store.Valid()
      ensures Valid() && hours == InitialHours(store.dailyTarget)
    {
      hours := InitialHours(store.dailyTarget);
    }

    /** `decreaseHours`. */
    method DecreaseHours()
      requires Valid()
      modifies this
      ensures Valid() && hours == Decreased(old(hours))
    {
      var currentHours := ParseInt(hours);
      if currentHours.Some? && currentHours.value > MIN_HOURS {
        hours := NatToString(currentHours.value - 1);
      }
    }

    /** `increaseHours`. */
    method IncreaseHours()
      requires Valid()
      modifies this
      ensures Valid() && hours == Increased(old(hours))
    {
      var currentHours := ParseInt(hours);
      if currentHours.Some? && currentHours.value < MAX_HOURS {
        hours := NatToString(currentHours.value + 1);
      }
    }

    /** `handleInputChange`: the text is taken when it is all digits (`/^\d*$/`,
        the empty text included) and ignored otherwise. */
    method HandleInputChange(text: string)
      requires Valid()
      modifies this
      ensures Valid()
      ensures AllDigits(text) ==> hours == text
      ensures !AllDigits(text) ==> hours == old(hours)
    {
      if AllDigits(text) {
        hours := text;
      }
    }

    /** `handleSave`: the validated hours go to the store's `setDailyTarget`,
        which then records exactly that many hours. */
    method HandleSave(store: Store)
      requires Valid() && store.Valid()
      modifies store
      ensures store.Valid()
      ensures store.State() == old(store.State()).(dailyTarget := SavedHours(hours) * 3600)
      ensures MIN_HOURS * 3600 <= store.dailyTarget <= MAX_HOURS * 3600
    {
      var hoursValue := SavedHours(hours);
      store.SetDailyTarget(hoursValue);
    }
  }
}
