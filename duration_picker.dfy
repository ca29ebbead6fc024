/** The preset lengths offered before a session starts. */
module DurationPicker {

  import opened Text
  import opened TimerStore

  /** One preset button: its text and the number of seconds it selects. */
  datatype Preset = Preset(caption: string, value: nat)

  const DURATIONS: seq<Preset> := [
    Preset("25m", 25 * 60),
    Preset("45m", 45 * 60),
    Preset("60m", 60 * 60),
    Preset("90m", 90 * 60),
    Preset("120m", 120 * 60)
  ]

  /** The preset table: five values, strictly increasing, each captioned with its
      whole minutes and "m", and each short enough for `setDuration` to keep. */
  lemma PresetTable()
    ensures |DURATIONS| == 5
    ensures forall i, j :: 0 <= i < j < |DURATIONS| ==> DURATIONS[i].value < DURATIONS[j].value
    ensures forall i :: 0 <= i < |DURATIONS| ==>
              DURATIONS[i].caption == NatToString(DURATIONS[i].value / 60) + "m"
    ensures forall i :: 0 <= i < |DURATIONS| ==>
              DURATIONS[i].value <= MAX_DURATION && ClampDuration(DURATIONS[i].value) == DURATIONS[i].value
  {
    assert NatToString(25) == "25" && NatToString(45) == "45" && NatToString(60) == "60";
    assert NatToString(90) == "90" && NatToString(120) == "120";
  }

  /** `selectedDuration === duration.value`: the button is highlighted. */
  function IsSelected(selectedDuration: int, p: Preset): (r: bool)
    ensures p in DURATIONS && r ==> selectedDuration >= 0 && p.caption == NatToString(selectedDuration / 60) + "m"
  {
    PresetTable();
    selectedDuration == p.value
  }

  /** The highlighted button, if any, is the one whose value is selected: no two
      buttons are ever highlighted together. */
  lemma AtMostOneSelected(selectedDuration: int, i: nat, j: nat)
    requires i < |DURATIONS| && j < |DURATIONS|
    requires IsSelected(selectedDuration, DURATIONS[i]) && IsSelected(selectedDuration, DURATIONS[j])
    ensures i == j
  {
    PresetTable();
  }

  /** Pressing preset i hands its value to `setDuration` (the timer screen does so
      only while the timer is idle); that value is stored unchanged as both the
      length and the time left, and its button becomes the highlighted one. */
  method Press(store: Store, i: nat)
    requires store.Valid() && i < |DURATIONS|
    modifies store
    ensures store.Valid()
    ensures store.State() == old(store.State()).(duration := DURATIONS[i].value, timeRemaining := DURATIONS[i].value)
    ensures IsSelected(store.duration, DURATIONS[i])
  {
    PresetTable();
    store.SetDuration(DURATIONS[i].value);
  }
}
