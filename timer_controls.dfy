/** The row of buttons under the timer. The store guards no transition, so this
    table is what stands between the user and an action that would not make sense. */
module TimerControls {

  /** One button; each invokes the callback of the same name and nothing else. */
  datatype Control = Start | Pause | Resume | Reset | Stop

  /** The text on a button. */
  function Label(c: Control): (t: string)
    ensures t != ""
  {
    match c
    case Start => "Start"
    case Pause => "Pause"
    case Resume => "Resume"
    case Reset => "Reset"
    case Stop => "Stop"
  }

  /** The buttons shown for the timer's two flags, in the order they are drawn. */
  function OfferedControls(isRunning: bool, isPaused: bool): (cs: seq<Control>)
    ensures !isRunning && !isPaused <==> cs == [Start]
    ensures Start in cs <==> !isRunning && !isPaused
    ensures Pause in cs <==> isRunning
    ensures Resume in cs <==> !isRunning && isPaused
    ensures Reset in cs <==> isRunning || isPaused
    ensures Stop in cs <==> isRunning || isPaused
    ensures !(Start in cs && Resume in cs)
    ensures forall i, j :: 0 <= i < j < |cs| ==> cs[i] != cs[j]
  {
    if !isRunning && !isPaused then [Start]
    else [if isRunning then Pause else Resume, Reset, Stop]
  }

  /** Different buttons have different labels, so a label names its callback. */
  lemma LabelsDistinct(c: Control, d: Control)
    requires Label(c) == Label(d)
    ensures c == d
  {
    var t := Label(c);
    assert t[0] == Label(d)[0];
    if t[0] == 'R' {
      assert t[2] == Label(d)[2];
    }
  }

  /** In every state the store can be in (the two flags never both set), the
      button set is one of the three rows of the table. */
  lemma ThreeRows(isRunning: bool, isPaused: bool)
    requires !(isRunning && isPaused)
    ensures var cs := OfferedControls(isRunning, isPaused);
      || (!isRunning && !isPaused && cs == [Start])
      || (isRunning && cs == [Pause, Reset, Stop])
      || (isPaused && cs == [Resume, Reset, Stop])
  {
  }
}
