/** The control card for one timer: its clock text, its colour classes and
    the buttons it offers. */
module TimerCard {
  import opened TimerTypes
  import opened ClockText
  import opened Wrappers
  import TimerList

  /** The unsigned `HH:MM:SS` text of a non-negative number of seconds. */
  function Time(n: nat): (r: string)
    ensures |r| >= 8 && IsDigit(r[0])
  {
    var c := Split(n);
    FieldReads(c.hours);
    FieldReads(c.minutes);
    FieldReads(c.seconds);
    Field(c.hours) + ":" + Field(c.minutes) + ":" + Field(c.seconds)
  }

  /** `formatTime`: the clock of the magnitude, with a leading minus sign
      when the input is negative. */
  function FormatTime(seconds: int): (r: string)
    ensures (|r| > 0 && r[0] == '-') <==> seconds < 0
    ensures |r| >= 8
  {
    var isNegative := seconds < 0;
    var absSeconds := if isNegative then -seconds else seconds;
    var time := Time(absSeconds);
    if isNegative then "-" + time else time
  }

  /** A negative input prints as a minus sign before the text of its
      magnitude, and only a negative input gets a leading minus sign. */
  lemma FormatTimeNegative(seconds: int)
    requires seconds < 0
    ensures FormatTime(seconds) == "-" + FormatTime(-seconds)
  {
  }

  /** The clock text of a non-negative count reads back as the split of that
      count: minutes and seconds below 60 that recompose to it. */
  lemma TimeReadsBack(n: nat)
    ensures var c := ReadClock(Time(n));
      c.Some? && c.value == Split(n) &&
      0 <= c.value.minutes < 60 && 0 <= c.value.seconds < 60 &&
      Seconds(c.value) == n
    ensures n < 360000 <==> |Time(n)| == 8
  {
    var c := Split(n);
    ReadJoined(c);
    FieldReads(c.hours);
  }

  /** For a non-negative input the text is unsigned and reads back as the
      input; for a negative input it is a minus sign before the text of the
      magnitude. Eight characters, sign aside, below 100 hours. */
  lemma FormatTimeReadsBack(seconds: int)
    ensures var r := FormatTime(seconds);
      var mag := if seconds < 0 then -seconds else seconds;
      var unsigned := if seconds < 0 then r[1..] else r;
      ReadClock(unsigned) == Some(Split(mag)) &&
      (0 <= mag < 360000 <==> |unsigned| == 8)
  {
    var mag := if seconds < 0 then -seconds else seconds;
    TimeReadsBack(mag);
  }

  /** `getStatusColor`: overrun first, then by status. */
  function StatusColor(t: Timer): (r: string)
    ensures r == "bg-red-600" <==> t.remainingSeconds < 0
    ensures r == "bg-red-500" <==> t.remainingSeconds >= 0 && t.status == Finished
    ensures r == "bg-green-500" <==> t.remainingSeconds >= 0 && t.status == Running
    ensures r == "bg-gray-500" <==> t.remainingSeconds >= 0 && t.status.Paused?
  {
    if t.remainingSeconds < 0 then "bg-red-600"
    else if t.status == Finished then "bg-red-500"
    else if t.status == Running then "bg-green-500"
    else "bg-gray-500"
  }

  /** The card's frame classes: overrun, finished, or neutral. */
  function CardFrame(t: Timer): (r: string)
    ensures r == "border-red-600 bg-red-100" <==> t.remainingSeconds < 0
    ensures r == "border-red-500 bg-red-50" <==> t.remainingSeconds >= 0 && t.status == Finished
    ensures r == "border-gray-300 bg-white" <==> t.remainingSeconds >= 0 && t.status != Finished
  {
    if t.remainingSeconds < 0 then "border-red-600 bg-red-100"
    else if t.status == Finished then "border-red-500 bg-red-50"
    else "border-gray-300 bg-white"
  }

  /** A control on the card. */
  datatype Button = PauseButton | StartButton(disabled: bool) | ResetButton | RemoveButton

  /** The controls the card renders, left to right: pause for a running
      timer and start for any other (disabled when finished), then reset and
      remove; nothing at all without controls. */
  function Buttons(t: Timer, showControls: bool): (r: seq<Button>)
    ensures !showControls ==> r == []
    ensures showControls ==> |r| == 3 && r[1] == ResetButton && r[2] == RemoveButton
    ensures showControls ==> (PauseButton in r <==> t.status == Running)
    ensures showControls ==> (StartButton(false) in r <==> t.status == Paused)
    ensures showControls ==> (StartButton(true) in r <==> t.status == Finished)
  {
    if !showControls then []
    else
      var primary := if t.status == Running then PauseButton
                     else StartButton(t.status == Finished);
      [primary, ResetButton, RemoveButton]
  }

  /** What a click on a control of the card for `id` does to the store's
      list; a disabled button does not fire. */
  function Click(b: Button, ts: seq<Timer>, id: string): seq<Timer>
  {
    match b
    case PauseButton => TimerList.PauseTimer(ts, id)
    case StartButton(disabled) => if disabled then ts else TimerList.StartTimer(ts, id)
    case ResetButton => TimerList.ResetTimer(ts, id)
    case RemoveButton => TimerList.RemoveTimer(ts, id)
  }

  /** Through the card, a finished timer cannot be made to run again: every
      button it offers leaves it not running (or removes it), although the
      store's start command alone would restart it. */
  lemma CardCannotRestartFinished(ts: seq<Timer>, k: int, b: Button)
    requires 0 <= k < |ts| && ts[k].status == Finished
    requires b in Buttons(ts[k], true) && b != RemoveButton
    ensures |Click(b, ts, ts[k].id)| == |ts|
    ensures Click(b, ts, ts[k].id)[k].status != Running
    ensures TimerList.StartTimer(ts, ts[k].id)[k].status == Running
  {
    assert b == StartButton(true) || b == ResetButton;
  }

  /** Records that keep the store's invariant never show the overrun colour,
      the overrun frame or a minus sign. */
  lemma WellFormedNeverOverrun(t: Timer)
    requires TimerList.WellFormed(t)
    ensures StatusColor(t) != "bg-red-600"
    ensures CardFrame(t) != "border-red-600 bg-red-100"
    ensures FormatTime(t.remainingSeconds)[0] != '-'
  {
    FormatTimeReadsBack(t.remainingSeconds);
  }
}
