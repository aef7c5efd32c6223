/** The read-only projection screen: its clock text, its colour, border,
    icon and label classifiers, and the local copy of the timers it keeps
    fresh from storage. */
module Projection {
  import opened TimerTypes
  import opened ClockText
  import opened Wrappers
  import TimerCard

  /** JavaScript's `a % b` for a positive `b`: what is left of `a` after a
      whole number of `b`s, smaller than `b` in magnitude and carrying the
      sign of `a`. */
  function JsRem(a: int, b: int): (r: int)
    requires b > 0
    ensures exists q :: a == q * b + r
    ensures a >= 0 ==> r >= 0
    ensures a < 0 ==> r <= 0
    ensures -b < r < b
  {
    if a >= 0 then
      assert a == (a / b) * b + a % b;
      a % b
    else
      assert a == (-((-a) / b)) * b + -((-a) % b);
      -((-a) % b)
  }

  /** `formatTime`: `Math.floor(seconds / 3600)`, `Math.floor((seconds %
      3600) / 60)` and `seconds % 60`, each printed and padded to two
      characters. Nothing protects it from a negative input. */
  function FormatTime(seconds: int): (r: string)
    ensures seconds >= 0 ==> r == TimerCard.FormatTime(seconds)
  {
    // Dafny's `/` by a positive divisor rounds down, as Math.floor does.
    var h := seconds / 3600;
    var m := JsRem(seconds, 3600) / 60;
    var s := JsRem(seconds, 60);
    PadStart2(IntToString(h)) + ":" + PadStart2(IntToString(m)) + ":" + PadStart2(IntToString(s))
  }

  /** For a non-negative input the projection shows the zero-padded clock
      the control card shows, which reads back as the input. */
  lemma FormatTimeReadsBack(seconds: int)
    requires seconds >= 0
    ensures var c := ReadClock(FormatTime(seconds));
      c.Some? && 0 <= c.value.minutes < 60 && 0 <= c.value.seconds < 60 &&
      Seconds(c.value) == seconds
  {
    TimerCard.TimeReadsBack(seconds);
  }

  /** On a negative input the two formatters part ways: five seconds of
      overrun read `-1:-1:-5` here and `-00:00:05` on the control card. */
  lemma FormatTimeNegativeDiffers()
    ensures FormatTime(-5) == "-1:-1:-5"
    ensures TimerCard.FormatTime(-5) == "-00:00:05"
  {
    ProjectionAtMinusFive();
    CardAtMinusFive();
  }

  lemma ProjectionAtMinusFive()
    ensures FormatTime(-5) == "-1:-1:-5"
  {
    assert -5 / 3600 == -1 && JsRem(-5, 3600) == -5 && -5 / 60 == -1 && JsRem(-5, 60) == -5;
    SignedFields();
  }

  lemma CardAtMinusFive()
    ensures TimerCard.FormatTime(-5) == "-00:00:05"
  {
    assert Split(5) == Clock(0, 0, 5);
    assert TimerCard.Time(5) == Field(0) + ":" + Field(0) + ":" + Field(5);
    SmallFields();
    assert TimerCard.Time(5) == "00" + ":" + "00" + ":" + "05";
  }

  /** The padded fields of `0` and `5`. */
  lemma SmallFields()
    ensures Field(0) == "00" && Field(5) == "05"
  {
    assert NatToString(0) == "0" && NatToString(5) == "5";
  }

  /** The printed, padded fields of `-1` and `-5`. */
  lemma SignedFields()
    ensures PadStart2(IntToString(-1)) == "-1"
    ensures PadStart2(IntToString(-5)) == "-5"
  {
    assert NatToString(1) == "1" && NatToString(5) == "5";
  }

  /** `getTimerColor`: one gradient per status. */
  function TimerColor(t: Timer): (r: string)
    ensures r == "from-red-600 to-red-800" <==> t.status.Finished?
    ensures r == "from-emerald-600 to-green-700" <==> t.status.Running?
    ensures r == "from-gray-600 to-gray-800" <==> t.status.Paused?
  {
    if t.status == Finished then "from-red-600 to-red-800"
    else if t.status == Running then "from-emerald-600 to-green-700"
    else "from-gray-600 to-gray-800"
  }

  /** `getTimerBorder`: one border per status. */
  function TimerBorder(t: Timer): (r: string)
    ensures r == "border-red-500 shadow-red-500/50" <==> t.status.Finished?
    ensures r == "border-green-500 shadow-green-500/50 animate-pulse" <==> t.status.Running?
    ensures r == "border-gray-600" <==> t.status.Paused?
  {
    if t.status == Finished then "border-red-500 shadow-red-500/50"
    else if t.status == Running then "border-green-500 shadow-green-500/50 animate-pulse"
    else "border-gray-600"
  }

  /** Whether `w` occurs in `s` starting at position `i`. */
  ghost predicate OccursAt(s: string, w: string, i: int)
  {
    0 <= i <= |s| - |w| && s[i..i + |w|] == w
  }

  /** Whether `w` occurs in `s` as a contiguous piece. */
  ghost predicate Contains(s: string, w: string)
  {
    exists i :: OccursAt(s, w, i)
  }

  /** A string without the letter `m` cannot hold `animate-pulse`. */
  lemma NoPulseWithoutM(s: string)
    requires 'm' !in s
    ensures !Contains(s, "animate-pulse")
  {
    var w := "animate-pulse";
    forall i | 0 <= i <= |s| - |w| ensures !OccursAt(s, w, i) {
      assert s[i..i + |w|][3] == s[i + 3] != 'm' by {
        assert s[i + 3] in s;
      }
      assert w[3] == 'm';
    }
  }

  /** Only a running timer's border pulses. */
  lemma BorderPulsesIffRunning(t: Timer)
    ensures Contains(TimerBorder(t), "animate-pulse") <==> t.status == Running
  {
    var b, w := TimerBorder(t), "animate-pulse";
    if t.status == Running {
      assert OccursAt(b, w, |b| - |w|);
    } else {
      NoPulseWithoutM(b);
    }
  }

  /** `getStatusIcon`. */
  function StatusIcon(status: Status): (r: string)
    ensures r == "\U{23F9}\U{FE0F}" <==> status.Finished?
    ensures r == "\U{25B6}\U{FE0F}" <==> status.Running?
    ensures r == "\U{23F8}\U{FE0F}" <==> status.Paused?
  {
    if status == Finished then "\U{23F9}\U{FE0F}"
    else if status == Running then "\U{25B6}\U{FE0F}"
    else "\U{23F8}\U{FE0F}"
  }

  /** The status label under "Status". */
  function StatusLabel(status: Status): (r: string)
    ensures r == "TERMINADO" <==> status.Finished?
    ensures r == "EM EXECU\U{00C7}\U{00C3}O" <==> status.Running?
    ensures r == "PAUSADO" <==> status.Paused?
  {
    if status == Finished then "TERMINADO"
    else if status == Running then "EM EXECU\U{00C7}\U{00C3}O"
    else "PAUSADO"
  }

  /** The badge behind the status label. */
  function StatusBadge(status: Status): (r: string)
    ensures r == "bg-red-500" <==> status.Finished?
    ensures r == "bg-green-500" <==> status.Running?
    ensures r == "bg-gray-500" <==> status.Paused?
  {
    if status == Finished then "bg-red-500"
    else if status == Running then "bg-green-500"
    else "bg-gray-500"
  }

  /** The icon and the label each name the status: two timers get the same
      icon exactly when they get the same label, exactly when their status
      is the same. */
  lemma IconAndLabelAgree(a: Status, b: Status)
    ensures StatusIcon(a) == StatusIcon(b) <==> a == b
    ensures StatusLabel(a) == StatusLabel(b) <==> a == b
  {
  }

  /** While a timer is not overrun, the projection's badge has the colour of
      the control card's badge; an overrun timer is dark red only on the
      card. */
  lemma BadgeMatchesCard(t: Timer)
    ensures t.remainingSeconds >= 0 ==> StatusBadge(t.status) == TimerCard.StatusColor(t)
    ensures t.remainingSeconds < 0 ==> StatusBadge(t.status) != TimerCard.StatusColor(t)
  {
  }

  /** The projection's local copy of the timers. */
  class View {
    var timers: seq<Timer>

    constructor ()
      ensures timers == []
    {
      timers := [];
    }

    /** One poll of storage: a stored snapshot replaces the local copy, and
        nothing stored leaves it as it was. */
    method Refresh(saved: Option<seq<Timer>>)
      modifies this
      ensures saved.Some? ==> timers == saved.value
      ensures saved.None? ==> timers == old(timers)
    {
      if saved.Some? {
        timers := saved.value;
      }
    }
  }
}
