/** The creation form: hours, minutes and seconds become one duration, and a
    timer is created only for a positive duration and a name that is not
    blank. */
module AddTimerForm {
  import opened TimerTypes
  import opened Wrappers
  import ClockText
  import TimerCard
  import TimerList
  import TimerContext

  /** The characters `String.prototype.trim` strips (ECMAScript white space
      and line terminators). */
  predicate IsWhitespace(c: char)
  {
    c == '\U{0009}' || c == '\U{000A}' || c == '\U{000B}' || c == '\U{000C}' ||
    c == '\U{000D}' || c == '\U{0020}' || c == '\U{00A0}' || c == '\U{1680}' ||
    ('\U{2000}' <= c <= '\U{200A}') || c == '\U{2028}' || c == '\U{2029}' ||
    c == '\U{202F}' || c == '\U{205F}' || c == '\U{3000}' || c == '\U{FEFF}'
  }

  /** `s` with its leading white space removed: a suffix of `s` that is
      empty or starts with a visible character. */
  function TrimStart(s: string): (r: string)
    ensures |r| <= |s| && r == s[|s| - |r|..]
    ensures forall i :: 0 <= i < |s| - |r| ==> IsWhitespace(s[i])
    ensures r == [] || !IsWhitespace(r[0])
  {
    if s != [] && IsWhitespace(s[0]) then TrimStart(s[1..]) else s
  }

  /** `s` with its trailing white space removed: a prefix of `s` that is
      empty or ends with a visible character. */
  function TrimEnd(s: string): (r: string)
    ensures |r| <= |s| && r == s[..|r|]
    ensures forall i :: |r| <= i < |s| ==> IsWhitespace(s[i])
    ensures r == [] || !IsWhitespace(r[|r| - 1])
  {
    if s != [] && IsWhitespace(s[|s| - 1]) then TrimEnd(s[..|s| - 1]) else s
  }

  /** `s.trim()`. */
  function Trim(s: string): string
  {
    TrimEnd(TrimStart(s))
  }

  /** A name trims to nothing exactly when every character of it is white
      space. */
  lemma TrimEmptyIff(s: string)
    ensures Trim(s) == [] <==> forall i :: 0 <= i < |s| ==> IsWhitespace(s[i])
  {
    var a := TrimStart(s);
    if Trim(s) == [] {
      forall i | 0 <= i < |s| ensures IsWhitespace(s[i]) {
        if i >= |s| - |a| {
          assert s[i] == a[i - (|s| - |a|)];
        }
      }
    } else {
      var r := Trim(s);
      assert !IsWhitespace(r[0]);
      assert r[0] == a[0] == s[|s| - |a|];
    }
  }

  /** `formData.hours * 3600 + formData.minutes * 60 + formData.seconds`. */
  function TotalSeconds(f: FormData): int
  {
    f.hours * 3600 + f.minutes * 60 + f.seconds
  }

  /** The guard of `handleSubmit`: a positive total and a name with at least
      one visible character. */
  function Accepts(f: FormData): (r: bool)
    ensures r <==> TotalSeconds(f) > 0 &&
                   exists i :: 0 <= i < |f.name| && !IsWhitespace(f.name[i])
  {
    TrimEmptyIff(f.name);
    TotalSeconds(f) > 0 && Trim(f.name) != ""
  }

  /** Fields within their printed ranges come back from the duration the
      form computes, both as the split the clock uses and as the text the
      control card prints for the new timer. */
  lemma DurationRoundTrip(f: FormData)
    requires f.hours >= 0 && 0 <= f.minutes < 60 && 0 <= f.seconds < 60
    ensures TotalSeconds(f) >= 0
    ensures ClockText.Split(TotalSeconds(f)) == ClockText.Clock(f.hours, f.minutes, f.seconds)
    ensures ClockText.ReadClock(TimerCard.FormatTime(TotalSeconds(f))) ==
            Some(ClockText.Clock(f.hours, f.minutes, f.seconds))
  {
    var c := ClockText.Clock(f.hours, f.minutes, f.seconds);
    assert ClockText.Seconds(c) == TotalSeconds(f);
    ClockText.SplitRecovers(c);
    TimerCard.TimeReadsBack(TotalSeconds(f));
  }

  /** The guard looks only at the total: a minute field outside 0..59 (the
      input's `max` is not enforced by the code) still creates a timer when
      the total is positive. */
  lemma GuardIgnoresFieldRanges()
    ensures TotalSeconds(FormData("Debate", 1, -5, 0)) == 3300
    ensures Accepts(FormData("Debate", 1, -5, 0))
  {
    assert !IsWhitespace("Debate"[0]);
  }

  /** `parseInt(value) || 0`: an unparsable entry counts as zero. */
  function ParsedOrZero(parsed: Option<int>): (n: int)
    ensures parsed.None? ==> n == 0
    ensures parsed.Some? ==> n == parsed.value
  {
    if parsed.Some? then parsed.value else 0
  }

  /** The form and the `formData` it keeps between keystrokes. */
  class Form {
    var formData: FormData

    constructor ()
      ensures formData == EmptyForm()
    {
      formData := EmptyForm();
    }

    method SetName(name: string)
      modifies this
      ensures formData == old(formData).(name := name)
    {
      formData := formData.(name := name);
    }

    method SetHours(parsed: Option<int>)
      modifies this
      ensures formData == old(formData).(hours := ParsedOrZero(parsed))
    {
      formData := formData.(hours := ParsedOrZero(parsed));
    }

    method SetMinutes(parsed: Option<int>)
      modifies this
      ensures formData == old(formData).(minutes := ParsedOrZero(parsed))
    {
      formData := formData.(minutes := ParsedOrZero(parsed));
    }

    method SetSeconds(parsed: Option<int>)
      modifies this
      ensures formData == old(formData).(seconds := ParsedOrZero(parsed))
    {
      formData := formData.(seconds := ParsedOrZero(parsed));
    }

    /** `handleSubmit`: when the guard holds, create a timer under `id` with
        the untrimmed name and the computed total, and blank the form;
        otherwise change nothing. */
    method Submit(store: TimerContext.TimerProvider, id: string)
      modifies this, store
      ensures Accepts(old(formData)) ==>
        store.timers == TimerList.AddTimer(old(store.timers), id, old(formData).name,
                                           TotalSeconds(old(formData))) &&
        formData == EmptyForm()
      ensures !Accepts(old(formData)) ==>
        store.timers == old(store.timers) && formData == old(formData)
    {
      var totalSeconds := formData.hours * 3600 + formData.minutes * 60 + formData.seconds;
      if totalSeconds > 0 && Trim(formData.name) != "" {
        store.AddTimer(id, formData.name, totalSeconds);
        formData := EmptyForm();
      }
    }
  }
}
