/** The provider that owns the single `timers` state: each command, and each
    firing of the one-second interval, replaces the list with the next one. */
module TimerContext {
  import opened TimerTypes
  import TimerList

  class TimerProvider {
    /** The whole state the provider keeps. */
    var timers: seq<Timer>

    /** The state starts as an empty list. */
    constructor ()
      ensures timers == []
    {
      timers := [];
    }

    method AddTimer(id: string, name: string, totalSeconds: int)
      modifies this
      ensures timers == TimerList.AddTimer(old(timers), id, name, totalSeconds)
      ensures |timers| == |old(timers)| + 1 && timers[..|old(timers)|] == old(timers)
    {
      timers := TimerList.AddTimer(timers, id, name, totalSeconds);
    }

    method RemoveTimer(id: string)
      modifies this
      ensures timers == TimerList.RemoveTimer(old(timers), id)
      ensures !TimerList.HasId(timers, id)
    {
      TimerList.RemoveLeavesNone(timers, id);
      timers := TimerList.RemoveTimer(timers, id);
    }

    method StartTimer(id: string)
      modifies this
      ensures timers == TimerList.StartTimer(old(timers), id)
    {
      timers := TimerList.StartTimer(timers, id);
    }

    method PauseTimer(id: string)
      modifies this
      ensures timers == TimerList.PauseTimer(old(timers), id)
    {
      timers := TimerList.PauseTimer(timers, id);
    }

    method ResetTimer(id: string)
      modifies this
      ensures timers == TimerList.ResetTimer(old(timers), id)
    {
      timers := TimerList.ResetTimer(timers, id);
    }

    /** One firing of the interval callback. */
    method Tick()
      modifies this
      ensures timers == TimerList.Tick(old(timers))
      ensures old(TimerList.AllWellFormed(timers)) ==> TimerList.AllWellFormed(timers)
    {
      ghost var wellFormed := TimerList.AllWellFormed(timers);
      if wellFormed {
        TimerList.TickKeepsWellFormed(timers);
      }
      timers := TimerList.Tick(timers);
    }
  }
}
