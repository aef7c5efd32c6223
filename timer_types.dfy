/** The records shared by the timer store, the control card, the projection
    screen and the creation form. */
module TimerTypes {

  /** The three states a countdown can be in. */
  datatype Status = Paused | Running | Finished

  /** One countdown. The numeric fields are the integral values the
      application stores; `id` is an opaque string chosen by the caller. */
  datatype Timer = Timer(
    id: string,
    name: string,
    totalSeconds: int,
    remainingSeconds: int,
    status: Status)

  /** What the creation form holds while the operator types. */
  datatype FormData = FormData(name: string, hours: int, minutes: int, seconds: int)

  /** The blank form the page starts with and returns to after a submit. */
  function EmptyForm(): (f: FormData)
    ensures f.name == [] && f.hours == 0 && f.minutes == 0 && f.seconds == 0
  {
    FormData("", 0, 0, 0)
  }

  /** The fields of `t` that no status command and no tick ever changes. */
  predicate SameIdentity(t: Timer, u: Timer)
  {
    t.id == u.id && t.name == u.name && t.totalSeconds == u.totalSeconds
  }
}
