/** The commands of the timer store and its once-per-second tick, each a
    transformation from the previous list of timers to the next one. */
module TimerList {
  import opened TimerTypes

  /** The record `addTimer` creates: at rest, with the full duration left. */
  function NewTimer(id: string, name: string, totalSeconds: int): (t: Timer)
    ensures t.id == id && t.name == name && t.status == Paused
    ensures t.totalSeconds == totalSeconds && t.remainingSeconds == totalSeconds
  {
    Timer(id, name, totalSeconds, totalSeconds, Paused)
  }

  /** `addTimer`: append one new record. */
  function AddTimer(ts: seq<Timer>, id: string, name: string, totalSeconds: int): (r: seq<Timer>)
    ensures |r| == |ts| + 1
    ensures r[..|ts|] == ts
    ensures r[|ts|] == Timer(id, name, totalSeconds, totalSeconds, Paused)
  {
    ts + [NewTimer(id, name, totalSeconds)]
  }

  /** `removeTimer`: keep the records whose id differs, in order. */
  function RemoveTimer(ts: seq<Timer>, id: string): (r: seq<Timer>)
    ensures |r| <= |ts|
    ensures forall t :: t in r ==> t in ts && t.id != id
    ensures forall t :: t in ts && t.id != id ==> t in r
  {
    if ts == [] then []
    else (if ts[0].id != id then [ts[0]] else []) + RemoveTimer(ts[1..], id)
  }

  /** `startTimer`: every record with this id becomes running, whatever its
      status was (a finished record included). */
  function StartTimer(ts: seq<Timer>, id: string): (r: seq<Timer>)
    ensures |r| == |ts|
    ensures forall i :: 0 <= i < |ts| ==>
      SameIdentity(r[i], ts[i]) && r[i].remainingSeconds == ts[i].remainingSeconds
    ensures forall i :: 0 <= i < |ts| ==>
      r[i].status == if ts[i].id == id then Running else ts[i].status
  {
    seq(|ts|, i requires 0 <= i < |ts| =>
      if ts[i].id == id then ts[i].(status := Running) else ts[i])
  }

  /** `pauseTimer`: every record with this id becomes paused. */
  function PauseTimer(ts: seq<Timer>, id: string): (r: seq<Timer>)
    ensures |r| == |ts|
    ensures forall i :: 0 <= i < |ts| ==>
      SameIdentity(r[i], ts[i]) && r[i].remainingSeconds == ts[i].remainingSeconds
    ensures forall i :: 0 <= i < |ts| ==>
      r[i].status == if ts[i].id == id then Paused else ts[i].status
  {
    seq(|ts|, i requires 0 <= i < |ts| =>
      if ts[i].id == id then ts[i].(status := Paused) else ts[i])
  }

  /** `resetTimer`: every record with this id gets its full duration back
      and is paused. */
  function ResetTimer(ts: seq<Timer>, id: string): (r: seq<Timer>)
    ensures |r| == |ts|
    ensures forall i :: 0 <= i < |ts| ==> SameIdentity(r[i], ts[i])
    ensures forall i :: 0 <= i < |ts| && ts[i].id == id ==>
      r[i].remainingSeconds == r[i].totalSeconds && r[i].status == Paused
    ensures forall i :: 0 <= i < |ts| && ts[i].id != id ==> r[i] == ts[i]
  {
    seq(|ts|, i requires 0 <= i < |ts| =>
      if ts[i].id == id
      then ts[i].(remainingSeconds := ts[i].totalSeconds, status := Paused)
      else ts[i])
  }

  /** One second of countdown for one record: only a running record with
      time left moves, by exactly one second, and it finishes exactly when
      it reaches zero. */
  function TickTimer(t: Timer): (r: Timer)
    ensures SameIdentity(r, t)
    ensures t.status == Running && t.remainingSeconds > 0 ==>
      r.remainingSeconds == t.remainingSeconds - 1 &&
      (r.status == Finished <==> r.remainingSeconds == 0) &&
      (r.status != Finished ==> r.status == Running)
    ensures !(t.status == Running && t.remainingSeconds > 0) ==> r == t
  {
    if t.status == Running && t.remainingSeconds > 0 then
      var newRemaining := t.remainingSeconds - 1;
      t.(remainingSeconds := newRemaining,
         status := if newRemaining == 0 then Finished else Running)
    else t
  }

  /** The body of the once-per-second interval callback. */
  function Tick(ts: seq<Timer>): (r: seq<Timer>)
    ensures |r| == |ts|
    ensures forall i :: 0 <= i < |ts| ==> r[i] == TickTimer(ts[i])
  {
    seq(|ts|, i requires 0 <= i < |ts| => TickTimer(ts[i]))
  }

  /** `n` consecutive ticks. */
  function Ticks(ts: seq<Timer>, n: nat): seq<Timer>
  {
    if n == 0 then ts else Tick(Ticks(ts, n - 1))
  }

  /** Whether some record carries this id. */
  predicate HasId(ts: seq<Timer>, id: string)
  {
    exists i :: 0 <= i < |ts| && ts[i].id == id
  }

  /** The invariant every command and the tick keep: no negative countdown,
      never more left than the full duration, and finished only at zero. */
  predicate WellFormed(t: Timer)
  {
    0 <= t.remainingSeconds <= t.totalSeconds &&
    (t.status == Finished ==> t.remainingSeconds == 0)
  }

  predicate AllWellFormed(ts: seq<Timer>)
  {
    forall i :: 0 <= i < |ts| ==> WellFormed(ts[i])
  }

  // ---------------------------------------------------------------------
  // removeTimer

  /** Removal distributes over concatenation, so it keeps the relative order
      of the records it leaves. */
  lemma {:induction false} RemoveAppend(a: seq<Timer>, b: seq<Timer>, id: string)
    ensures RemoveTimer(a + b, id) == RemoveTimer(a, id) + RemoveTimer(b, id)
  {
    if a == [] {
      assert a + b == b;
    } else {
      assert (a + b)[0] == a[0];
      assert (a + b)[1..] == a[1..] + b;
      RemoveAppend(a[1..], b, id);
    }
  }

  /** Removing an id that no record carries changes nothing. */
  lemma {:induction false} RemoveAbsent(ts: seq<Timer>, id: string)
    requires !HasId(ts, id)
    ensures RemoveTimer(ts, id) == ts
  {
    if ts != [] {
      assert ts[0].id != id;
      assert !HasId(ts[1..], id) by {
        forall i | 0 <= i < |ts[1..]| ensures ts[1..][i].id != id {
          assert ts[1..][i] == ts[i + 1];
        }
      }
      RemoveAbsent(ts[1..], id);
      assert ts == [ts[0]] + ts[1..];
    }
  }

  /** After a removal no record carries the id. */
  lemma RemoveLeavesNone(ts: seq<Timer>, id: string)
    ensures !HasId(RemoveTimer(ts, id), id)
  {
    var r := RemoveTimer(ts, id);
    forall i | 0 <= i < |r| ensures r[i].id != id {
      assert r[i] in r;
    }
  }

  /** Removing twice is removing once. */
  lemma RemoveIdempotent(ts: seq<Timer>, id: string)
    ensures RemoveTimer(RemoveTimer(ts, id), id) == RemoveTimer(ts, id)
  {
    RemoveLeavesNone(ts, id);
    RemoveAbsent(RemoveTimer(ts, id), id);
  }

  /** Adding a record under a new id and removing that id gives back the
      list as it was. */
  lemma RemoveUndoesAdd(ts: seq<Timer>, id: string, name: string, totalSeconds: int)
    requires !HasId(ts, id)
    ensures RemoveTimer(AddTimer(ts, id, name, totalSeconds), id) == ts
  {
    var t := NewTimer(id, name, totalSeconds);
    RemoveAppend(ts, [t], id);
    RemoveAbsent(ts, id);
    assert RemoveTimer([t], id) == [] + RemoveTimer([], id);
  }

  // ---------------------------------------------------------------------
  // startTimer, pauseTimer, resetTimer

  lemma StartIdempotent(ts: seq<Timer>, id: string)
    ensures StartTimer(StartTimer(ts, id), id) == StartTimer(ts, id)
  {
    var r, rr := StartTimer(ts, id), StartTimer(StartTimer(ts, id), id);
    forall i | 0 <= i < |ts| ensures rr[i] == r[i] {
      assert rr[i].status == r[i].status;
    }
  }

  lemma PauseIdempotent(ts: seq<Timer>, id: string)
    ensures PauseTimer(PauseTimer(ts, id), id) == PauseTimer(ts, id)
  {
    var r, rr := PauseTimer(ts, id), PauseTimer(PauseTimer(ts, id), id);
    forall i | 0 <= i < |ts| ensures rr[i] == r[i] {
      assert rr[i].status == r[i].status;
    }
  }

  lemma ResetIdempotent(ts: seq<Timer>, id: string)
    ensures ResetTimer(ResetTimer(ts, id), id) == ResetTimer(ts, id)
  {
    var r, rr := ResetTimer(ts, id), ResetTimer(ResetTimer(ts, id), id);
    forall i | 0 <= i < |ts| ensures rr[i] == r[i] {
      assert r[i].id == ts[i].id;
    }
  }

  /** Pausing a record that is already paused changes nothing. */
  lemma PauseOnPausedIsNoOp(ts: seq<Timer>, id: string)
    requires forall i :: 0 <= i < |ts| && ts[i].id == id ==> ts[i].status == Paused
    ensures PauseTimer(ts, id) == ts
  {
    var r := PauseTimer(ts, id);
    forall i | 0 <= i < |ts| ensures r[i] == ts[i] {
      assert r[i].status == ts[i].status;
    }
  }

  /** A pause after a start leaves the same list as the pause alone. */
  lemma PauseAfterStart(ts: seq<Timer>, id: string)
    ensures PauseTimer(StartTimer(ts, id), id) == PauseTimer(ts, id)
  {
    var a, b := PauseTimer(StartTimer(ts, id), id), PauseTimer(ts, id);
    forall i | 0 <= i < |ts| ensures a[i] == b[i] {
      assert a[i].status == b[i].status;
    }
  }

  /** A reset wipes out any earlier start or pause of the same id. */
  lemma ResetAfterStartOrPause(ts: seq<Timer>, id: string)
    ensures ResetTimer(StartTimer(ts, id), id) == ResetTimer(ts, id)
    ensures ResetTimer(PauseTimer(ts, id), id) == ResetTimer(ts, id)
  {
    var s, p, r := StartTimer(ts, id), PauseTimer(ts, id), ResetTimer(ts, id);
    var rs, rp := ResetTimer(s, id), ResetTimer(p, id);
    forall i | 0 <= i < |ts| ensures rs[i] == r[i] && rp[i] == r[i] {
      assert s[i].id == ts[i].id && p[i].id == ts[i].id;
    }
  }

  /** Starting a finished record makes it running again: the store itself
      has no guard against it. */
  lemma StartRestartsFinished(ts: seq<Timer>, k: int)
    requires 0 <= k < |ts| && ts[k].status == Finished
    ensures StartTimer(ts, ts[k].id)[k].status == Running
    ensures StartTimer(ts, ts[k].id)[k].remainingSeconds == ts[k].remainingSeconds
  {
  }

  // ---------------------------------------------------------------------
  // tick

  /** A tick never raises a countdown and never drives one below zero when
      it was not already below zero. */
  lemma TickMonotone(ts: seq<Timer>)
    ensures forall i :: 0 <= i < |ts| ==>
      Tick(ts)[i].remainingSeconds <= ts[i].remainingSeconds
    ensures (forall i :: 0 <= i < |ts| ==> ts[i].remainingSeconds >= 0) ==>
      (forall i :: 0 <= i < |ts| ==> Tick(ts)[i].remainingSeconds >= 0)
  {
  }

  /** Records that are paused, finished, or running with nothing left are
      fixed points of the tick. */
  lemma TickLeavesIdle(ts: seq<Timer>)
    requires forall i :: 0 <= i < |ts| ==>
      ts[i].status != Running || ts[i].remainingSeconds <= 0
    ensures Tick(ts) == ts
  {
    var r := Tick(ts);
    forall i | 0 <= i < |ts| ensures r[i] == ts[i] {
    }
  }

  /** Ticks keep the length of the list and the id, name and duration of
      every record. */
  lemma {:induction false} TicksKeepIdentity(ts: seq<Timer>, n: nat)
    ensures |Ticks(ts, n)| == |ts|
    ensures forall i :: 0 <= i < |ts| ==> SameIdentity(Ticks(ts, n)[i], ts[i])
  {
    if n > 0 {
      TicksKeepIdentity(ts, n - 1);
    }
  }

  /** A record that is running with `R` seconds left counts down exactly one
      second per tick and finishes on the `R`-th (a running record already
      at zero stays running). */
  lemma {:induction false} TicksCountDown(ts: seq<Timer>, k: int, n: nat)
    requires 0 <= k < |ts| && ts[k].status == Running && n <= ts[k].remainingSeconds
    ensures |Ticks(ts, n)| == |ts|
    ensures Ticks(ts, n)[k].remainingSeconds == ts[k].remainingSeconds - n
    ensures Ticks(ts, n)[k].status == if 0 < n == ts[k].remainingSeconds then Finished else Running
  {
    if n > 0 {
      TicksCountDown(ts, k, n - 1);
      var prev := Ticks(ts, n - 1);
      assert prev[k].status == Running && prev[k].remainingSeconds > 0;
    }
  }

  /** Once a record is finished, or running at zero, further ticks do not
      move it. */
  lemma {:induction false} TicksHoldAtZero(ts: seq<Timer>, k: int, n: nat)
    requires 0 <= k < |ts| && ts[k].remainingSeconds == 0
    ensures |Ticks(ts, n)| == |ts|
    ensures Ticks(ts, n)[k] == ts[k]
  {
    if n > 0 {
      TicksHoldAtZero(ts, k, n - 1);
    }
  }

  // ---------------------------------------------------------------------
  // The invariant

  lemma AddKeepsWellFormed(ts: seq<Timer>, id: string, name: string, totalSeconds: int)
    requires AllWellFormed(ts) && totalSeconds >= 0
    ensures AllWellFormed(AddTimer(ts, id, name, totalSeconds))
  {
    var r := AddTimer(ts, id, name, totalSeconds);
    forall i | 0 <= i < |r| ensures WellFormed(r[i]) {
      if i < |ts| {
        assert r[i] == r[..|ts|][i];
      }
    }
  }

  lemma CommandsKeepWellFormed(ts: seq<Timer>, id: string)
    requires AllWellFormed(ts)
    ensures AllWellFormed(RemoveTimer(ts, id))
    ensures AllWellFormed(PauseTimer(ts, id))
    ensures AllWellFormed(ResetTimer(ts, id))
  {
    var rm := RemoveTimer(ts, id);
    forall i | 0 <= i < |rm| ensures WellFormed(rm[i]) {
      assert rm[i] in ts;
    }
    var p := PauseTimer(ts, id);
    forall i | 0 <= i < |ts| ensures WellFormed(p[i]) {
      assert WellFormed(ts[i]);
    }
  }

  /** The tick keeps the invariant: a running record with time left loses
      one second and is finished exactly at zero. */
  lemma TickKeepsWellFormed(ts: seq<Timer>)
    requires AllWellFormed(ts)
    ensures AllWellFormed(Tick(ts))
  {
    var t := Tick(ts);
    forall i | 0 <= i < |ts| ensures WellFormed(t[i]) {
      assert WellFormed(ts[i]);
    }
  }

  /** Starting keeps the invariant too: a finished record is at zero, and a
      running record at zero is allowed. */
  lemma StartKeepsWellFormed(ts: seq<Timer>, id: string)
    requires AllWellFormed(ts)
    ensures AllWellFormed(StartTimer(ts, id))
  {
    var s := StartTimer(ts, id);
    forall i | 0 <= i < |ts| ensures WellFormed(s[i]) {
      assert WellFormed(ts[i]);
    }
  }

  // ---------------------------------------------------------------------
  // Scenarios

  /** Create, any number of ticks, reset: the new record is back at its full
      duration and paused, whatever else the list holds. */
  lemma ResetAfterTicksRestoresDuration(ts: seq<Timer>, id: string, name: string, total: int, n: nat)
    ensures var r := ResetTimer(Ticks(AddTimer(ts, id, name, total), n), id);
      |r| == |ts| + 1 && r[|ts|] == Timer(id, name, total, total, Paused)
  {
    var a := AddTimer(ts, id, name, total);
    TicksKeepIdentity(a, n);
  }

  /** Create 90 seconds, start, three ticks: 87 left and still running. */
  lemma ScenarioSpeech(ts: seq<Timer>, id: string, name: string)
    ensures var r := Ticks(StartTimer(AddTimer(ts, id, name, 90), id), 3);
      |r| == |ts| + 1 && r[|ts|] == Timer(id, name, 90, 87, Running)
  {
    var s := StartTimer(AddTimer(ts, id, name, 90), id);
    TicksCountDown(s, |ts|, 3);
    TicksKeepIdentity(s, 3);
  }

  /** Create 5 seconds, start, five ticks: zero left and finished. A further
      start makes it running at zero, and no number of ticks moves it. */
  lemma ScenarioBreak(ts: seq<Timer>, id: string, name: string, n: nat)
    ensures var r := Ticks(StartTimer(AddTimer(ts, id, name, 5), id), 5);
      |r| == |ts| + 1 && r[|ts|] == Timer(id, name, 5, 0, Finished) &&
      |Ticks(StartTimer(r, id), n)| == |ts| + 1 &&
      Ticks(StartTimer(r, id), n)[|ts|] == Timer(id, name, 5, 0, Running)
  {
    var s := StartTimer(AddTimer(ts, id, name, 5), id);
    TicksCountDown(s, |ts|, 5);
    TicksKeepIdentity(s, 5);
    var r := Ticks(s, 5);
    TicksHoldAtZero(StartTimer(r, id), |ts|, n);
  }
}
