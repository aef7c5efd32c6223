/** One operator session: the control page's form and cards share one
    provider, and the projection screen copies the stored list. */
module Session {
  import opened TimerTypes
  import opened Wrappers
  import TimerContext
  import AddTimerForm
  import Projection

  /** A 1:30 "Speech" timer is typed in, submitted, started and left to run
      for three seconds; one poll later the projection shows what the
      control page shows: 87 seconds left, still running. */
  method SpeechOnBothScreens() returns (control: seq<Timer>, shown: seq<Timer>)
    ensures control == [Timer("speech", "Speech", 90, 87, Running)]
    ensures shown == control
  {
    var store := new TimerContext.TimerProvider();
    var form := new AddTimerForm.Form();
    var view := new Projection.View();
    form.SetName("Speech");
    form.SetMinutes(Some(1));
    form.SetSeconds(Some(30));
    assert form.formData == FormData("Speech", 0, 1, 30);
    assert AddTimerForm.Accepts(form.formData) by {
      assert !AddTimerForm.IsWhitespace(form.formData.name[0]);
    }
    form.Submit(store, "speech");
    assert store.timers == [Timer("speech", "Speech", 90, 90, Paused)];
    store.StartTimer("speech");
    assert store.timers == [Timer("speech", "Speech", 90, 90, Running)];
    store.Tick();
    assert store.timers == [Timer("speech", "Speech", 90, 89, Running)];
    store.Tick();
    assert store.timers == [Timer("speech", "Speech", 90, 88, Running)];
    store.Tick();
    view.Refresh(Some(store.timers));
    control, shown := store.timers, view.timers;
  }
}
