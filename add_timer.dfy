/** The create-timer screen: a form of three text fields and the save action. */
module AddTimer {
  import opened Timers
  import opened Decimal
  import opened Lifecycle
  import opened Storage

  datatype FormField = NameField | DurationField | CategoryField

  /** `newTimer`, built only when all three fields are filled in. The
      duration text is read as a number and used, unconverted, as both the
      duration and the remaining duration; the id is the clock value printed
      as a string; there is no start time and no paused flag. */
  function BuildTimer(name: string, duration: string, category: string, clock: nat): (r: Option<Timer>)
    requires IsDigits(duration)
    ensures r.None? <==> name == "" || duration == "" || category == ""
    ensures r.Some? ==> r.value.name == name && r.value.category == category
    ensures r.Some? ==> r.value.duration == DecimalValue(duration) && r.value.remainingDuration == r.value.duration
    ensures r.Some? ==> r.value.startTime.None? && r.value.paused.None? && r.value.id == DecimalString(clock)
  {
    if name == "" || duration == "" || category == "" then None
    else
      var ms := DecimalValue(duration);
      Some(Timer(DecimalString(clock), name, ms, category, None, ms, None))
  }

  /** The id of a new timer gives back the clock reading it was made at, so
      timers saved at different milliseconds get different ids. */
  lemma NewTimerIdRecoversClock(name: string, duration: string, category: string, clock: nat)
    requires IsDigits(duration) && BuildTimer(name, duration, category, clock).Some?
    ensures var id := BuildTimer(name, duration, category, clock).value.id;
            IsDigits(id) && DecimalValue(id) == clock
  {
    DecimalRoundTrip(clock);
  }

  /** As written, a freshly saved timer reads as running since the epoch:
      once the clock is past its duration it shows 0 and "Completed", its card
      schedules no interval, "Run All" leaves it alone, and "Pause All"
      freezes it at 0. */
  lemma FreshTimerAsWritten(t: Timer, name: string, duration: string, category: string, clock: nat, now: int)
    requires IsDigits(duration) && BuildTimer(name, duration, category, clock) == Some(t)
    requires now >= t.duration
    ensures !IsPaused(t) && ActualRemaining(t, now) == t.duration - now
    ensures ShownTime(t, now) == 0 && StatusOf(IsPaused(t), ShownTime(t, now)) == Completed
    ensures !(ActualRemaining(t, now) > 0)
    ensures BulkUpdated(RunAll, t, now) == t
    ensures IsPaused(BulkUpdated(PauseAll, t, now)) && BulkUpdated(PauseAll, t, now).remainingDuration == 0
  {
  }

  /** The duration field is labelled in seconds but its number is used as
      milliseconds: a timer entered as "300" seconds shows "1s" once reset
      and completes on the second firing of its interval after being started. */
  lemma DurationFieldReadAsMilliseconds(clock: nat, now: int)
    ensures var t := BuildTimer("Tea", "300", "OTHERS", clock).value;
            var reset := Reset(t, now);
            t.duration == 300
            && DisplaySeconds(ShownTime(reset, now)) == 1
            && TicksToComplete(ShownTime(Resumed(reset, 300, now), now)) == 2
  {
    assert "300"[..2] == "30" && "30"[..1] == "3" && "3"[..0] == "";
  }

  /** The create-timer form state. */
  class TimerForm {
    var name: string
    var duration: string
    var category: string

    constructor ()
      ensures name == "" && duration == "" && category == ""
    {
      name, duration, category := "", "", "";
    }

    /** `handleChange(key, value)`: sets one field and keeps the other two. */
    method HandleChange(key: FormField, value: string)
      modifies this
      ensures name == (if key == NameField then value else old(name))
      ensures duration == (if key == DurationField then value else old(duration))
      ensures category == (if key == CategoryField then value else old(category))
    {
      match key
      case NameField => name := value;
      case DurationField => duration := value;
      case CategoryField => category := value;
    }

    /** `saveTimer`: with an empty field nothing is built and nothing changes;
        otherwise the new timer is appended to the stored list and the form
        is cleared. `clock` is `Date.now()`. */
    method SaveTimer(store: Store, clock: nat) returns (saved: bool)
      requires IsDigits(duration)
      modifies this, store
      ensures saved <==> old(name) != "" && old(duration) != "" && old(category) != ""
      ensures saved ==> store.timers == old(store.timers) + [BuildTimer(old(name), old(duration), old(category), clock).value]
      ensures saved ==> name == "" && duration == "" && category == ""
      ensures !saved ==> store.timers == old(store.timers)
      ensures !saved ==> name == old(name) && duration == old(duration) && category == old(category)
      ensures store.history == old(store.history)
    {
      var newTimer := BuildTimer(name, duration, category, clock);
      if newTimer.None? {
        saved := false;
        return;
      }
      var timers := store.timers;
      store.SetTimers(timers + [newTimer.value]);
      name, duration, category := "", "", "";
      saved := true;
    }
  }
}
