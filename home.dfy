/** The home screen's state: the screen itself (the active list it shows,
    the counter that remounts every card after a bulk operation, the hidden
    sections) and one card per timer (the time it counts down, its paused
    flag and whether its one-second interval is scheduled). React state
    becomes fields; every callback becomes a method. */
module Home {
  import opened Timers
  import opened Lifecycle
  import opened Grouping
  import opened Storage

  /** `timers.findIndex(timer => timer.id === id)`. */
  method FindIndex(timers: seq<Timer>, id: string) returns (index: int)
    ensures index == IndexOf(timers, id)
  {
    index := 0;
    while index < |timers| && timers[index].id != id
      invariant 0 <= index <= |timers|
      invariant forall j :: 0 <= j < index ==> timers[j].id != id
    {
      index := index + 1;
    }
    if index == |timers| {
      index := -1;
    }
  }

  class HomeScreen {
    var timers: seq<Timer>
    var action: nat
    var hidden: map<string, bool>

    /** The screen after its focus effect has loaded the active list. */
    constructor (loaded: seq<Timer>)
      ensures timers == loaded && action == 0 && hidden == map[]
    {
      timers := loaded;
      action := 0;
      hidden := map[];
    }

    /** `setTimers`, handed to each card as `updateTimers`. */
    method SetTimers(ts: seq<Timer>)
      modifies this
      ensures timers == ts && action == old(action) && hidden == old(hidden)
    {
      timers := ts;
    }

    /** `updateAll(op)`: maps the list held by the screen (not a fresh read
        of the store), keeps the result, bumps the list key so every card
        remounts, and writes the list to the store. */
    method UpdateAll(op: BulkOp, store: Store, now: int)
      modifies this, store
      ensures timers == UpdateAllList(op, old(timers), now)
      ensures action == old(action) + 1 && hidden == old(hidden)
      ensures store.timers == timers && store.history == old(store.history)
    {
      var newTimers := UpdateAllList(op, timers, now);
      timers := newTimers;
      action := action + 1;
      store.SetTimers(newTimers);
    }

    /** `hideSection(title)`. */
    method HideSection(title: string)
      modifies this
      ensures hidden == ToggleHidden(old(hidden), title)
      ensures timers == old(timers) && action == old(action)
    {
      hidden := ToggleHidden(hidden, title);
    }
  }

  /** One `RenderTimer` card. `ticking` says whether its interval is scheduled. */
  class TimerCard {
    var item: Timer
    var time: int
    var pause: bool
    var ticking: bool

    /** The card's paused flag agrees with its record, and an interval runs
        only while the card is not paused and its time has not gone below -999. */
    ghost predicate Valid()
      reads this
    {
      pause == IsPaused(item) && (ticking ==> !pause && time > -1000)
    }

    /** The status label the card shows. */
    function CurrentStatus(): (s: Status)
      reads this
      ensures s == Completed <==> time <= 0
      ensures s == Paused <==> pause && time > 0
      ensures s == Running <==> !pause && time > 0
      ensures Valid() && ticking ==> s != Paused
    {
      StatusOf(pause, time)
    }

    /** Mounting: `time` starts at the shown remaining time, `pause` at the
        record's flag, and the interval is scheduled only for a running
        timer with time left. */
    constructor Mount(item: Timer, now: int)
      ensures Valid() && this.item == item
      ensures time == ShownTime(item, now) && pause == IsPaused(item)
      ensures ticking == (!IsPaused(item) && ActualRemaining(item, now) > 0)
    {
      this.item := item;
      time := ShownTime(item, now);
      pause := IsPaused(item);
      ticking := !IsPaused(item) && ActualRemaining(item, now) > 0;
    }

    /** One firing of the interval. The completing firing clears the
        interval and appends the card's record to history; the active list
        is left as it is. */
    method Tick(store: Store)
      requires Valid() && ticking
      modifies this, store
      ensures Valid() && item == old(item) && pause == old(pause)
      ensures time == TickStep(old(time)).next
      ensures ticking == !TickStep(old(time)).completes
      ensures store.timers == old(store.timers)
      ensures store.history ==
        if TickStep(old(time)).completes then old(store.history) + [item] else old(store.history)
    {
      var step := TickStep(time);
      if step.completes {
        ticking := false;
        store.UpdateHistory(item);
      }
      time := step.next;
    }

    /** `resumeTimer`: loads the stored list, replaces the entry with the
        card's id by the toggled record, flips `pause`, hands the list to the
        screen and writes it to the store. The screen then renders the card
        with the new record, and the effect on `pause` reschedules the
        interval. */
    method Resume(store: Store, home: HomeScreen, now: int)
      requires Valid() && HasId(store.timers, item.id)
      modifies this, store, home
      ensures Valid()
      ensures item == Resumed(old(item), old(time), now)
      ensures pause == !old(pause) && time == old(time)
      ensures ticking == (!pause && time > 0)
      ensures store.timers == ReplaceById(old(store.timers), item.id, item)
      ensures home.timers == store.timers && store.history == old(store.history)
      ensures home.action == old(home.action) && home.hidden == old(home.hidden)
    {
      var loaded := store.timers;
      var timers := new Timer[|loaded|](i requires 0 <= i < |loaded| => loaded[i]);
      assert timers[..] == loaded;
      var index := FindIndex(timers[..], item.id);
      var updated := Resumed(item, time, now);
      timers[index] := updated;
      pause := !pause;
      home.SetTimers(timers[..]);
      store.SetTimers(timers[..]);
      item := updated;
      ticking := !pause && ActualRemaining(item, now) > 0;
    }

    /** `reset`: as `resumeTimer`, with the reset record; the card shows the
        full duration, paused, and its interval is cleared. */
    method ResetTimer(store: Store, home: HomeScreen, now: int)
      requires Valid() && HasId(store.timers, item.id)
      modifies this, store, home
      ensures Valid()
      ensures item == Reset(old(item), now)
      ensures pause && time == item.duration && !ticking
      ensures store.timers == ReplaceById(old(store.timers), item.id, item)
      ensures home.timers == store.timers && store.history == old(store.history)
      ensures home.action == old(home.action) && home.hidden == old(home.hidden)
    {
      var loaded := store.timers;
      var timers := new Timer[|loaded|](i requires 0 <= i < |loaded| => loaded[i]);
      assert timers[..] == loaded;
      var index := FindIndex(timers[..], item.id);
      var updated := Reset(item, now);
      timers[index] := updated;
      home.SetTimers(timers[..]);
      pause := true;
      time := item.duration;
      store.SetTimers(timers[..]);
      item := updated;
      ticking := false;
    }
  }
}
