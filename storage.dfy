/** The device's key-value store as the app uses it: two JSON lists of
    timers, under the keys `timers` and `history`. A key that was never
    written reads as the empty list. */
module Storage {
  import opened Timers

  class Store {
    var timers: seq<Timer>
    var history: seq<Timer>

    constructor (timers: seq<Timer>, history: seq<Timer>)
      ensures this.timers == timers && this.history == history
    {
      this.timers := timers;
      this.history := history;
    }

    /** `setItem('timers', ...)`: the whole active list is written at once. */
    method SetTimers(ts: seq<Timer>)
      modifies this
      ensures timers == ts && history == old(history)
    {
      timers := ts;
    }

    /** `updateHistory`: read the history list, append the item, write it back. */
    method UpdateHistory(item: Timer)
      modifies this
      ensures history == old(history) + [item] && timers == old(timers)
    {
      var stored := history;
      history := stored + [item];
    }
  }
}
