/** The timer record and the category constants of the app. */
module Timers {

  datatype Option<+T> = None | Some(value: T)

  /** A timer as it is kept in the `timers` and `history` lists.
      Times and durations are milliseconds. `startTime` is None where the
      record holds `null` (a freshly created timer); `paused` is None where
      the field is absent (also a freshly created timer). */
  datatype Timer = Timer(
    id: string,
    name: string,
    duration: int,
    category: string,
    startTime: Option<int>,
    remainingDuration: int,
    paused: Option<bool>)

  /** The truthiness of `timer.paused`: an absent field reads as false. */
  predicate IsPaused(t: Timer)
    ensures t.paused.None? ==> !IsPaused(t)
    ensures t.paused.Some? ==> (IsPaused(t) <==> t.paused.value)
  {
    t.paused == Some(true)
  }

  /** `new Date(t.startTime).getTime()`: a null start time is the epoch. */
  function StartMs(t: Timer): (ms: int)
    ensures t.startTime.None? ==> ms == 0
    ensures t.startTime.Some? ==> ms == t.startTime.value
  {
    if t.startTime.Some? then t.startTime.value else 0
  }

  /** The fields no transition of the app ever changes. */
  predicate SameIdentity(a: Timer, b: Timer) {
    a.id == b.id && a.name == b.name && a.category == b.category && a.duration == b.duration
  }

  /** The closed set of category keys, each with its display label. */
  datatype Category = Work | Break | Exercise | Study | Meditate | Others {
    function Key(): string {
      match this
      case Work => "WORK"
      case Break => "BREAK"
      case Exercise => "EXERCISE"
      case Study => "STUDY"
      case Meditate => "MEDITATE"
      case Others => "OTHERS"
    }

    function Label(): string {
      match this
      case Work => "Work"
      case Break => "Break"
      case Exercise => "Exercise"
      case Study => "Study"
      case Meditate => "Meditate"
      case Others => "Others"
    }
  }

  /** `CATEGORIES[key]` as a lookup: the category whose key is `key`, if any. */
  function CategoryOfKey(key: string): (c: Option<Category>)
    ensures c.Some? ==> c.value.Key() == key
    ensures c.None? ==> forall k: Category :: k.Key() != key
  {
    if key == "WORK" then Some(Work)
    else if key == "BREAK" then Some(Break)
    else if key == "EXERCISE" then Some(Exercise)
    else if key == "STUDY" then Some(Study)
    else if key == "MEDITATE" then Some(Meditate)
    else if key == "OTHERS" then Some(Others)
    else None
  }

  /** Distinct categories have distinct keys, so a key names one category. */
  lemma KeyRoundTrip(c: Category)
    ensures CategoryOfKey(c.Key()) == Some(c)
  {
  }
}
