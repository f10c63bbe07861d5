/** `groupedTimers`, the category sections of the home screen, and the
    per-section hide toggle. */
module Grouping {
  import opened Timers
  import Decimal

  datatype Section = Section(title: string, data: seq<Timer>)

  /** Some timer of `ts` has category `c`. */
  predicate Occurs(ts: seq<Timer>, c: string) {
    exists i :: 0 <= i < |ts| && ts[i].category == c
  }

  /** A category occurs in a non-empty list exactly when it occurs before the last timer or is the last timer's. */
  lemma OccursLast(ts: seq<Timer>)
    requires ts != []
    ensures forall c :: Occurs(ts, c) <==> Occurs(ts[..|ts| - 1], c) || ts[|ts| - 1].category == c
  {
    var front := ts[..|ts| - 1];
    assert forall i :: 0 <= i < |front| ==> front[i] == ts[i];
    forall c | Occurs(ts, c) && ts[|ts| - 1].category != c
      ensures Occurs(front, c)
    {
      var i :| 0 <= i < |ts| && ts[i].category == c;
      assert front[i].category == c;
    }
  }

  /** The categories of `ts`, each once, in the order first seen. */
  function Categories(ts: seq<Timer>): (cs: seq<string>)
    ensures forall i, j :: 0 <= i < j < |cs| ==> cs[i] != cs[j]
    ensures forall c :: c in cs <==> Occurs(ts, c)
  {
    if ts == [] then []
    else
      var front := ts[..|ts| - 1];
      var cs := Categories(front);
      var c := ts[|ts| - 1].category;
      OccursLast(ts);
      if c in cs then cs else cs + [c]
  }

  /** The timers of `ts` whose category is `c`, in input order. */
  function Members(ts: seq<Timer>, c: string): (ms: seq<Timer>)
    ensures forall x :: x in ms ==> x.category == c
    ensures ms == [] <==> !Occurs(ts, c)
  {
    if ts == [] then []
    else
      var front := ts[..|ts| - 1];
      var last := ts[|ts| - 1];
      assert forall i :: 0 <= i < |front| ==> front[i] == ts[i];
      OccursLast(ts);
      Members(front, c) + (if last.category == c then [last] else [])
  }

  /** Every timer of category `c` is a member of its section. */
  lemma {:induction false} MembersComplete(ts: seq<Timer>, c: string)
    ensures forall i :: 0 <= i < |ts| && ts[i].category == c ==> ts[i] in Members(ts, c)
  {
    if ts != [] {
      var front := ts[..|ts| - 1];
      MembersComplete(front, c);
      assert forall i :: 0 <= i < |front| ==> front[i] == ts[i];
    }
  }

  /** Every member of a category is a timer of the list. */
  lemma {:induction false} MembersFromList(ts: seq<Timer>, c: string)
    ensures forall x :: x in Members(ts, c) ==> x in ts
  {
    if ts != [] {
      var front := ts[..|ts| - 1];
      MembersFromList(front, c);
      assert forall x :: x in front ==> x in ts;
    }
  }

  /** The sections the home screen lists: one per category, in first-seen order. */
  ghost function Grouped(ts: seq<Timer>): seq<Section> {
    var cs := Categories(ts);
    seq(|cs|, k requires 0 <= k < |cs| => Section(cs[k], Members(ts, cs[k])))
  }

  /** The position of the first timer of category `c`, -1 when there is none. */
  function FirstPos(ts: seq<Timer>, c: string): (p: int)
    ensures -1 <= p < |ts|
    ensures p == -1 <==> !Occurs(ts, c)
    ensures p >= 0 ==> ts[p].category == c && forall j :: 0 <= j < p ==> ts[j].category != c
  {
    if ts == [] then -1
    else if ts[0].category == c then 0
    else
      var p := FirstPos(ts[1..], c);
      if p == -1 then -1 else p + 1
  }

  function Flatten(ss: seq<Section>): seq<Timer> {
    if ss == [] then [] else ss[0].data + Flatten(ss[1..])
  }

  /** Filtering distributes over concatenation: records of an earlier part
      of the list stay ahead of records of a later part. */
  lemma {:induction false} MembersAppend(a: seq<Timer>, b: seq<Timer>, c: string)
    ensures Members(a + b, c) == Members(a, c) + Members(b, c)
    decreases |b|
  {
    if b != [] {
      var b' := b[..|b| - 1];
      assert (a + b)[..|a + b| - 1] == a + b';
      MembersAppend(a, b', c);
    } else {
      assert a + b == a;
    }
  }

  /** Sections come in the order in which their categories first occur:
      of two sections, the earlier one's category occurs first. */
  lemma {:induction false} CategoriesFirstSeenOrder(ts: seq<Timer>, i: int, j: int)
    requires 0 <= i < j < |Categories(ts)|
    ensures 0 <= FirstPos(ts, Categories(ts)[i]) < FirstPos(ts, Categories(ts)[j])
  {
    var front := ts[..|ts| - 1];
    var t := ts[|ts| - 1];
    assert ts == front + [t];
    var cs := Categories(front);
    var cs' := Categories(ts);
    CategoriesSnoc(front, t);
    FirstPosSnoc(front, t, ts, cs'[i]);
    FirstPosSnoc(front, t, ts, cs'[j]);
    assert cs'[i] == cs[i] && cs[i] in cs;
    if j < |cs| {
      assert cs'[j] == cs[j] && cs[j] in cs;
      CategoriesFirstSeenOrder(front, i, j);
    } else {
      assert t.category !in cs && cs' == cs + [t.category];
      assert cs'[j] == t.category;
    }
  }

  /** One more timer does not move the first position of a category already
      present; a new category is first seen at the new last position. */
  lemma FirstPosSnoc(front: seq<Timer>, t: Timer, ts: seq<Timer>, d: string)
    requires ts == front + [t]
    ensures d in Categories(front) ==> 0 <= FirstPos(ts, d) == FirstPos(front, d) < |front|
    ensures d !in Categories(front) && d == t.category ==> FirstPos(ts, d) == |front|
  {
    assert forall m :: 0 <= m < |front| ==> ts[m] == front[m];
    if d in Categories(front) {
      var p := FirstPos(front, d);
      assert ts[p] == front[p];
    } else if d == t.category {
      assert ts[|front|] == t;
    }
  }

  lemma CategoriesSnoc(ts: seq<Timer>, t: Timer)
    ensures Categories(ts + [t]) == if t.category in Categories(ts) then Categories(ts) else Categories(ts) + [t.category]
  {
    assert (ts + [t])[..|ts|] == ts;
  }

  lemma MembersSnoc(ts: seq<Timer>, t: Timer, c: string)
    ensures Members(ts + [t], c) == Members(ts, c) + (if t.category == c then [t] else [])
  {
    assert (ts + [t])[..|ts|] == ts;
  }

  lemma {:induction false} FlattenSnoc(ss: seq<Section>, s: Section)
    ensures Flatten(ss + [s]) == Flatten(ss) + s.data
  {
    if ss == [] {
      assert [s][1..] == [];
    } else {
      assert (ss + [s])[1..] == ss[1..] + [s];
      FlattenSnoc(ss[1..], s);
    }
  }

  lemma {:induction false} FlattenPush(ss: seq<Section>, k: nat, t: Timer)
    requires k < |ss|
    ensures multiset(Flatten(ss[k := Section(ss[k].title, ss[k].data + [t])]))
         == multiset(Flatten(ss)) + multiset{t}
  {
    var ss' := ss[k := Section(ss[k].title, ss[k].data + [t])];
    assert Flatten(ss') == ss'[0].data + Flatten(ss'[1..]);
    assert Flatten(ss) == ss[0].data + Flatten(ss[1..]);
    if k == 0 {
      assert ss'[1..] == ss[1..];
      assert multiset(ss'[0].data) == multiset(ss[0].data) + multiset{t};
    } else {
      assert ss'[1..] == ss[1..][k - 1 := Section(ss[k].title, ss[k].data + [t])];
      assert ss'[0] == ss[0];
      FlattenPush(ss[1..], k - 1, t);
    }
  }

  function TitleIndex(cs: seq<string>, c: string): (k: nat)
    requires c in cs
    ensures k < |cs| && cs[k] == c
  {
    if cs[0] == c then 0 else 1 + TitleIndex(cs[1..], c)
  }

  /** An existing section after one more timer: the timer joins it exactly when it has its category. */
  lemma GroupedSnocAt(ts: seq<Timer>, t: Timer, k: nat)
    requires k < |Categories(ts)|
    ensures k < |Grouped(ts + [t])|
    ensures var c := Categories(ts)[k];
            Grouped(ts + [t])[k] == Section(c, Members(ts, c) + (if t.category == c then [t] else []))
  {
    CategoriesSnoc(ts, t);
    MembersSnoc(ts, t, Categories(ts)[k]);
  }

  /** A timer of a category already present joins that category's section at the end. */
  lemma GroupedSnocJoin(ts: seq<Timer>, t: Timer)
    requires t.category in Categories(ts)
    ensures var k := TitleIndex(Categories(ts), t.category);
      Grouped(ts + [t]) == Grouped(ts)[k := Section(t.category, Members(ts, t.category) + [t])]
  {
    var cs := Categories(ts);
    var k0 := TitleIndex(cs, t.category);
    var g' := Grouped(ts + [t]);
    var upd := Grouped(ts)[k0 := Section(t.category, Members(ts, t.category) + [t])];
    CategoriesSnoc(ts, t);
    assert |g'| == |upd|;
    forall k | 0 <= k < |cs|
      ensures g'[k] == upd[k]
    {
      GroupedSnocAt(ts, t, k);
    }
  }

  /** A timer of a new category opens a new last section holding just that timer. */
  lemma GroupedSnocOpen(ts: seq<Timer>, t: Timer)
    requires t.category !in Categories(ts)
    ensures Grouped(ts + [t]) == Grouped(ts) + [Section(t.category, [t])]
  {
    var n := |Categories(ts)|;
    var g, g' := Grouped(ts), Grouped(ts + [t]);
    GroupedSnocNewLast(ts, t);
    forall k | 0 <= k < n
      ensures g'[k] == g[k]
    {
      GroupedSnocAt(ts, t, k);
    }
    assert g' == g + [g'[n]];
  }

  /** The section a new category opens is the last one and holds only the new timer. */
  lemma GroupedSnocNewLast(ts: seq<Timer>, t: Timer)
    requires t.category !in Categories(ts)
    ensures |Grouped(ts + [t])| == |Categories(ts)| + 1
    ensures Grouped(ts + [t])[|Categories(ts)|] == Section(t.category, [t])
  {
    var c := t.category;
    CategoriesSnoc(ts, t);
    assert Categories(ts + [t]) == Categories(ts) + [c];
    assert !Occurs(ts, c) && Members(ts, c) == [];
    MembersSnoc(ts, t, c);
  }

  /** The concatenated sections are a permutation of the input list. */
  lemma {:induction false} GroupedIsPermutation(ts: seq<Timer>)
    ensures multiset(Flatten(Grouped(ts))) == multiset(ts)
    decreases |ts|
  {
    if ts == [] {
      assert Grouped(ts) == [];
    } else {
      var front := ts[..|ts| - 1];
      var t := ts[|ts| - 1];
      assert front + [t] == ts;
      GroupedIsPermutation(front);
      if t.category in Categories(front) {
        GroupedSnocJoin(front, t);
        var k := TitleIndex(Categories(front), t.category);
        assert Grouped(front)[k] == Section(t.category, Members(front, t.category));
        FlattenPush(Grouped(front), k, t);
      } else {
        GroupedSnocOpen(front, t);
        FlattenSnoc(Grouped(front), Section(t.category, [t]));
      }
    }
  }

  /** The sections partition the list: no section is empty, titles are
      distinct, every member has its section's title as category, and every
      timer lies in the one section titled with its category. */
  lemma GroupedIsPartition(ts: seq<Timer>)
    ensures var g := Grouped(ts);
      && (forall k :: 0 <= k < |g| ==> |g[k].data| > 0)
      && (forall k1, k2 :: 0 <= k1 < k2 < |g| ==> g[k1].title != g[k2].title)
      && (forall k, x :: 0 <= k < |g| && x in g[k].data ==> x.category == g[k].title && x in ts)
      && (forall i :: 0 <= i < |ts| ==>
            exists k :: 0 <= k < |g| && g[k].title == ts[i].category && ts[i] in g[k].data)
  {
    var g := Grouped(ts);
    var cs := Categories(ts);
    forall k | 0 <= k < |g|
      ensures forall x :: x in g[k].data ==> x in ts
    {
      MembersFromList(ts, cs[k]);
    }
    forall k | 0 <= k < |g|
      ensures |g[k].data| > 0
    {
      assert cs[k] in cs && Occurs(ts, cs[k]);
    }
    forall i | 0 <= i < |ts|
      ensures exists k :: 0 <= k < |g| && g[k].title == ts[i].category && ts[i] in g[k].data
    {
      var c := ts[i].category;
      assert Occurs(ts, c);
      var k := TitleIndex(cs, c);
      MembersComplete(ts, c);
      assert g[k].title == c && ts[i] in g[k].data;
    }
  }

  /** A JavaScript array-index key: the canonical decimal form of an integer
      from 0 to 2^32 - 2 ("0", "17", ...). `Object.entries` lists such keys
      first, in numeric order, ahead of all other keys. */
  predicate IsIntegerKey(s: string) {
    && Decimal.IsDigits(s) && |s| > 0
    && (s[0] == '0' ==> |s| == 1)
    && (|s| < 10 || (|s| == 10 && DigitsAtMost(s, "4294967294")))
  }

  /** Digit-wise comparison of two digit strings of one length: the numeric order. */
  predicate DigitsAtMost(s: string, t: string)
    requires |s| == |t|
  {
    s == [] || s[0] < t[0] || (s[0] == t[0] && DigitsAtMost(s[1..], t[1..]))
  }

  /** No timer's category is an array-index key, so `Object.entries` lists the keys in insertion order. */
  predicate NoIntegerKeys(timers: seq<Timer>) {
    forall i :: 0 <= i < |timers| ==> !IsIntegerKey(timers[i].category)
  }

  /** None of the six category keys is an array-index key. */
  lemma CategoryKeysAreNotIntegerKeys(c: Category)
    ensures !IsIntegerKey(c.Key())
  {
    assert !Decimal.IsDigit(c.Key()[0]);
  }

  /** Every timer's category is one of the six category keys, the only
      values the create-timer form offers. On any other string the reduce
      can go wrong: a name inherited from `Object.prototype` ("toString",
      "constructor", ...) reads as an existing entry and the push throws. */
  predicate KnownCategories(timers: seq<Timer>) {
    forall i :: 0 <= i < |timers| ==> CategoryOfKey(timers[i].category).Some?
  }

  /** Timers of the six categories have no array-index key among them. */
  lemma KnownCategoriesHaveNoIntegerKeys(timers: seq<Timer>)
    requires KnownCategories(timers)
    ensures NoIntegerKeys(timers)
  {
    forall i | 0 <= i < |timers|
      ensures !IsIntegerKey(timers[i].category)
    {
      CategoryKeysAreNotIntegerKeys(CategoryOfKey(timers[i].category).value);
    }
  }

  /** `groupedTimers`: the reduce into an object keyed by category, then
      `Object.entries` of that object, one section per key. With no
      array-index key, `Object.entries` lists the keys in insertion order. */
  method GroupTimers(timers: seq<Timer>) returns (sections: seq<Section>)
    requires KnownCategories(timers)
    ensures sections == Grouped(timers)
  {
    KnownCategoriesHaveNoIntegerKeys(timers);
    var keys, acc := ReduceByCategory(timers);
    sections := seq(|keys|, k requires 0 <= k < |keys| => Section(keys[k], acc[keys[k]]));
    EntriesAreGrouped(timers, keys, acc, sections);
  }

  /** The reduce: each timer is pushed onto the array under its category,
      which is created empty the first time the category is met. The object's
      keys, in insertion order, are returned as `keys`. */
  method ReduceByCategory(timers: seq<Timer>) returns (keys: seq<string>, acc: map<string, seq<Timer>>)
    requires KnownCategories(timers)
    ensures AccumulatorOf(timers, keys, acc)
  {
    keys, acc := [], map[];
    var i := 0;
    assert timers[..0] == [];
    assert AccumulatorOf(timers[..0], keys, acc);
    while i < |timers|
      invariant 0 <= i <= |timers|
      invariant AccumulatorOf(timers[..i], keys, acc)
    {
      var timer := timers[i];
      ghost var done := timers[..i];
      assert timers[..i + 1] == done + [timer];
      if timer.category !in acc {
        AccumulatorOpen(done, timer, keys, acc);
        acc := acc[timer.category := []];
        keys := keys + [timer.category];
      } else {
        AccumulatorPush(done, timer, keys, acc);
      }
      acc := acc[timer.category := acc[timer.category] + [timer]];
      i := i + 1;
    }
    assert timers[..i] == timers;
  }

  /** The reduce's accumulator after `done`: its keys in insertion order are
      the categories first seen, and each key holds that category's members. */
  ghost predicate AccumulatorOf(done: seq<Timer>, keys: seq<string>, acc: map<string, seq<Timer>>) {
    && keys == Categories(done)
    && (forall c :: c in acc <==> c in keys)
    && (forall c :: c in acc ==> acc[c] == Members(done, c))
  }

  /** A timer of a category already in the accumulator is pushed onto its array. */
  lemma AccumulatorPush(done: seq<Timer>, timer: Timer, keys: seq<string>, acc: map<string, seq<Timer>>)
    requires AccumulatorOf(done, keys, acc) && timer.category in acc
    ensures AccumulatorOf(done + [timer], keys, acc[timer.category := acc[timer.category] + [timer]])
  {
    var c := timer.category;
    var acc' := acc[c := acc[c] + [timer]];
    assert keys == Categories(done + [timer]) by {
      CategoriesSnoc(done, timer);
    }
    forall d | d in acc'
      ensures acc'[d] == Members(done + [timer], d)
    {
      MembersSnoc(done, timer, d);
    }
  }

  /** A timer of a new category opens an empty array under a new last key, then is pushed onto it. */
  lemma AccumulatorOpen(done: seq<Timer>, timer: Timer, keys: seq<string>, acc: map<string, seq<Timer>>)
    requires AccumulatorOf(done, keys, acc) && timer.category !in acc
    ensures var c := timer.category;
            var acc1 := acc[c := []];
            AccumulatorOf(done + [timer], keys + [c], acc1[c := acc1[c] + [timer]])
  {
    var c := timer.category;
    var acc1 := acc[c := []];
    var acc' := acc1[c := acc1[c] + [timer]];
    CategoriesSnoc(done, timer);
    assert Members(done, c) == [];
    forall d | d in acc'
      ensures acc'[d] == Members(done + [timer], d)
    {
      MembersSnoc(done, timer, d);
    }
  }

  /** Listing the finished accumulator in key order gives the sections. */
  lemma EntriesAreGrouped(ts: seq<Timer>, keys: seq<string>, acc: map<string, seq<Timer>>, sections: seq<Section>)
    requires AccumulatorOf(ts, keys, acc)
    requires |sections| == |keys|
    requires forall k :: 0 <= k < |keys| ==> sections[k] == Section(keys[k], acc[keys[k]])
    ensures sections == Grouped(ts)
  {
    forall k | 0 <= k < |keys|
      ensures sections[k] == Grouped(ts)[k]
    {
      assert keys[k] in keys;
    }
  }

  /** Whether a section's members are hidden (`hidden[title]`, absent reads as false). */
  predicate IsHidden(hidden: map<string, bool>, title: string) {
    title in hidden && hidden[title]
  }

  /** `hideSection`: flips one section's hidden flag and keeps the others. */
  function ToggleHidden(hidden: map<string, bool>, title: string): (h: map<string, bool>)
    ensures IsHidden(h, title) == !IsHidden(hidden, title)
    ensures forall other :: other != title ==> IsHidden(h, other) == IsHidden(hidden, other)
  {
    hidden[title := !(title in hidden && hidden[title])]
  }

  /** Toggling a section twice restores what is hidden (an absent flag has become `false`). */
  lemma ToggleTwice(hidden: map<string, bool>, title: string)
    ensures forall t :: IsHidden(ToggleHidden(ToggleHidden(hidden, title), title), t) == IsHidden(hidden, t)
  {
  }
}
