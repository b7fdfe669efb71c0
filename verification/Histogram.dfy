/**
 * The sorting histogram: points are collected per label for one window, sorted, and reported as percentile
 * gauges beside running sum and count counters.
 */
module Histogram {
  import opened Prelude

  const MAX_POINTS: nat := 500_000

  type Label = seq<string>

  /** What the collector receives: a point, or the news that no sender is left. */
  datatype Event = Point(name: Label, value: nat) | Disconnected

  type Window = map<Label, seq<nat>>

  // --- Collecting ---

  /** The values of one label, in the order they arrived. */
  function ValuesOf(events: seq<Event>, name: Label): seq<nat> {
    if events == [] then []
    else
      var before, last := ValuesOf(events[..|events| - 1], name), events[|events| - 1];
      if last.Point? && last.name == name then before + [last.value] else before
  }

  /** What one window takes in before it drops points. */
  function Taken(events: seq<Event>): seq<Event> {
    if |events| <= MAX_POINTS then events else events[..MAX_POINTS]
  }

  /** The window holds exactly the labels seen, each with its values in order. */
  ghost predicate Groups(w: Window, events: seq<Event>) {
    && (forall l :: l in w <==> ValuesOf(events, l) != [])
    && (forall l | l in w :: w[l] == ValuesOf(events, l))
  }

  /** An event past the limit is dropped unread, so a disconnection then goes unnoticed until the next window. */
  method Cycle(events: seq<Event>) returns (r: Outcome<Window>)
    ensures r.Err? <==> Disconnected in Taken(events)
    ensures r.Ok? ==> Groups(r.value, Taken(events))
    ensures !r.Panicked?
  {
    var data: Window := map[];
    var count := 0;
    for i := 0 to |events|
      invariant count == i
      invariant Disconnected !in Taken(events[..i])
      invariant Groups(data, Taken(events[..i]))
    {
      TakenStep(events, i);
      count := count + 1;
      if count > MAX_POINTS { continue; }
      match events[i] {
        case Point(name, value) =>
          var values := if name in data then data[name] else [];
          GroupsStep(data, Taken(events[..i]), events[i]);
          data := data[name := values + [value]];
        case Disconnected =>
          TakenPrefix(events, i + 1);
          return Err;
      }
    }
    assert events[..|events|] == events;
    return Ok(data);
  }

  lemma TakenStep(events: seq<Event>, i: nat)
    requires i < |events|
    ensures Taken(events[..i + 1]) == if i < MAX_POINTS then Taken(events[..i]) + [events[i]] else Taken(events[..i])
  {}

  lemma TakenPrefix(events: seq<Event>, i: nat)
    requires i <= |events|
    ensures Taken(events[..i]) <= Taken(events)
  {}

  lemma GroupsStep(data: Window, events: seq<Event>, e: Event)
    requires Groups(data, events) && e.Point?
    ensures Groups(data[e.name := (if e.name in data then data[e.name] else []) + [e.value]], events + [e])
  {
    assert (events + [e])[..|events|] == events;
  }

  // --- Sorting and percentiles ---

  predicate Sorted(s: seq<nat>) {
    forall i, j | 0 <= i <= j < |s| :: s[i] <= s[j]
  }

  function Insert(x: nat, s: seq<nat>): (r: seq<nat>)
    requires Sorted(s)
    ensures Sorted(r) && |r| == |s| + 1
    ensures forall y | y in r :: y == x || y in s
  {
    if s == [] || x <= s[0] then [x] + s
    else
      var r := Insert(x, s[1..]);
      assert forall i | 0 <= i < |r| :: s[0] <= r[i] by {
        forall i | 0 <= i < |r| ensures s[0] <= r[i] { assert r[i] == x || r[i] in s[1..]; }
      }
      [s[0]] + r
  }

  function Sort(s: seq<nat>): (r: seq<nat>)
    ensures Sorted(r) && |r| == |s|
  {
    if s == [] then [] else Insert(s[|s| - 1], Sort(s[..|s| - 1]))
  }

  lemma {:induction false} InsertPermutes(x: nat, s: seq<nat>)
    requires Sorted(s)
    ensures multiset(Insert(x, s)) == multiset(s) + multiset{x}
  {
    if s != [] && x > s[0] {
      InsertPermutes(x, s[1..]);
      assert s == [s[0]] + s[1..];
    }
  }

  lemma {:induction false} SortPermutes(s: seq<nat>)
    ensures multiset(Sort(s)) == multiset(s)
  {
    if s == [] {
    } else {
      SortPermutes(s[..|s| - 1]);
      InsertPermutes(s[|s| - 1], Sort(s[..|s| - 1]));
      assert s == s[..|s| - 1] + [s[|s| - 1]];
    }
  }

  /** Index arithmetic on 64-bit words, which wraps. */
  function PctIndex(len: nat, pct: nat): nat {
    len * pct % TWO_64 / 1000
  }

  /** An index computed from a product `x` that fits a machine word. */
  lemma IndexOfProduct(x: nat, len: nat)
    requires x < TWO_64
    ensures x % TWO_64 / 1000 == x / 1000
    ensures x / 1000 < len <==> x < 1000 * len
  {}

  lemma ProductGrows(k: nat, a: nat, b: nat)
    requires a <= b
    ensures k * a <= k * b
  {}

  /** A percentile below 1000 always finds a point; from 1000 on none does, as long as the product does not wrap. */
  lemma PctIndexInRange(len: nat, pct: nat)
    requires 0 < len <= MAX_POINTS
    ensures pct < 1000 ==> PctIndex(len, pct) == len * pct / 1000 < len
    ensures pct >= 1000 && len * pct < TWO_64 ==> PctIndex(len, pct) >= len
  {
    var x := len * pct;
    if pct < 1000 {
      ProductGrows(len, pct, 999);
      IndexOfProduct(x, len);
    } else if x < TWO_64 {
      ProductGrows(len, 1000, pct);
      IndexOfProduct(x, len);
    }
  }

  function Percentile(data: seq<nat>, pct: nat): Option<nat> {
    var i := PctIndex(|data|, pct);
    if i < |data| then Some(Sort(data)[i]) else None
  }

  /** How many points are below `v`, or at or below it. */
  function Count(s: seq<nat>, v: nat, inclusive: bool): nat {
    if s == [] then 0 else Count(s[..|s| - 1], v, inclusive) + One(s[|s| - 1], v, inclusive)
  }

  function One(x: nat, v: nat, inclusive: bool): nat {
    if x < v || (inclusive && x == v) then 1 else 0
  }

  lemma {:induction false} CountConcat(s: seq<nat>, t: seq<nat>, v: nat, inclusive: bool)
    ensures Count(s + t, v, inclusive) == Count(s, v, inclusive) + Count(t, v, inclusive)
  {
    if t == [] {
      assert s + t == s;
    } else {
      assert (s + t)[..|s + t| - 1] == s + t[..|t| - 1];
      CountConcat(s, t[..|t| - 1], v, inclusive);
    }
  }

  lemma {:induction false} CountInsert(x: nat, s: seq<nat>, v: nat, inclusive: bool)
    requires Sorted(s)
    ensures Count(Insert(x, s), v, inclusive) == Count(s, v, inclusive) + One(x, v, inclusive)
  {
    CountConcat([x], s, v, inclusive);
    assert Count([x], v, inclusive) == One(x, v, inclusive) by { assert [x][..0] == []; }
    if s != [] && x > s[0] {
      CountInsert(x, s[1..], v, inclusive);
      CountConcat([s[0]], s[1..], v, inclusive);
      CountConcat([s[0]], Insert(x, s[1..]), v, inclusive);
      assert s == [s[0]] + s[1..];
    }
  }

  /** Sorting does not change how many points lie below any value. */
  lemma {:induction false} CountSort(s: seq<nat>, v: nat, inclusive: bool)
    ensures Count(Sort(s), v, inclusive) == Count(s, v, inclusive)
  {
    if s == [] {
    } else {
      CountSort(s[..|s| - 1], v, inclusive);
      CountInsert(s[|s| - 1], Sort(s[..|s| - 1]), v, inclusive);
    }
  }

  lemma {:induction false} CountAll(s: seq<nat>, v: nat, inclusive: bool)
    ensures Count(s, v, inclusive) <= |s|
    ensures inclusive && (forall i | 0 <= i < |s| :: s[i] <= v) ==> Count(s, v, inclusive) == |s|
  {
    if s == [] {
    } else {
      CountAll(s[..|s| - 1], v, inclusive);
    }
  }

  /** In a sorted sequence, at most `i` points lie below the one at `i`, and more than `i` lie at or below it. */
  lemma {:induction false} CountSorted(s: seq<nat>, i: nat)
    requires Sorted(s) && i < |s|
    ensures Count(s, s[i], false) <= i < Count(s, s[i], true)
  {
    var n := |s| - 1;
    if i < n {
      CountSorted(s[..n], i);
    } else {
      CountAll(s, s[n], true);
      CountAll(s[..n], s[n], false);
    }
  }

  lemma RankOfSorted(data: seq<nat>, i: nat)
    requires i < |data|
    ensures var v := Sort(data)[i]; v in data && Count(data, v, false) <= i < Count(data, v, true)
  {
    var sorted := Sort(data);
    var v := sorted[i];
    CountSort(data, v, false);
    CountSort(data, v, true);
    CountSorted(sorted, i);
    SortPermutes(data);
    assert v in multiset(sorted);
  }

  /**
   * The reported value for percentile `pct` of the points as they arrived: at most len * pct / 1000 points are
   * strictly below it, and more than that are at or below it.
   */
  lemma PercentileRank(data: seq<nat>, pct: nat)
    requires 0 < |data| <= MAX_POINTS && pct < 1000
    ensures Percentile(data, pct).Some?
    ensures var v := Percentile(data, pct).value;
      v in data && Count(data, v, false) <= |data| * pct / 1000 < Count(data, v, true)
  {
    PctIndexInRange(|data|, pct);
    RankOfSorted(data, PctIndex(|data|, pct));
  }
}
