/** The histogram reporter and collector as they run, and what the metrics mean after any number of windows. */
module HistogramReporting {
  import opened Prelude
  import opened Histogram

  const TWO_63: nat := 0x8000_0000_0000_0000

  /** What a signed gauge reads when a 64-bit point is put in it: the point, or from 2^63 on that less 2^64. */
  ghost predicate Shows(gauge: int, v: nat) {
    && (v < 0x8000_0000_0000_0000 ==> gauge == v)
    && (0x8000_0000_0000_0000 <= v < 0x1_0000_0000_0000_0000 ==> gauge == v - 0x1_0000_0000_0000_0000)
  }

  ghost predicate ShowsPercentile(gauge: int, data: seq<nat>, pct: nat) {
    Percentile(data, pct).Some? && Shows(gauge, Percentile(data, pct).value)
  }

  function AsI64(v: nat): (gauge: int)
    ensures Shows(gauge, v)
  {
    var u := v % TWO_64;
    if u < TWO_63 then u else u - TWO_64
  }

  function Sum(points: seq<nat>): nat {
    if points == [] then 0 else Sum(points[..|points| - 1]) + points[|points| - 1]
  }

  /** Every percentile finds a point. */
  predicate Reportable(pcts: seq<nat>, data: seq<nat>) {
    data != [] && forall i | 0 <= i < |pcts| :: Percentile(data, pcts[i]).Some?
  }

  function Percentiles(pcts: seq<nat>, data: seq<nat>): seq<int>
    requires Reportable(pcts, data)
  {
    seq(|pcts|, i requires 0 <= i < |pcts| => AsI64(Percentile(data, pcts[i]).value))
  }

  function Zeros(pcts: seq<nat>): seq<int> {
    seq(|pcts|, i => 0)
  }

  /** The metrics of one label: a gauge for each percentile once there are any, and the two counters. */
  datatype Row = Row(gauges: Option<seq<int>>, sum: nat, count: nat, known: bool)

  const NO_ROW: Row := Row(None, 0, 0, false)

  function AddData(pcts: seq<nat>, row: Row, data: seq<nat>): Row
    requires Reportable(pcts, data)
  {
    Row(Some(Percentiles(pcts, data)), (row.sum + Sum(data)) % TWO_64, (row.count + |data|) % TWO_64, true)
  }

  function ResetRow(pcts: seq<nat>, row: Row): Row {
    row.(gauges := Some(Zeros(pcts)))
  }

  /** What a window does to a label: its data is added, or its gauges are zeroed if it was seen before. */
  function AfterWindow(pcts: seq<nat>, row: Row, w: Window, l: Label): Row
    requires l in w ==> Reportable(pcts, w[l])
  {
    if l in w then AddData(pcts, row, w[l]) else if row.known then ResetRow(pcts, row) else row
  }

  /** Counters not yet created read zero. */
  datatype Metrics = Metrics(gauge: map<Label, seq<int>>, sum: map<Label, nat>, count: map<Label, nat>, known: set<Label>)

  function RowOf(m: Metrics, l: Label): Row {
    Row(
      if l in m.gauge then Some(m.gauge[l]) else None,
      if l in m.sum then m.sum[l] else 0,
      if l in m.count then m.count[l] else 0,
      l in m.known)
  }

  const EMPTY: Metrics := Metrics(map[], map[], map[], {})

  ghost predicate ReportableWindow(pcts: seq<nat>, w: Window) {
    forall l | l in w :: Reportable(pcts, w[l])
  }

  class Reporter {
    const percentiles: seq<nat>
    var gauge: map<Label, seq<int>>
    var sum: map<Label, nat>
    var count: map<Label, nat>
    var known: set<Label>

    constructor (percentiles: seq<nat>)
      ensures M() == EMPTY && this.percentiles == percentiles
    {
      this.percentiles := percentiles;
      gauge, sum, count, known := map[], map[], map[], {};
    }

    ghost function M(): Metrics
      reads this
    {
      Metrics(gauge, sum, count, known)
    }

    /** The gauges of one label; None when a percentile finds no point. */
    method ComputeGauges(data: seq<nat>) returns (gs: Option<seq<int>>)
      requires data != []
      ensures gs == if Reportable(percentiles, data) then Some(Percentiles(percentiles, data)) else None
      ensures gs.Some? ==> |gs.value| == |percentiles|
      ensures gs.Some? ==> forall i | 0 <= i < |percentiles| :: ShowsPercentile(gs.value[i], data, percentiles[i])
    {
      var sorted := Sort(data);
      var g: seq<int> := [];
      for i := 0 to |percentiles|
        invariant |g| == i
        invariant forall k | 0 <= k < i :: Percentile(data, percentiles[k]).Some? && g[k] == AsI64(Percentile(data, percentiles[k]).value)
      {
        var index := PctIndex(|data|, percentiles[i]);
        if index >= |sorted| {
          assert Percentile(data, percentiles[i]).None?;
          return None;
        }
        g := g + [AsI64(sorted[index])];
      }
      assert g == Percentiles(percentiles, data);
      gs := Some(g);
    }

    /** The sum wraps around like the machine word it is kept in. */
    method AddUp(data: seq<nat>) returns (total: nat)
      ensures total == Sum(data) % TWO_64
    {
      total := 0;
      for i := 0 to |data|
        invariant total == Sum(data[..i]) % TWO_64
      {
        assert data[..i + 1][..i] == data[..i];
        total := (total + data[i]) % TWO_64;
      }
      assert data[..|data|] == data;
    }

    method ReportLabel(l: Label, data: seq<nat>) returns (ok: bool)
      modifies this
      ensures ok == Reportable(percentiles, data)
      ensures ok ==> RowOf(M(), l) == AddData(percentiles, RowOf(old(M()), l), data)
      ensures forall k | k != l :: RowOf(M(), k) == RowOf(old(M()), k)
    {
      known := known + {l};
      if data == [] { return false; }
      var gs := ComputeGauges(data);
      if gs.None? { return false; }
      gauge := gauge[l := gs.value];
      var total := AddUp(data);
      AddWrapped(if l in sum then sum[l] else 0, Sum(data));
      sum := sum[l := ((if l in sum then sum[l] else 0) + total) % TWO_64];
      count := count[l := ((if l in count then count[l] else 0) + |data|) % TWO_64];
      return true;
    }

    /** Labels are visited in any order; the process panics exactly when some label is not reportable. */
    method Report(w: Window) returns (r: Outcome<()>)
      modifies this
      ensures r == if ReportableWindow(percentiles, w) then Ok(()) else Panicked
      ensures r.Ok? ==> forall l :: RowOf(M(), l) == AfterWindow(percentiles, RowOf(old(M()), l), w, l)
    {
      var resets, todo := known, w.Keys;
      while todo != {}
        invariant todo <= w.Keys && resets == old(known) - (w.Keys - todo)
        invariant forall l | l in w && l !in todo :: Reportable(percentiles, w[l])
        invariant forall l | l in w && l !in todo :: RowOf(M(), l) == AddData(percentiles, RowOf(old(M()), l), w[l])
        invariant forall l | l !in w || l in todo :: RowOf(M(), l) == RowOf(old(M()), l)
        decreases |todo|
      {
        var l :| l in todo;
        todo, resets := todo - {l}, resets - {l};
        var ok := ReportLabel(l, w[l]);
        if !ok { return Panicked; }
      }
      ResetAll(resets);
      return Ok(());
    }

    method ResetAll(labels: set<Label>)
      modifies `gauge
      ensures forall l | l in labels :: RowOf(M(), l) == ResetRow(percentiles, RowOf(old(M()), l))
      ensures forall l | l !in labels :: RowOf(M(), l) == RowOf(old(M()), l)
    {
      var todo := labels;
      while todo != {}
        invariant todo <= labels
        invariant forall l | l in labels && l !in todo :: RowOf(M(), l) == ResetRow(percentiles, RowOf(old(M()), l))
        invariant forall l | l !in labels || l in todo :: RowOf(M(), l) == RowOf(old(M()), l)
        decreases |todo|
      {
        var l :| l in todo;
        todo := todo - {l};
        gauge := gauge[l := Zeros(percentiles)];
      }
    }
  }

  lemma AddWrapped(a: nat, b: nat)
    ensures (a + b % TWO_64) % TWO_64 == (a + b) % TWO_64
  {
    assert b == b / TWO_64 * TWO_64 + b % TWO_64;
  }

  // --- Any number of windows ---

  /** What the collector meets in one window; `busy` when the previous report is still running. */
  datatype Input = Input(events: seq<Event>, busy: bool)

  /** The points of a label that reach the reporter. */
  function Accepted(input: Input, l: Label): seq<nat> {
    if input.busy then [] else ValuesOf(Taken(input.events), l)
  }

  function TotalSum(inputs: seq<Input>, l: Label): nat {
    if inputs == [] then 0 else TotalSum(inputs[..|inputs| - 1], l) + Sum(Accepted(inputs[|inputs| - 1], l))
  }

  function TotalCount(inputs: seq<Input>, l: Label): nat {
    if inputs == [] then 0 else TotalCount(inputs[..|inputs| - 1], l) + |Accepted(inputs[|inputs| - 1], l)|
  }

  /** The last window that was not dropped. */
  function LastWindow(inputs: seq<Input>): Option<seq<Event>> {
    if inputs == [] then None
    else if inputs[|inputs| - 1].busy then LastWindow(inputs[..|inputs| - 1])
    else Some(Taken(inputs[|inputs| - 1].events))
  }

  /** Each gauge of a known label is zero, or ranks among the label's points of the last window as its percentile says. */
  ghost predicate GaugesOk(pcts: seq<nat>, gauges: Option<seq<int>>, last: Option<seq<Event>>, l: Label) {
    && gauges.Some? && |gauges.value| == |pcts|
    && last.Some?
    && var data := ValuesOf(last.value, l);
       if data == [] then forall i | 0 <= i < |pcts| :: gauges.value[i] == 0
       else forall i | 0 <= i < |pcts| :: Ranks(data, pcts[i], gauges.value[i])
  }

  ghost predicate Ranks(data: seq<nat>, pct: nat, gauge: int) {
    exists v | v in data :: Shows(gauge, v) && Count(data, v, false) <= |data| * pct / 1000 < Count(data, v, true)
  }

  /** What holds of one label after `inputs`. */
  ghost predicate RowOk(pcts: seq<nat>, row: Row, inputs: seq<Input>, l: Label) {
    && row.sum == TotalSum(inputs, l) % TWO_64
    && row.count == TotalCount(inputs, l) % TWO_64
    && (row.known <==> TotalCount(inputs, l) > 0)
    && (if row.known then GaugesOk(pcts, row.gauges, LastWindow(inputs), l) else row.gauges.None?)
  }

  lemma {:induction false} ValuesLength(events: seq<Event>, l: Label)
    ensures |ValuesOf(events, l)| <= |events|
  {
    if events == [] {
    } else {
      ValuesLength(events[..|events| - 1], l);
    }
  }

  lemma PercentilesRank(pcts: seq<nat>, data: seq<nat>)
    requires 0 < |data| <= MAX_POINTS && forall p | p in pcts :: p < 1000
    ensures Reportable(pcts, data)
    ensures forall i | 0 <= i < |pcts| :: Ranks(data, pcts[i], Percentiles(pcts, data)[i])
  {
    forall i | 0 <= i < |pcts| ensures Percentile(data, pcts[i]).Some? && Ranks(data, pcts[i], AsI64(Percentile(data, pcts[i]).value)) {
      assert pcts[i] in pcts;
      PercentileRank(data, pcts[i]);
    }
  }

  lemma WindowReportable(pcts: seq<nat>, w: Window, events: seq<Event>)
    requires Groups(w, Taken(events)) && forall p | p in pcts :: p < 1000
    ensures ReportableWindow(pcts, w)
  {
    forall l | l in w ensures Reportable(pcts, w[l]) {
      ValuesLength(Taken(events), l);
      PercentilesRank(pcts, w[l]);
    }
  }

  /**
   * A collected window panics the reporter exactly when, for some label of `len` points and some percentile, the
   * product of the two, wrapped at 64 bits, is 1000 * len or more.
   */
  lemma PanicsExactly(pcts: seq<nat>, w: Window, events: seq<Event>)
    requires Groups(w, Taken(events))
    ensures ReportableWindow(pcts, w) <==> forall l, p | l in w && p in pcts :: |w[l]| * p % TWO_64 < 1000 * |w[l]|
  {
    forall l | l in w ensures Reportable(pcts, w[l]) <==> forall p | p in pcts :: |w[l]| * p % TWO_64 < 1000 * |w[l]| {
      ReportableExactly(pcts, w[l]);
    }
  }

  lemma ReportableExactly(pcts: seq<nat>, data: seq<nat>)
    requires data != []
    ensures Reportable(pcts, data) <==> forall p | p in pcts :: |data| * p % TWO_64 < 1000 * |data|
  {
    forall p ensures Percentile(data, p).Some? <==> |data| * p % TWO_64 < 1000 * |data| {
      IndexOfProduct(|data| * p % TWO_64, |data|);
    }
    assert forall i | 0 <= i < |pcts| :: pcts[i] in pcts;
  }

  /** For percentiles whose products do not wrap, that is data together with a percentile of 1000 or more. */
  lemma PanicsFromThousand(pcts: seq<nat>, w: Window, events: seq<Event>)
    requires Groups(w, Taken(events)) && forall l, p | l in w && p in pcts :: |w[l]| * p < TWO_64
    ensures ReportableWindow(pcts, w) <==> w.Keys == {} || forall p | p in pcts :: p < 1000
  {
    if forall p | p in pcts :: p < 1000 {
      WindowReportable(pcts, w, events);
    } else if w.Keys != {} {
      var l :| l in w.Keys;
      var i :| 0 <= i < |pcts| && pcts[i] >= 1000;
      ValuesLength(Taken(events), l);
      assert pcts[i] in pcts;
      PctIndexInRange(|w[l]|, pcts[i]);
      assert Percentile(w[l], pcts[i]).None?;
    }
  }

  lemma DroppedKeepsRow(pcts: seq<nat>, row: Row, inputs: seq<Input>, input: Input, l: Label)
    requires RowOk(pcts, row, inputs, l) && input.busy
    ensures RowOk(pcts, row, inputs + [input], l)
  {
    assert (inputs + [input])[..|inputs|] == inputs;
  }

  /** A reported window keeps the meaning of every label's metrics. */
  lemma WindowKeepsRow(pcts: seq<nat>, row: Row, inputs: seq<Input>, input: Input, w: Window, l: Label)
    requires RowOk(pcts, row, inputs, l) && !input.busy && Groups(w, Taken(input.events))
    requires ReportableWindow(pcts, w) && forall p | p in pcts :: p < 1000
    ensures RowOk(pcts, AfterWindow(pcts, row, w, l), inputs + [input], l)
  {
    assert (inputs + [input])[..|inputs|] == inputs;
    if l in w {
      ValuesLength(Taken(input.events), l);
      PercentilesRank(pcts, w[l]);
      AddBoth(TotalSum(inputs, l), Sum(w[l]));
      AddBoth(TotalCount(inputs, l), |w[l]|);
    }
  }

  lemma AddBoth(a: nat, b: nat)
    ensures (a % TWO_64 + b) % TWO_64 == (a + b) % TWO_64
  {
    AddWrapped(b, a);
  }

  /**
   * The collector: windows are collected, and reported unless the reporter is busy, until no sender is left.
   * `n` windows were completed. With percentiles below 1000 nothing panics, and the metrics of every label are
   * its totals over all accepted points and the percentiles of its last window.
   */
  method Collect(reporter: Reporter, inputs: seq<Input>) returns (n: nat)
    requires reporter.M() == EMPTY && forall p | p in reporter.percentiles :: p < 1000
    modifies reporter
    ensures n <= |inputs|
    ensures forall i | 0 <= i < n :: Disconnected !in Taken(inputs[i].events)
    ensures n < |inputs| ==> Disconnected in Taken(inputs[n].events)
    ensures forall l :: RowOk(reporter.percentiles, RowOf(reporter.M(), l), inputs[..n], l)
  {
    n := 0;
    while n < |inputs|
      invariant n <= |inputs|
      invariant forall i | 0 <= i < n :: Disconnected !in Taken(inputs[i].events)
      invariant forall l :: RowOk(reporter.percentiles, RowOf(reporter.M(), l), inputs[..n], l)
    {
      assert inputs[..n + 1] == inputs[..n] + [inputs[n]];
      ghost var before := reporter.M();
      var r := Cycle(inputs[n].events);
      if r.Err? { return; }
      if inputs[n].busy {
        forall l ensures RowOk(reporter.percentiles, RowOf(before, l), inputs[..n + 1], l) {
          DroppedKeepsRow(reporter.percentiles, RowOf(before, l), inputs[..n], inputs[n], l);
        }
      } else {
        WindowReportable(reporter.percentiles, r.value, inputs[n].events);
        var done := reporter.Report(r.value);
        forall l ensures RowOk(reporter.percentiles, RowOf(reporter.M(), l), inputs[..n + 1], l) {
          WindowKeepsRow(reporter.percentiles, RowOf(before, l), inputs[..n], inputs[n], r.value, l);
        }
      }
      n := n + 1;
    }
  }
}
