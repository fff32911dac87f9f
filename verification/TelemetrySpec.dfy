/** What a telemetry summary means: whole-list aggregates over all rows at once. */
module TelemetrySpec {
  import opened Common

  /** A job-written field; only a number of bounded size is used. */
  datatype Reading = Missing | Number(value: real)

  const MAX_METRIC_MAGNITUDE: real := 1000000000000000.0
  const MAX_GPU_INDEX: nat := 255
  const PHASE_SPAN_HEAD: nat := 128
  const PHASE_SPAN_TAIL: nat := 128

  datatype GpuSample = GpuSample(index: int, utilization: Reading, memory: Reading)

  /** One telemetry row; phase is None unless it is a safe phase name. */
  datatype Row = Row(timestamp: Reading, gpus: seq<GpuSample>, cpuLoad: Reading, phase: Option<string>)

  /** A GPU sample with the timestamp of its row. */
  datatype Stamped = Stamped(sample: GpuSample, timestamp: Reading)

  predicate Usable(r: Reading) {
    r.Number? && -MAX_METRIC_MAGNITUDE <= r.value <= MAX_METRIC_MAGNITUDE
  }

  function Use(r: Reading): seq<real> {
    if Usable(r) then [r.value] else []
  }

  // ---------- list aggregates ----------

  function Sum(v: seq<real>): real {
    if v == [] then 0.0 else Sum(v[..|v| - 1]) + v[|v| - 1]
  }

  /** Sums add up over any cut of a list, from single values. */
  lemma {:induction false} SumConcat(a: seq<real>, b: seq<real>)
    ensures Sum(a + b) == Sum(a) + Sum(b)
    ensures |b| == 1 ==> Sum(b) == b[0]
  {
    if b == [] {
      assert a + b == a;
    } else {
      assert (a + b)[..|a + b| - 1] == a + b[..|b| - 1];
      SumConcat(a, b[..|b| - 1]);
    }
  }

  lemma OneMore(n: nat, x: real)
    ensures (n + 1) as real * x == n as real * x + x
  {
    assert (n + 1) as real == n as real + 1.0;
  }

  /** So a sum lies between the bounds of its values, as often as there are values. */
  lemma {:induction false} SumBetween(v: seq<real>, low: real, high: real)
    requires forall i | 0 <= i < |v| :: low <= v[i] <= high
    ensures |v| as real * low <= Sum(v) <= |v| as real * high
  {
    if v != [] {
      SumBetween(v[..|v| - 1], low, high);
      OneMore(|v| - 1, low);
      OneMore(|v| - 1, high);
    }
  }

  /** And a mean between its values. */
  lemma MeanBetween(v: seq<real>, low: real, high: real)
    requires v != [] && forall i | 0 <= i < |v| :: low <= v[i] <= high
    ensures low <= Sum(v) / |v| as real <= high
  {
    SumBetween(v, low, high);
    DivideBounds(Sum(v), |v| as real, low, high);
  }

  lemma DivideBounds(total: real, n: real, low: real, high: real)
    requires n > 0.0 && n * low <= total <= n * high
    ensures low <= total / n <= high
  {
    assert total == n * (total / n);
  }

  predicate IsMaximum(m: Option<real>, v: seq<real>) {
    if v == [] then m.None? else m.Some? && m.value in v && forall x | x in v :: x <= m.value
  }

  predicate IsMinimum(m: Option<real>, v: seq<real>) {
    if v == [] then m.None? else m.Some? && m.value in v && forall x | x in v :: m.value <= x
  }

  predicate NonDecreasing(v: seq<real>) {
    forall i, k | 0 <= i < k < |v| :: v[i] <= v[k]
  }

  /** The total of all steps up, and how many there are. */
  function Rises(v: seq<real>): real {
    if |v| < 2 then 0.0
    else Rises(v[..|v| - 1]) + if v[|v| - 1] > v[|v| - 2] then v[|v| - 1] - v[|v| - 2] else 0.0
  }

  function RiseCount(v: seq<real>): nat {
    if |v| < 2 then 0 else RiseCount(v[..|v| - 1]) + if v[|v| - 1] > v[|v| - 2] then 1 else 0
  }

  function Distinct(v: seq<real>): set<real> {
    set x | x in v
  }

  lemma DistinctGrows(u: seq<real>, last: real)
    ensures |Distinct(u + [last])| == |Distinct(u)| + if last in u then 0 else 1
  {
    assert Distinct(u + [last]) == Distinct(u) + {last};
  }

  /** For timestamps in order, the steps telescope: their total is last minus first, and
      there is one fewer than there are distinct timestamps. */
  lemma {:induction false} RisesTelescope(v: seq<real>)
    requires NonDecreasing(v) && v != []
    ensures Rises(v) == v[|v| - 1] - v[0]
    ensures RiseCount(v) == |Distinct(v)| - 1
  {
    if |v| == 1 {
      assert Distinct(v) == {v[0]};
    } else {
      var u, last := v[..|v| - 1], v[|v| - 1];
      RisesTelescope(u);
      assert u[|u| - 1] == v[|v| - 2] && v == u + [last];
      DistinctGrows(u, last);
      hide Distinct;
      if last > v[|v| - 2] {
        assert last !in u;
      } else {
        assert last == u[|u| - 1];
      }
    }
  }

  // ---------- what the rows hold ----------

  function Times(rows: seq<Row>): seq<real> {
    if rows == [] then [] else Times(rows[..|rows| - 1]) + Use(rows[|rows| - 1].timestamp)
  }

  function Loads(rows: seq<Row>): seq<real> {
    if rows == [] then [] else Loads(rows[..|rows| - 1]) + Use(rows[|rows| - 1].cpuLoad)
  }

  /** The times and loads are the numbers of usable size in the rows, and nothing else. */
  lemma {:induction false} TimesMean(rows: seq<Row>, x: real)
    ensures x in Times(rows) <==>
            exists i :: 0 <= i < |rows| && rows[i].timestamp == Number(x) && -1000000000000000.0 <= x <= 1000000000000000.0
    ensures x in Loads(rows) <==>
            exists i :: 0 <= i < |rows| && rows[i].cpuLoad == Number(x) && -1000000000000000.0 <= x <= 1000000000000000.0
  {
    if rows != [] {
      var init, n := rows[..|rows| - 1], |rows| - 1;
      TimesMean(init, x);
      assert rows == init + [rows[n]];
    }
  }

  predicate KnownGpu(g: GpuSample) {
    0 <= g.index <= MAX_GPU_INDEX
  }

  /** The samples of GPU k in a list of one row's samples. */
  function Pick(gpus: seq<GpuSample>, timestamp: Reading, k: int): seq<Stamped> {
    if gpus == [] then []
    else Pick(gpus[..|gpus| - 1], timestamp, k)
         + if gpus[|gpus| - 1].index == k then [Stamped(gpus[|gpus| - 1], timestamp)] else []
  }

  function SamplesOf(rows: seq<Row>, k: int): seq<Stamped> {
    if rows == [] then []
    else SamplesOf(rows[..|rows| - 1], k) + Pick(rows[|rows| - 1].gpus, rows[|rows| - 1].timestamp, k)
  }

  function Unknown(gpus: seq<GpuSample>): nat {
    if gpus == [] then 0 else Unknown(gpus[..|gpus| - 1]) + if KnownGpu(gpus[|gpus| - 1]) then 0 else 1
  }

  function Ignored(rows: seq<Row>): nat {
    if rows == [] then 0 else Ignored(rows[..|rows| - 1]) + Unknown(rows[|rows| - 1].gpus)
  }

  function Utilizations(s: seq<Stamped>): seq<real> {
    if s == [] then [] else Utilizations(s[..|s| - 1]) + Use(s[|s| - 1].sample.utilization)
  }

  function Memories(s: seq<Stamped>): seq<real> {
    if s == [] then [] else Memories(s[..|s| - 1]) + Use(s[|s| - 1].sample.memory)
  }

  predicate IsBusy(g: GpuSample) {
    Usable(g.utilization) && g.utilization.value > 0.0
  }

  function BusyUtilizations(s: seq<Stamped>): seq<real> {
    if s == [] then []
    else BusyUtilizations(s[..|s| - 1]) + if IsBusy(s[|s| - 1].sample) then Use(s[|s| - 1].sample.utilization) else []
  }

  function BusyTimes(s: seq<Stamped>): seq<real> {
    if s == [] then []
    else BusyTimes(s[..|s| - 1]) + if IsBusy(s[|s| - 1].sample) then Use(s[|s| - 1].timestamp) else []
  }

  /** A GPU is only ever busy at a time of some row. */
  lemma {:induction false} BusyTimesAreTimes(rows: seq<Row>, k: int)
    ensures forall t | t in BusyTimes(SamplesOf(rows, k)) :: t in Times(rows)
  {
    if rows != [] {
      var init, last := rows[..|rows| - 1], rows[|rows| - 1];
      BusyTimesAreTimes(init, k);
      BusyConcat(SamplesOf(init, k), Pick(last.gpus, last.timestamp, k));
      PickedTimes(last.gpus, last.timestamp, k);
    }
  }

  lemma {:induction false} BusyConcat(a: seq<Stamped>, b: seq<Stamped>)
    ensures BusyTimes(a + b) == BusyTimes(a) + BusyTimes(b)
  {
    if b == [] {
      assert a + b == a;
    } else {
      assert (a + b)[..|a + b| - 1] == a + b[..|b| - 1];
      BusyConcat(a, b[..|b| - 1]);
    }
  }

  lemma {:induction false} PickedTimes(gpus: seq<GpuSample>, timestamp: Reading, k: int)
    ensures forall t | t in BusyTimes(Pick(gpus, timestamp, k)) :: t in Use(timestamp)
  {
    if gpus != [] {
      PickedTimes(gpus[..|gpus| - 1], timestamp, k);
      BusyConcat(Pick(gpus[..|gpus| - 1], timestamp, k),
                 if gpus[|gpus| - 1].index == k then [Stamped(gpus[|gpus| - 1], timestamp)] else []);
    }
  }

  // ---------- summaries ----------

  datatype GpuSummary = GpuSummary(
    samples: nat,
    utilization: Series,
    busy: Series,
    memory: Series,
    firstBusyAfter: Option<real>,
    lastBusyBeforeEnd: Option<real>)

  datatype Series = Series(count: nat, mean: Option<real>, peak: Option<real>)

  datatype Summary = Summary(
    samples: nat,
    startedAt: Option<real>,
    finishedAt: Option<real>,
    duration: real,
    interval: Option<real>,
    monotonic: bool,
    ignored: nat,
    cpu: Series,
    gpus: map<nat, GpuSummary>)

  /** Count, mean and peak of a whole list. */
  ghost predicate SeriesOf(s: Series, v: seq<real>) {
    && s.count == |v|
    && s.mean == (if v == [] then None else Some(Sum(v) / |v| as real))
    && IsMaximum(s.peak, v)
  }

  ghost predicate GpuSummaryOf(g: GpuSummary, s: seq<Stamped>, startedAt: Option<real>, finishedAt: Option<real>) {
    && g.samples == |s|
    && SeriesOf(g.utilization, Utilizations(s))
    && SeriesOf(g.busy, BusyUtilizations(s))
    && SeriesOf(g.memory, Memories(s))
    && (BusyTimes(s) == [] ==> g.firstBusyAfter.None? && g.lastBusyBeforeEnd.None?)
    && (BusyTimes(s) != [] && startedAt.Some? && finishedAt.Some? ==>
          && g.firstBusyAfter.Some? && IsMinimum(Some(startedAt.value + g.firstBusyAfter.value), BusyTimes(s))
          && g.lastBusyBeforeEnd.Some? && IsMaximum(Some(finishedAt.value - g.lastBusyBeforeEnd.value), BusyTimes(s)))
  }

  /** First, last and mean distance of the timestamps. */
  ghost predicate TimesOf(s: Summary, times: seq<real>) {
    && IsMinimum(s.startedAt, times) && IsMaximum(s.finishedAt, times)
    && s.duration == (if |times| >= 2 then s.finishedAt.value - s.startedAt.value else 0.0)
    && s.monotonic == NonDecreasing(times)
    && s.interval == (if !s.monotonic || |Distinct(times)| < 2 then None
                      else Some((s.finishedAt.value - s.startedAt.value) / (|Distinct(times)| - 1) as real))
  }

  ghost predicate GpusOf(s: Summary, rows: seq<Row>) {
    && (forall k: nat :: k in s.gpus <==> k <= MAX_GPU_INDEX && SamplesOf(rows, k) != [])
    && (forall k | k in s.gpus :: GpuSummaryOf(s.gpus[k], SamplesOf(rows, k), s.startedAt, s.finishedAt))
  }

  /** The whole-list meaning of a summary. */
  ghost predicate SummaryOf(s: Summary, rows: seq<Row>) {
    && s.samples == |rows| && s.ignored == Ignored(rows)
    && TimesOf(s, Times(rows)) && SeriesOf(s.cpu, Loads(rows)) && GpusOf(s, rows)
  }

  // ---------- phase runs ----------

  /** Rows lo to hi (exclusive) as one phase span. */
  datatype Run = Run(phase: string, lo: nat, hi: nat)

  /** Consecutive rows with one safe phase, in order. */
  function Runs(rows: seq<Row>): (r: seq<Run>)
    ensures forall i | 0 <= i < |r| :: r[i].lo < r[i].hi <= |rows|
  {
    if rows == [] then []
    else
      var before, n := Runs(rows[..|rows| - 1]), |rows| - 1;
      var phase := rows[n].phase;
      if phase.None? then before
      else if Continues(rows, n) && before != [] then before[..|before| - 1] + [before[|before| - 1].(hi := n + 1)]
      else before + [Run(phase.value, n, n + 1)]
  }

  /** Row n has the phase of the row before it. */
  predicate Continues(rows: seq<Row>, n: nat) {
    0 < n < |rows| && rows[n].phase.Some? && rows[n - 1].phase == rows[n].phase
  }

  /** A run cannot be made longer at either end. */
  predicate IsMaximalRun(rows: seq<Row>, r: Run) {
    && r.lo < r.hi <= |rows|
    && (forall i | r.lo <= i < r.hi :: rows[i].phase == Some(r.phase))
    && !(r.lo > 0 && rows[r.lo - 1].phase == Some(r.phase))
    && !(r.hi < |rows| && rows[r.hi].phase == Some(r.phase))
  }

  lemma RunsStep(rows: seq<Row>)
    requires rows != [] && rows[|rows| - 1].phase.Some?
    ensures var n, before := |rows| - 1, Runs(rows[..|rows| - 1]);
            Runs(rows) == if Continues(rows, n) && before != []
                          then before[..|before| - 1] + [before[|before| - 1].(hi := n + 1)]
                          else before + [Run(rows[n].phase.value, n, n + 1)]
  {
  }

  lemma {:induction false} LastRunEndsAtLastRow(rows: seq<Row>)
    ensures rows != [] && rows[|rows| - 1].phase.Some? ==>
              && Runs(rows) != []
              && Runs(rows)[|Runs(rows)| - 1].hi == |rows|
              && Runs(rows)[|Runs(rows)| - 1].phase == rows[|rows| - 1].phase.value
  {
    if rows != [] && rows[|rows| - 1].phase.Some? {
      hide Runs;
      RunsStep(rows);
      LastRunEndsAtLastRow(rows[..|rows| - 1]);
    }
  }

  lemma {:induction false} RunsAreOrdered(rows: seq<Row>)
    ensures forall i, k | 0 <= i < k < |Runs(rows)| :: Runs(rows)[i].hi <= Runs(rows)[k].lo
  {
    if rows != [] {
      RunsAreOrdered(rows[..|rows| - 1]);
    }
  }

  /** One more row keeps every run, and may make the last one longer. */
  lemma RunsGrow(rows: seq<Row>, i: nat)
    requires rows != [] && i < |Runs(rows[..|rows| - 1])|
    ensures i < |Runs(rows)|
    ensures Runs(rows)[i].lo == Runs(rows[..|rows| - 1])[i].lo && Runs(rows)[i].hi >= Runs(rows[..|rows| - 1])[i].hi
  {
  }

  predicate InRun(runs: seq<Run>, i: int, m: nat) {
    0 <= i < |runs| && runs[i].lo <= m < runs[i].hi
  }

  lemma {:induction false} RunsCover(rows: seq<Row>, m: nat)
    requires m < |rows| && rows[m].phase.Some?
    ensures exists i :: InRun(Runs(rows), i, m)
  {
    LastRunEndsAtLastRow(rows);
    hide Runs;
    if m == |rows| - 1 {
      assert InRun(Runs(rows), |Runs(rows)| - 1, m);
    } else {
      var init := rows[..|rows| - 1];
      RunsCover(init, m);
      var i :| InRun(Runs(init), i, m);
      RunsGrow(rows, i);
      assert InRun(Runs(rows), i, m);
    }
  }

  /** A finished run stays maximal when a row follows it that does not continue it. */
  lemma MaximalInLonger(rows: seq<Row>, r: Run)
    requires rows != [] && IsMaximalRun(rows[..|rows| - 1], r)
    requires r.hi == |rows| - 1 ==> rows[|rows| - 1].phase != Some(r.phase)
    ensures IsMaximalRun(rows, r)
  {
  }

  lemma ExtendedIsMaximal(rows: seq<Row>, r: Run)
    requires rows != [] && IsMaximalRun(rows[..|rows| - 1], r) && r.hi == |rows| - 1
    requires rows[|rows| - 1].phase == Some(r.phase)
    ensures IsMaximalRun(rows, r.(hi := |rows|))
  {
    assert forall i | r.lo <= i < r.hi :: rows[i].phase == rows[..|rows| - 1][i].phase;
  }

  lemma FreshIsMaximal(rows: seq<Row>)
    requires rows != [] && rows[|rows| - 1].phase.Some? && !Continues(rows, |rows| - 1)
    ensures IsMaximalRun(rows, Run(rows[|rows| - 1].phase.value, |rows| - 1, |rows|))
  {
  }

  lemma LastRunAtEnd(rows: seq<Row>, r: Run)
    requires IsMaximalRun(rows, r) && r.hi == |rows|
    ensures rows[|rows| - 1].phase == Some(r.phase)
  {
  }

  /** The runs are exactly the maximal ones in order; with RunsCover, every row that has
      a safe phase is in one. */
  lemma {:induction false} RunsAreMaximal(rows: seq<Row>)
    ensures forall i | 0 <= i < |Runs(rows)| :: IsMaximalRun(rows, Runs(rows)[i])
  {
    if rows != [] {
      var init, n := rows[..|rows| - 1], |rows| - 1;
      RunsAreMaximal(init);
      RunsAreOrdered(init);
      LastRunEndsAtLastRow(init);
      var before, after := Runs(init), Runs(rows);
      hide IsMaximalRun;
      forall i | 0 <= i < |after| ensures IsMaximalRun(rows, after[i]) {
        if i >= |before| {
          FreshIsMaximal(rows);
        } else if after[i] == before[i] {
          if i == |before| - 1 && before[i].hi == n {
            LastRunAtEnd(init, before[i]);
          }
          MaximalInLonger(rows, before[i]);
        } else {
          ExtendedIsMaximal(rows, before[i]);
        }
      }
    }
  }
}
