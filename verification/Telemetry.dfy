/** The streaming aggregation: fixed-size accumulators that are updated row by row. */
module Telemetry {
  import opened Common
  import opened TelemetrySpec

  // ---------- the leaf statistics; no accumulator shares them ----------

  /** `_SeriesStats`. */
  datatype SeriesStats = SeriesStats(count: nat, total: real, peak: Option<real>) {
    function Add(r: Reading): SeriesStats {
      if !Usable(r) then this
      else SeriesStats(count + 1, total + r.value, if peak.None? || r.value > peak.value then Some(r.value) else peak)
    }

    function Summary(): Series {
      Series(count, if count == 0 then None else Some(total / count as real), peak)
    }

    ghost predicate Of(values: seq<real>) {
      count == |values| && total == Sum(values) && IsMaximum(peak, values)
    }

    lemma AddKeeps(values: seq<real>, r: Reading)
      requires Of(values)
      ensures Add(r).Of(values + Use(r))
    {
      if Usable(r) {
        assert (values + [r.value])[..|values|] == values;
      } else {
        assert values + Use(r) == values;
      }
    }

    lemma SummaryMeans(values: seq<real>)
      requires Of(values)
      ensures SeriesOf(Summary(), values)
    {
    }
  }

  const NO_SERIES := SeriesStats(0, 0.0, None)

  /** `_MinMax`. */
  datatype MinMax = MinMax(minimum: Option<real>, maximum: Option<real>) {
    function Add(value: real): MinMax {
      MinMax(if minimum.None? || value < minimum.value then Some(value) else minimum,
             if maximum.None? || value > maximum.value then Some(value) else maximum)
    }

    ghost predicate Of(values: seq<real>) {
      IsMinimum(minimum, values) && IsMaximum(maximum, values)
    }

    lemma AddKeeps(values: seq<real>, value: real)
      requires Of(values)
      ensures Add(value).Of(values + [value])
    {
    }
  }

  const NO_EXTREMES := MinMax(None, None)

  /** `_GpuStats`. */
  datatype GpuStats = GpuStats(
    samples: nat,
    utilization: SeriesStats,
    busy: SeriesStats,
    memory: SeriesStats,
    busyTimes: MinMax)
  {
    function Add(g: GpuSample, timestamp: Reading): GpuStats {
      var active := Usable(g.utilization) && g.utilization.value > 0.0;
      GpuStats(
        samples + 1,
        utilization.Add(g.utilization),
        if active then busy.Add(g.utilization) else busy,
        memory.Add(g.memory),
        if Usable(timestamp) && active then busyTimes.Add(timestamp.value) else busyTimes)
    }

    ghost predicate Of(s: seq<Stamped>) {
      && samples == |s|
      && utilization.Of(Utilizations(s)) && busy.Of(BusyUtilizations(s)) && memory.Of(Memories(s))
      && busyTimes.Of(BusyTimes(s))
    }

    lemma AddKeeps(s: seq<Stamped>, g: GpuSample, timestamp: Reading)
      requires Of(s)
      ensures Add(g, timestamp).Of(s + [Stamped(g, timestamp)])
    {
      hide SeriesStats.Of, MinMax.Of, SeriesStats.Add, MinMax.Add, Sum, IsMaximum, IsMinimum;
      var x := Stamped(g, timestamp);
      StampedGrow(s, x);
      utilization.AddKeeps(Utilizations(s), g.utilization);
      busy.AddKeeps(BusyUtilizations(s), g.utilization);
      memory.AddKeeps(Memories(s), g.memory);
      if Usable(timestamp) {
        busyTimes.AddKeeps(BusyTimes(s), timestamp.value);
      }
      if !IsBusy(g) {
        assert BusyUtilizations(s) + [] == BusyUtilizations(s) && BusyTimes(s) + [] == BusyTimes(s);
      } else if !Usable(timestamp) {
        assert BusyTimes(s) + [] == BusyTimes(s);
      }
    }

    function Summary(startedAt: Option<real>, finishedAt: Option<real>): GpuSummary {
      GpuSummary(samples, utilization.Summary(), busy.Summary(), memory.Summary(),
                 Gap(startedAt, busyTimes.minimum), Gap(busyTimes.maximum, finishedAt))
    }

    /** startedAt and finishedAt bound every time at which the GPU was seen busy. */
    lemma SummaryMeans(s: seq<Stamped>, startedAt: Option<real>, finishedAt: Option<real>)
      requires Of(s)
      requires startedAt.Some? ==> forall t | t in BusyTimes(s) :: startedAt.value <= t
      requires finishedAt.Some? ==> forall t | t in BusyTimes(s) :: t <= finishedAt.value
      ensures GpuSummaryOf(Summary(startedAt, finishedAt), s, startedAt, finishedAt)
    {
      utilization.SummaryMeans(Utilizations(s));
      busy.SummaryMeans(BusyUtilizations(s));
      memory.SummaryMeans(Memories(s));
      hide SeriesOf, SeriesStats.Of, SeriesStats.Summary, IsMinimum, IsMaximum, Gap;
      GapsAreExact(BusyTimes(s), busyTimes.minimum, busyTimes.maximum, startedAt, finishedAt);
    }
  }

  const NO_GPU := GpuStats(0, NO_SERIES, NO_SERIES, NO_SERIES, NO_EXTREMES)

  lemma StampedGrow(s: seq<Stamped>, x: Stamped)
    ensures Utilizations(s + [x]) == Utilizations(s) + Use(x.sample.utilization)
    ensures BusyUtilizations(s + [x]) == BusyUtilizations(s) + if IsBusy(x.sample) then Use(x.sample.utilization) else []
    ensures Memories(s + [x]) == Memories(s) + Use(x.sample.memory)
    ensures BusyTimes(s + [x]) == BusyTimes(s) + if IsBusy(x.sample) then Use(x.timestamp) else []
  {
    assert (s + [x])[..|s|] == s;
  }

  /** The time from a to b, clamped at zero, if both are known. */
  function Gap(a: Option<real>, b: Option<real>): Option<real> {
    if a.Some? && b.Some? then Some(if b.value - a.value < 0.0 then 0.0 else b.value - a.value) else None
  }

  lemma NoEarlier(v: seq<real>, m: Option<real>, bound: real)
    requires IsMinimum(m, v) && v != [] && forall t | t in v :: bound <= t
    ensures m.Some? && bound <= m.value && bound + (m.value - bound) == m.value
  {
  }

  lemma NoLater(v: seq<real>, m: Option<real>, bound: real)
    requires IsMaximum(m, v) && v != [] && forall t | t in v :: t <= bound
    ensures m.Some? && m.value <= bound && bound - (bound - m.value) == m.value
  {
  }

  /** Within the row times the clamp never fires, so the gaps give the busy times back. */
  lemma GapsAreExact(v: seq<real>, lo: Option<real>, hi: Option<real>, startedAt: Option<real>, finishedAt: Option<real>)
    requires IsMinimum(lo, v) && IsMaximum(hi, v)
    requires startedAt.Some? ==> forall t | t in v :: startedAt.value <= t
    requires finishedAt.Some? ==> forall t | t in v :: t <= finishedAt.value
    ensures v == [] ==> Gap(startedAt, lo).None? && Gap(hi, finishedAt).None?
    ensures v != [] && startedAt.Some? ==> Gap(startedAt, lo).Some? && IsMinimum(Some(startedAt.value + Gap(startedAt, lo).value), v)
    ensures v != [] && finishedAt.Some? ==> Gap(hi, finishedAt).Some? && IsMaximum(Some(finishedAt.value - Gap(hi, finishedAt).value), v)
  {
    if v != [] {
      if startedAt.Some? {
        NoEarlier(v, lo, startedAt.value);
      }
      if finishedAt.Some? {
        NoLater(v, hi, finishedAt.value);
      }
      hide IsMinimum, IsMaximum;
    }
  }

  lemma RisesGrow(times: seq<real>, t: real)
    ensures var up := times != [] && t > times[|times| - 1];
            && Rises(times + [t]) == Rises(times) + (if up then t - times[|times| - 1] else 0.0)
            && RiseCount(times + [t]) == RiseCount(times) + if up then 1 else 0
  {
    assert (times + [t])[..|times|] == times;
  }

  lemma OrderGrows(times: seq<real>, t: real)
    ensures NonDecreasing(times + [t]) <==> NonDecreasing(times) && (times == [] || times[|times| - 1] <= t)
  {
    var after := times + [t];
    if NonDecreasing(after) {
      forall i, k | 0 <= i < k < |times| ensures times[i] <= times[k] {
        assert after[i] <= after[k];
      }
      if times != [] {
        assert after[|times| - 1] <= after[|times|];
      }
    }
  }

  lemma RowsGrow(rows: seq<Row>, row: Row)
    ensures Times(rows + [row]) == Times(rows) + Use(row.timestamp)
    ensures Loads(rows + [row]) == Loads(rows) + Use(row.cpuLoad)
    ensures forall k: int :: SamplesOf(rows + [row], k) == SamplesOf(rows, k) + Pick(row.gpus, row.timestamp, k)
    ensures Ignored(rows + [row]) == Ignored(rows) + Unknown(row.gpus)
  {
    assert (rows + [row])[..|rows|] == rows;
  }

  // ---------- the accumulator without its phases ----------

  /** gpus holds the statistics of every GPU that samples names, and nothing else. */
  ghost predicate GpusHold(gpus: map<nat, GpuStats>, samples: int -> seq<Stamped>) {
    && (forall k: nat :: k in gpus <==> k <= MAX_GPU_INDEX && samples(k) != [])
    && (forall k | k in gpus :: gpus[k].Of(samples(k)))
  }

  ghost predicate GpusSeen(gpus: map<nat, GpuStats>, rows: seq<Row>, partial: seq<GpuSample>, timestamp: Reading) {
    GpusHold(gpus, (k: int) => SamplesOf(rows, k) + Pick(partial, timestamp, k))
  }

  function Fed(gpus: map<nat, GpuStats>, g: GpuSample, timestamp: Reading): map<nat, GpuStats>
    requires KnownGpu(g)
  {
    var k: nat := g.index;
    gpus[k := (if k in gpus then gpus[k] else NO_GPU).Add(g, timestamp)]
  }

  lemma PickGrows(partial: seq<GpuSample>, timestamp: Reading, g: GpuSample, k: int)
    ensures Pick(partial + [g], timestamp, k) == Pick(partial, timestamp, k) + if g.index == k then [Stamped(g, timestamp)] else []
    ensures Unknown(partial + [g]) == Unknown(partial) + if KnownGpu(g) then 0 else 1
  {
    assert (partial + [g])[..|partial|] == partial;
  }

  lemma FedKeeps(gpus: map<nat, GpuStats>, rows: seq<Row>, partial: seq<GpuSample>, timestamp: Reading, g: GpuSample)
    requires GpusSeen(gpus, rows, partial, timestamp)
    ensures GpusSeen(if KnownGpu(g) then Fed(gpus, g, timestamp) else gpus, rows, partial + [g], timestamp)
  {
    hide GpuStats.Add, GpuStats.Of, Pick, SamplesOf;
    var after := if KnownGpu(g) then Fed(gpus, g, timestamp) else gpus;
    forall k: nat
      ensures k in after <==> k <= MAX_GPU_INDEX && SamplesOf(rows, k) + Pick(partial + [g], timestamp, k) != []
      ensures k in after ==> after[k].Of(SamplesOf(rows, k) + Pick(partial + [g], timestamp, k))
    {
      var s := SamplesOf(rows, k) + Pick(partial, timestamp, k);
      PickGrows(partial, timestamp, g, k);
      NoGpuYet();
      if g.index == k {
        assert SamplesOf(rows, k) + Pick(partial + [g], timestamp, k) == s + [Stamped(g, timestamp)];
        if k <= MAX_GPU_INDEX {
          (if k in gpus then gpus[k] else NO_GPU).AddKeeps(s, g, timestamp);
        }
      } else {
        assert SamplesOf(rows, k) + Pick(partial + [g], timestamp, k) == s;
      }
    }
  }

  lemma NoGpuYet()
    ensures NO_GPU.Of([])
  {
  }

  lemma SeenAll(gpus: map<nat, GpuStats>, rows: seq<Row>, row: Row)
    requires GpusSeen(gpus, rows, row.gpus, row.timestamp)
    ensures GpusSeen(gpus, rows + [row], [], Missing)
  {
    hide GpuStats.Of;
    RowsGrow(rows, row);
    forall k: int ensures SamplesOf(rows + [row], k) + Pick([], Missing, k) == SamplesOf(rows, k) + Pick(row.gpus, row.timestamp, k) {
    }
  }

  lemma SeenNone(gpus: map<nat, GpuStats>, rows: seq<Row>, timestamp: Reading)
    requires GpusSeen(gpus, rows, [], Missing)
    ensures GpusSeen(gpus, rows, [], timestamp)
  {
    hide GpuStats.Of;
    forall k: int ensures SamplesOf(rows, k) + Pick([], Missing, k) == SamplesOf(rows, k) + Pick([], timestamp, k) {
    }
  }

  /** `_ResourceAccumulator` without its phase tracking. */
  class SampleStats {
    var samples: nat
    var timestamps: MinMax
    var timestampCount: nat
    var timestampLast: Option<real>
    var intervalTotal: real
    var intervalCount: nat
    var monotonic: bool
    var ignored: nat
    var cpu: SeriesStats
    var gpus: map<nat, GpuStats>
    /** The rows added so far. */
    ghost var rows: seq<Row>

    ghost predicate TimesOk(times: seq<real>)
      reads this`timestamps, this`timestampCount, this`timestampLast, this`intervalTotal, this`intervalCount, this`monotonic
    {
      && timestamps.Of(times)
      && timestampCount == |times|
      && timestampLast == (if times == [] then None else Some(times[|times| - 1]))
      && intervalTotal == Rises(times) && intervalCount == RiseCount(times)
      && monotonic == NonDecreasing(times)
    }

    ghost predicate Valid()
      reads this
    {
      && samples == |rows|
      && TimesOk(Times(rows))
      && cpu.Of(Loads(rows))
      && GpusSeen(gpus, rows, [], Missing) && ignored == Ignored(rows)
    }

    constructor ()
      ensures Valid() && rows == []
    {
      samples, timestamps, timestampCount, timestampLast := 0, NO_EXTREMES, 0, None;
      intervalTotal, intervalCount, monotonic, ignored := 0.0, 0, true, 0;
      cpu, gpus, rows := NO_SERIES, map[], [];
    }

    method AddTimestamp(r: Reading, ghost times: seq<real>)
      requires TimesOk(times)
      modifies this`timestamps, this`timestampCount, this`timestampLast, this`intervalTotal, this`intervalCount, this`monotonic
      ensures TimesOk(times + Use(r))
    {
      hide Rises, RiseCount, NonDecreasing, MinMax.Of, MinMax.Add;
      if !Usable(r) {
        assert times + Use(r) == times;
        return;
      }
      RisesGrow(times, r.value);
      OrderGrows(times, r.value);
      timestamps.AddKeeps(times, r.value);
      timestampCount := timestampCount + 1;
      timestamps := timestamps.Add(r.value);
      if timestampLast.Some? {
        if r.value > timestampLast.value {
          intervalTotal, intervalCount := intervalTotal + (r.value - timestampLast.value), intervalCount + 1;
        } else if r.value < timestampLast.value {
          monotonic := false;
        }
      }
      timestampLast := Some(r.value);
    }

    method AddGpus(row: Row)
      requires GpusSeen(gpus, rows, [], Missing)
      modifies this`gpus, this`ignored
      ensures GpusSeen(gpus, rows, row.gpus, row.timestamp)
      ensures ignored == old(ignored) + Unknown(row.gpus)
    {
      hide GpusSeen, Fed;
      SeenNone(gpus, rows, row.timestamp);
      for i := 0 to |row.gpus|
        invariant GpusSeen(gpus, rows, row.gpus[..i], row.timestamp)
        invariant ignored == old(ignored) + Unknown(row.gpus[..i])
      {
        var g := row.gpus[i];
        FedKeeps(gpus, rows, row.gpus[..i], row.timestamp, g);
        PickGrows(row.gpus[..i], row.timestamp, g, 0);
        assert row.gpus[..i + 1] == row.gpus[..i] + [g];
        if !KnownGpu(g) {
          ignored := ignored + 1;
          continue;
        }
        gpus := Fed(gpus, g, row.timestamp);
      }
      assert row.gpus[..|row.gpus|] == row.gpus;
    }

    method Add(row: Row)
      requires Valid()
      modifies this
      ensures Valid() && rows == old(rows) + [row]
    {
      hide TimesOk, GpusSeen, SeriesStats.Of, SeriesStats.Add;
      RowsGrow(rows, row);
      samples := samples + 1;
      AddTimestamp(row.timestamp, Times(rows));
      AddGpus(row);
      SeenAll(gpus, rows, row);
      cpu.AddKeeps(Loads(rows), row.cpuLoad);
      cpu := cpu.Add(row.cpuLoad);
      rows := rows + [row];
    }

    function Duration(): real
      reads this
    {
      if timestampCount >= 2 && timestamps.minimum.Some? && timestamps.maximum.Some?
      then timestamps.maximum.value - timestamps.minimum.value else 0.0
    }

    /** `_sample_interval`. */
    function Interval(): Option<real>
      reads this
    {
      if !monotonic || intervalCount == 0 then None else Some(intervalTotal / intervalCount as real)
    }

    function SummaryFor(k: nat): GpuSummary
      requires k in gpus
      reads this
    {
      gpus[k].Summary(timestamps.minimum, timestamps.maximum)
    }

    /** `summary(include_phases=False)`: the streaming state says what a whole-list
        aggregation of the same rows says. */
    method Summarize() returns (s: Summary)
      requires Valid()
      ensures SummaryOf(s, rows)
    {
      var summaries := map k | k in gpus :: SummaryFor(k);
      s := Summary(samples, timestamps.minimum, timestamps.maximum, Duration(), Interval(), monotonic, ignored,
                   cpu.Summary(), summaries);
      TimesAreExact(s);
      cpu.SummaryMeans(Loads(rows));
      GpusAreExact(s);
      hide TimesOf, GpusOf, SeriesOf, Times, Loads;
    }

    lemma TimesAreExact(s: Summary)
      requires Valid()
      requires s.startedAt == timestamps.minimum && s.finishedAt == timestamps.maximum && s.monotonic == monotonic
      requires s.duration == Duration() && s.interval == Interval()
      ensures TimesOf(s, Times(rows))
    {
      var times := Times(rows);
      hide Times, Rises, RiseCount, NonDecreasing, Distinct, GpusSeen;
      if times != [] && monotonic {
        RisesTelescope(times);
        EndsOfOrdered(times, timestamps.minimum, timestamps.maximum);
        assert intervalCount == |Distinct(times)| - 1;
        assert intervalTotal == s.finishedAt.value - s.startedAt.value;
      } else {
        NoneDistinct(times);
      }
    }

    lemma GpusAreExact(s: Summary)
      requires Valid()
      requires s.startedAt == timestamps.minimum && s.finishedAt == timestamps.maximum
      requires s.gpus == map k | k in gpus :: SummaryFor(k)
      ensures GpusOf(s, rows)
    {
      SamplesAlone(rows);
      hide TimesOk, SummaryFor, GpuSummaryOf, GpuStats.Of;
      forall k | k in s.gpus ensures GpuSummaryOf(s.gpus[k], SamplesOf(rows, k), s.startedAt, s.finishedAt) {
        GpuIsExact(k);
      }
    }

    lemma GpuIsExact(k: nat)
      requires Valid() && k in gpus
      ensures GpuSummaryOf(SummaryFor(k), SamplesOf(rows, k), timestamps.minimum, timestamps.maximum)
    {
      hide GpuStats.Of, GpuStats.Summary, GpuSummaryOf;
      assert SamplesOf(rows, k) + Pick([], Missing, k) == SamplesOf(rows, k);
      BusyTimesAreTimes(rows, k);
      gpus[k].SummaryMeans(SamplesOf(rows, k), timestamps.minimum, timestamps.maximum);
    }
  }

  lemma EndsOfOrdered(times: seq<real>, lo: Option<real>, hi: Option<real>)
    requires NonDecreasing(times) && times != [] && IsMinimum(lo, times) && IsMaximum(hi, times)
    ensures lo == Some(times[0]) && hi == Some(times[|times| - 1])
  {
    assert times[0] in times && times[|times| - 1] in times;
    var i :| 0 <= i < |times| && times[i] == lo.value;
    var k :| 0 <= k < |times| && times[k] == hi.value;
  }

  lemma NoneDistinct(times: seq<real>)
    ensures times == [] ==> |Distinct(times)| == 0 && RiseCount(times) == 0
  {
    if times == [] {
      assert Distinct(times) == {};
    }
  }

  lemma SamplesAlone(rows: seq<Row>)
    ensures forall k: int :: SamplesOf(rows, k) + Pick([], Missing, k) == SamplesOf(rows, k)
  {
  }

  // ---------- the accumulator with its phases ----------

  /** A finished phase span: the summary of the rows of one run. */
  datatype Span = Span(phase: string, summary: Summary)

  ghost predicate SpanOf(span: Span, run: Run, rows: seq<Row>)
    requires run.lo < run.hi <= |rows|
  {
    span.phase == run.phase && SummaryOf(span.summary, rows[run.lo..run.hi])
  }

  /** The first spans are kept. */
  function Head(closed: seq<Span>): seq<Span> {
    closed[..Min(PHASE_SPAN_HEAD, |closed|)]
  }

  /** Of the spans after the head, the last ones are kept. */
  function Tail(closed: seq<Span>): seq<Span> {
    if |closed| <= PHASE_SPAN_HEAD then []
    else if |closed| <= PHASE_SPAN_HEAD + PHASE_SPAN_TAIL then closed[PHASE_SPAN_HEAD..]
    else closed[|closed| - PHASE_SPAN_TAIL..]
  }

  lemma OneMoreSpan(closed: seq<Span>, span: Span)
    ensures var head, tail := Head(closed), Tail(closed);
            if |head| < PHASE_SPAN_HEAD then Head(closed + [span]) == head + [span] && Tail(closed + [span]) == tail
            else Head(closed + [span]) == head
                 && Tail(closed + [span]) == (if |tail| == PHASE_SPAN_TAIL then tail[1..] else tail) + [span]
  {
  }

  lemma SpanPersists(span: Span, run: Run, rows: seq<Row>, row: Row)
    requires run.lo < run.hi <= |rows| && SpanOf(span, run, rows)
    ensures SpanOf(span, run, rows + [row])
  {
    assert (rows + [row])[run.lo..run.hi] == rows[run.lo..run.hi];
  }

  /** The closed spans are the summaries of the first runs. */
  ghost predicate ClosedRuns(closed: seq<Span>, runs: seq<Run>, rows: seq<Row>)
    requires forall i | 0 <= i < |runs| :: runs[i].lo < runs[i].hi <= |rows|
  {
    |closed| <= |runs| && forall i | 0 <= i < |closed| :: SpanOf(closed[i], runs[i], rows)
  }

  /** What the accumulator knows about the run that is still going on. */
  ghost predicate OpenRun(current: Option<string>, part: seq<Row>, closed: nat, runs: seq<Run>, rows: seq<Row>) {
    if current.None? then closed == |runs| && (rows == [] || rows[|rows| - 1].phase.None?)
    else
      && closed + 1 == |runs| && rows != [] && rows[|rows| - 1].phase == current
      && runs[closed].phase == current.value && runs[closed].lo < runs[closed].hi == |rows|
      && part == rows[runs[closed].lo..]
  }

  lemma RunClosed(closed: seq<Span>, span: Span, current: Option<string>, part: seq<Row>, runs: seq<Run>, rows: seq<Row>)
    requires forall i | 0 <= i < |runs| :: runs[i].lo < runs[i].hi <= |rows|
    requires ClosedRuns(closed, runs, rows) && OpenRun(current, part, |closed|, runs, rows) && current.Some?
    requires span.phase == current.value && SummaryOf(span.summary, part)
    ensures ClosedRuns(closed + [span], runs, rows) && |closed| + 1 == |runs|
  {
    hide SummaryOf;
    assert rows[runs[|closed|].lo..] == rows[runs[|closed|].lo..runs[|closed|].hi];
  }

  /** A row without a phase adds no run. */
  lemma NoRun(before: seq<Row>, row: Row, closed: seq<Span>, part: seq<Row>)
    requires ClosedRuns(closed, Runs(before), before) && |closed| == |Runs(before)| && row.phase.None?
    ensures ClosedRuns(closed, Runs(before + [row]), before + [row])
    ensures OpenRun(None, part, |closed|, Runs(before + [row]), before + [row])
  {
    hide SummaryOf;
    assert (before + [row])[..|before|] == before;
    forall i | 0 <= i < |closed| ensures SpanOf(closed[i], Runs(before + [row])[i], before + [row]) {
      SpanPersists(closed[i], Runs(before)[i], before, row);
    }
  }

  /** A row with a phase of its own starts a run. */
  lemma NewRun(before: seq<Row>, row: Row, closed: seq<Span>)
    requires ClosedRuns(closed, Runs(before), before) && |closed| == |Runs(before)| && row.phase.Some?
    requires before == [] || before[|before| - 1].phase != row.phase
    ensures ClosedRuns(closed, Runs(before + [row]), before + [row])
    ensures OpenRun(row.phase, [row], |closed|, Runs(before + [row]), before + [row])
  {
    hide SummaryOf;
    assert (before + [row])[..|before|] == before;
    forall i | 0 <= i < |closed| ensures SpanOf(closed[i], Runs(before + [row])[i], before + [row]) {
      SpanPersists(closed[i], Runs(before)[i], before, row);
    }
    assert (before + [row])[|before|..] == [row];
  }

  lemma LastRunGrows(before: seq<Row>, row: Row)
    requires before != [] && row.phase.Some? && before[|before| - 1].phase == row.phase && Runs(before) != []
    ensures var runs, n := Runs(before), |Runs(before)| - 1;
            Runs(before + [row]) == runs[..n] + [runs[n].(hi := |before| + 1)]
  {
    assert (before + [row])[..|before|] == before;
  }

  /** A row with the phase of the row before it makes the open run longer. */
  lemma SameRun(before: seq<Row>, row: Row, closed: seq<Span>, part: seq<Row>)
    requires ClosedRuns(closed, Runs(before), before) && row.phase.Some?
    requires OpenRun(row.phase, part, |closed|, Runs(before), before)
    ensures ClosedRuns(closed, Runs(before + [row]), before + [row])
    ensures OpenRun(row.phase, part + [row], |closed|, Runs(before + [row]), before + [row])
  {
    LastRunGrows(before, row);
    hide SpanOf, Runs;
    forall i | 0 <= i < |closed| ensures SpanOf(closed[i], Runs(before + [row])[i], before + [row]) {
      SpanPersists(closed[i], Runs(before)[i], before, row);
    }
    var lo := Runs(before)[|closed|].lo;
    assert (before + [row])[lo..] == before[lo..] + [row];
  }

  class ResourceAccumulator {
    const whole: SampleStats
    var done: seq<Span>
    var tail: seq<Span>
    var spanCount: nat
    var current: Option<string>
    var part: SampleStats
    /** Every span closed so far, the dropped ones included. */
    ghost var closed: seq<Span>

    ghost predicate Shape()
      reads this, whole, part
    {
      whole != part && whole.Valid() && part.Valid()
    }

    ghost predicate Retained()
      reads this`done, this`tail, this`spanCount, this`closed
    {
      spanCount == |closed| && done == Head(closed) && tail == Tail(closed)
    }

    /** The closed spans are the runs so far; the run still going on is in part. */
    ghost predicate RunsOk()
      reads this, whole, part
    {
      var runs := Runs(whole.rows);
      ClosedRuns(closed, runs, whole.rows) && OpenRun(current, part.rows, |closed|, runs, whole.rows)
    }

    ghost predicate Valid()
      reads this, whole, part
    {
      Shape() && Retained() && RunsOk()
    }

    constructor ()
      ensures Valid() && whole.rows == [] && fresh(whole) && fresh(part)
    {
      hide SummaryOf, SpanOf, SampleStats.Valid;
      whole := new SampleStats();
      part := new SampleStats();
      done, tail, spanCount, current, closed := [], [], 0, None, [];
    }

    /** `_close_phase`. */
    method ClosePhase()
      requires Shape() && Retained()
      modifies this`done, this`tail, this`spanCount, this`current, this`closed
      ensures Retained() && current.None?
      ensures old(current).None? ==> closed == old(closed)
      ensures old(current).Some? ==> |closed| == |old(closed)| + 1 && closed == old(closed) + [closed[|old(closed)|]]
                                     && closed[|old(closed)|].phase == old(current).value
                                     && SummaryOf(closed[|old(closed)|].summary, part.rows)
    {
      if current.Some? {
        var sampled := part.Summarize();
        var span := Span(current.value, sampled);
        OneMoreSpan(closed, span);
        hide Head, Tail, SummaryOf;
        spanCount := spanCount + 1;
        if |done| < PHASE_SPAN_HEAD {
          done := done + [span];
        } else {
          // the deque drops its oldest span
          tail := if |tail| == PHASE_SPAN_TAIL then tail[1..] + [span] else tail + [span];
        }
        closed := closed + [span];
      }
      current := None;
    }

    /** `_close_phase`, where the runs so far are those of rows. */
    method CloseRun(ghost rows: seq<Row>)
      requires Shape() && Retained()
      requires ClosedRuns(closed, Runs(rows), rows) && OpenRun(current, part.rows, |closed|, Runs(rows), rows)
      modifies this`done, this`tail, this`spanCount, this`current, this`closed
      ensures Retained() && current.None?
      ensures ClosedRuns(closed, Runs(rows), rows) && |closed| == |Runs(rows)|
    {
      hide Head, Tail, SummaryOf, SampleStats.Valid, Retained, Runs, ClosedRuns;
      ghost var closed0, current0 := closed, current;
      ClosePhase();
      if current0.Some? {
        RunClosed(closed0, closed[|closed0|], current0, part.rows, Runs(rows), rows);
      }
    }

    /** `_track_phase`, for a row that whole already has. */
    method TrackPhase(row: Row, ghost before: seq<Row>)
      requires Shape() && Retained() && whole.rows == before + [row]
      requires ClosedRuns(closed, Runs(before), before) && OpenRun(current, part.rows, |closed|, Runs(before), before)
      modifies this`done, this`tail, this`spanCount, this`current, this`closed, this`part, part
      ensures Valid() && whole.rows == old(whole.rows)
      ensures part == old(part) || fresh(part)
    {
      hide Head, Tail, SummaryOf, SampleStats.Valid, Retained, Runs, ClosedRuns;
      if row.phase.None? {
        CloseRun(before);
        NoRun(before, row, closed, part.rows);
        return;
      }
      if row.phase != current {
        CloseRun(before);
        NewRun(before, row, closed);
        current := row.phase;
        part := new SampleStats();
      } else {
        SameRun(before, row, closed, part.rows);
      }
      part.Add(row);
    }

    /** `add`. */
    method Add(row: Row)
      requires Valid()
      modifies this, whole, part
      ensures Valid() && whole.rows == old(whole.rows) + [row]
      ensures part == old(part) || fresh(part)
    {
      ghost var before := whole.rows;
      hide Head, Tail, SummaryOf, SampleStats.Valid, Runs;
      whole.Add(row);
      TrackPhase(row, before);
    }

    /** `phase_spans`: the first 128 runs and the last 128 of the others. */
    method PhaseSpans() returns (spans: seq<Span>)
      requires Valid()
      modifies this
      ensures |closed| == |Runs(whole.rows)|
      ensures forall i | 0 <= i < |closed| :: SpanOf(closed[i], Runs(whole.rows)[i], whole.rows)
      ensures spans == Head(closed) + Tail(closed) && spanCount == |closed|
    {
      hide Head, Tail, SummaryOf, SampleStats.Valid, Runs;
      CloseRun(whole.rows);
      return done + tail;
    }
  }
}
