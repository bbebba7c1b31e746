/**
 From the server's cumulative pushes to the samples the console keeps (console/src/lib/metricSamples.ts),
 and how a push is recorded in the tables (console/src/lib/metricStore.ts). Numbers are reals; times are
 nanoseconds in points and milliseconds in samples.
 */
module MetricSamples {
  import opened Basics

  datatype Kind = Counter | Gauge | Histogram

  datatype Sample = Sample(metric: string, kind: Kind, at: int, count: real, sum: Option<real>)

  /** The server's start time, or the mark of a series the console derives itself. */
  datatype Start = Ns(ns: nat) | Derived

  datatype State = State(kind: Kind, start: Start, count: real, sum: real, totalCount: real, totalSum: real)

  /** A data point; `value` is the count of a histogram point. */
  datatype Point = Point(timeNs: nat, startNs: nat, value: real, sum: real)

  datatype Shape = GaugeOf | SumOf(monotonic: bool, delta: bool) | HistogramOf(delta: bool)

  datatype Metric = Metric(name: string, shape: Shape, points: seq<Point>)

  datatype Pushed = Pushed(samples: seq<Sample>, states: seq<(string, State)>)

  type Series = map<string, State>

  const FRESH_SERIES_MS := 180_000

  function Millis(ns: nat): int {
    ns / 1_000_000
  }

  // ---------------------------------------------------------------- points

  function LatestTime(ps: seq<Point>): nat {
    if ps == [] then 0
    else
      var before := LatestTime(ps[..|ps| - 1]);
      if ps[|ps| - 1].timeNs > before then ps[|ps| - 1].timeNs else before
  }

  function EarliestStart(ps: seq<Point>): nat
    requires ps != []
  {
    var last := ps[|ps| - 1].startNs;
    if |ps| == 1 then last
    else
      var before := EarliestStart(ps[..|ps| - 1]);
      if last < before then last else before
  }

  function Total(ps: seq<Point>): real {
    if ps == [] then 0.0 else Total(ps[..|ps| - 1]) + ps[|ps| - 1].value
  }

  function TotalSum(ps: seq<Point>): real {
    if ps == [] then 0.0 else TotalSum(ps[..|ps| - 1]) + ps[|ps| - 1].sum
  }

  lemma {:induction false} LatestTimeMeans(ps: seq<Point>) returns (i: nat)
    requires ps != []
    ensures i < |ps| && ps[i].timeNs == LatestTime(ps) && forall k :: 0 <= k < |ps| ==> ps[k].timeNs <= LatestTime(ps)
    decreases |ps|
  {
    i := |ps| - 1;
    var front := ps[..i];
    if front == [] {
      assert LatestTime(front) == 0;
    } else {
      var j := LatestTimeMeans(front);
      assert front[j] == ps[j];
      if ps[i].timeNs <= LatestTime(front) {
        i := j;
      }
    }
  }

  lemma {:induction false} EarliestStartMeans(ps: seq<Point>) returns (i: nat)
    requires ps != []
    ensures i < |ps| && ps[i].startNs == EarliestStart(ps) && forall k :: 0 <= k < |ps| ==> EarliestStart(ps) <= ps[k].startNs
    decreases |ps|
  {
    i := |ps| - 1;
    if i > 0 {
      var front := ps[..i];
      var j := EarliestStartMeans(front);
      assert front[j] == ps[j];
      if ps[i].startNs >= EarliestStart(front) {
        i := j;
      }
    }
  }

  /** `latest`: the newest time and the oldest start, in one pass. */
  method Latest(ps: seq<Point>) returns (time: nat, start: nat)
    requires ps != []
    ensures time == LatestTime(ps) && start == EarliestStart(ps)
  {
    time := 0;
    var found: Option<nat> := None;
    assert ps[..0] == [];
    for i := 0 to |ps|
      invariant time == LatestTime(ps[..i])
      invariant found == if i == 0 then None else Some(EarliestStart(ps[..i]))
    {
      assert ps[..i + 1][..i] == ps[..i];
      if ps[i].timeNs > time {
        time := ps[i].timeNs;
      }
      if found.None? || ps[i].startNs < found.value {
        found := Some(ps[i].startNs);
      }
    }
    assert ps[..|ps|] == ps;
    start := found.value;
  }

  // ---------------------------------------------------------------- one series

  /** A restart: the server counts from another start, or the value went down. */
  predicate Restarted(before: State, count: real, start: nat) {
    before.start != Ns(start) || count < before.count
  }

  function Increase(current: real, before: Option<State>, start: nat, at: int, known: bool): Option<real> {
    if before.None? then (if known || at - Millis(start) <= FRESH_SERIES_MS then Some(current) else None)
    else if Restarted(before.value, current, start) then Some(current)
    else Some(current - before.value.count)
  }

  function Positive(x: real): real {
    if x < 0.0 then 0.0 else x
  }

  function PushCounter(name: string, value: real, before: Option<State>, start: nat, at: int, known: bool): Pushed {
    var added := Increase(value, before, start, at, known);
    Pushed(
      if added.Some? && added.value > 0.0 then [Sample(name, Counter, at, added.value, None)] else [],
      [(name, State(Counter, Ns(start), value, 0.0, 0.0, 0.0))])
  }

  /** What a histogram push adds to the count and to the sum. */
  function Added(count: real, sum: real, delta: bool, before: Option<State>, start: nat, at: int, known: bool)
    : Option<(real, real)>
  {
    if delta then Some((count, sum))
    else
      var addedCount := Increase(count, before, start, at, known);
      if addedCount.None? then None
      else if before.None? || Restarted(before.value, count, start) then Some((addedCount.value, sum))
      else Some((addedCount.value, sum - before.value.sum))
  }

  function PushHistogram(
      name: string, count: real, sum: real, delta: bool, before: Option<State>, start: nat, at: int, known: bool): Pushed
  {
    var added := Added(count, sum, delta, before, start, at, known);
    var grows := added.Some? && added.value.0 > 0.0;
    var oldCount := if before.Some? then before.value.totalCount else 0.0;
    var oldSum := if before.Some? then before.value.totalSum else 0.0;
    var totalCount := if grows then oldCount + added.value.0 else oldCount;
    var totalSum := if grows then oldSum + Positive(added.value.1) else oldSum;
    Pushed(
      (if before.None? then [Sample(name, Histogram, if grows then at - 1 else at, 0.0, Some(0.0))] else [])
        + (if grows then [Sample(name, Histogram, at, totalCount, Some(totalSum))] else []),
      [(name, State(Histogram, Ns(start), count, sum, totalCount, totalSum))])
  }

  function PushOne(m: Metric, before: Option<State>, known: bool): Pushed
    requires m.points != []
  {
    var at := Millis(LatestTime(m.points));
    var start := EarliestStart(m.points);
    var value := Total(m.points);
    match m.shape
    case GaugeOf => Pushed([Sample(m.name, Gauge, at, value, None)], [])
    case SumOf(monotonic, delta) =>
      if !monotonic then Pushed([Sample(m.name, Gauge, at, value, None)], [])
      else if delta then Pushed(if value > 0.0 then [Sample(m.name, Counter, at, value, None)] else [], [])
      else PushCounter(m.name, value, before, start, at, known)
    case HistogramOf(delta) =>
      PushHistogram(m.name, value, TotalSum(m.points), delta, before, start, at, known)
  }

  // ---------------------------------------------------------------- a push

  /** The console already has a series of this server run. */
  predicate KnownRun(series: Series, start: nat) {
    exists name :: name in series && series[name].start == Ns(start)
  }

  /** What one metric of a push gives, against the series before the push. */
  function PushMetric(m: Metric, series: Series): Pushed {
    if m.points == [] then Pushed([], [])
    else PushOne(m, At(series, m.name), KnownRun(series, EarliestStart(m.points)))
  }

  function Push(ms: seq<Metric>, series: Series): Pushed {
    if ms == [] then Pushed([], [])
    else
      var before := Push(ms[..|ms| - 1], series);
      var one := PushMetric(ms[|ms| - 1], series);
      Pushed(before.samples + one.samples, before.states + one.states)
  }

  /** `samplesFromPush`. */
  method SamplesFromPush(ms: seq<Metric>, series: Series) returns (samples: seq<Sample>, states: seq<(string, State)>)
    ensures Pushed(samples, states) == Push(ms, series)
  {
    samples, states := [], [];
    var runs := set name | name in series && series[name].start.Ns? :: series[name].start.ns;
    assert ms[..0] == [];
    for i := 0 to |ms|
      invariant Pushed(samples, states) == Push(ms[..i], series)
    {
      assert ms[..i + 1][..i] == ms[..i];
      if ms[i].points == [] {
        assert samples + [] == samples && states + [] == states;
        continue;
      }
      var _, start := Latest(ms[i].points);
      RunsAreKnown(series, start);
      var one := PushOne(ms[i], At(series, ms[i].name), start in runs);
      samples := samples + one.samples;
      states := states + one.states;
    }
    assert ms[..|ms|] == ms;
  }

  lemma {:induction false} RunsAreKnown(series: Series, start: nat)
    ensures start in (set name | name in series && series[name].start.Ns? :: series[name].start.ns) <==> KnownRun(series, start)
  {
    if KnownRun(series, start) {
      var name :| name in series && series[name].start == Ns(start);
      assert series[name].start.Ns? && series[name].start.ns == start;
    }
  }

  // ---------------------------------------------------------------- recording

  type Table = map<(string, int), Sample>

  datatype Db = Db(series: Series, table: Table)

  function Saved(series: Series, states: seq<(string, State)>): Series {
    if states == [] then series
    else Saved(series, states[..|states| - 1])[states[|states| - 1].0 := states[|states| - 1].1]
  }

  function Key(s: Sample): (string, int) {
    (s.metric, s.at)
  }

  /** `on conflict (metric, at) do nothing`. */
  function Insert(table: Table, s: Sample): Table {
    if Key(s) in table then table else table[Key(s) := s]
  }

  function InsertAll(table: Table, samples: seq<Sample>): Table {
    if samples == [] then table else Insert(InsertAll(table, samples[..|samples| - 1]), samples[|samples| - 1])
  }

  /** `recordSamples` of a push. */
  function Record(db: Db, ms: seq<Metric>): Db {
    var pushed := Push(ms, db.series);
    Db(Saved(db.series, pushed.states), InsertAll(db.table, pushed.samples))
  }

  // ---------------------------------------------------------------- what a push leaves

  /** A metric that leaves a state behind. */
  predicate Stateful(m: Metric) {
    m.points != [] && (m.shape == SumOf(true, false) || m.shape.HistogramOf?)
  }

  function StateOf(m: Metric, series: Series): Option<State> {
    var states := PushMetric(m, series).states;
    if states == [] then None else Some(states[0].1)
  }

  lemma {:induction false} OneState(m: Metric, series: Series)
    ensures StateOf(m, series).Some? <==> Stateful(m)
    ensures PushMetric(m, series).states
         == if Stateful(m) then [(m.name, StateOf(m, series).value)] else []
  {}

  /** Of the metrics of one name, the last that leaves a state. */
  function LastStateful(ms: seq<Metric>, name: string): Option<Metric> {
    if ms == [] then None
    else
      var last := ms[|ms| - 1];
      if last.name == name && Stateful(last) then Some(last) else LastStateful(ms[..|ms| - 1], name)
  }

  lemma {:induction false} LastStatefulMeans(ms: seq<Metric>, name: string)
    ensures
      match LastStateful(ms, name)
      case None => forall m :: m in ms && m.name == name ==> !Stateful(m)
      case Some(l) => l in ms && l.name == name && Stateful(l)
    decreases |ms|
  {
    if ms != [] {
      LastStatefulMeans(ms[..|ms| - 1], name);
      assert ms == ms[..|ms| - 1] + [ms[|ms| - 1]];
    }
  }

  lemma {:induction false} SavedSnoc(series: Series, states: seq<(string, State)>, m: Metric, seen: Series, name: string)
    ensures At(Saved(series, states + PushMetric(m, seen).states), name)
         == if name == m.name && Stateful(m) then StateOf(m, seen) else At(Saved(series, states), name)
  {
    OneState(m, seen);
    if Stateful(m) {
      var all := states + [(m.name, StateOf(m, seen).value)];
      assert all[..|all| - 1] == states;
    } else {
      assert states + [] == states;
    }
  }

  /** A series takes the state of the last metric of its name, and stays as it is without one. */
  lemma {:induction false} SavedOf(series: Series, ms: seq<Metric>, seen: Series, name: string)
    ensures At(Saved(series, Push(ms, seen).states), name)
         == (match LastStateful(ms, name) case None => At(series, name) case Some(l) => StateOf(l, seen))
    decreases |ms|
  {
    if ms != [] {
      SavedOf(series, ms[..|ms| - 1], seen, name);
      SavedSnoc(series, Push(ms[..|ms| - 1], seen).states, ms[|ms| - 1], seen, name);
    }
  }

  lemma {:induction false} PushMember(ms: seq<Metric>, series: Series, m: Metric, s: Sample)
    requires m in ms && s in PushMetric(m, series).samples
    ensures s in Push(ms, series).samples
    decreases |ms|
  {
    if m != ms[|ms| - 1] {
      assert ms == ms[..|ms| - 1] + [ms[|ms| - 1]];
      PushMember(ms[..|ms| - 1], series, m, s);
    }
  }

  lemma {:induction false} PushSource(ms: seq<Metric>, series: Series, s: Sample) returns (m: Metric)
    requires s in Push(ms, series).samples
    ensures m in ms && s in PushMetric(m, series).samples
    decreases |ms|
  {
    m := ms[|ms| - 1];
    if s !in PushMetric(m, series).samples {
      m := PushSource(ms[..|ms| - 1], series, s);
    }
  }

  // ---------------------------------------------------------------- a push sent twice

  /** A metric that reports totals since a start. */
  predicate Cumulative(m: Metric) {
    m.points != [] && (m.shape == SumOf(true, false) || m.shape == HistogramOf(false))
  }

  /** A histogram of increments that adds something. */
  predicate AddsAgain(m: Metric) {
    m.shape == HistogramOf(true) && m.points != [] && Total(m.points) > 0.0
  }

  /** Where a metric's sample is stored. */
  function KeyOf(m: Metric): (string, int) {
    (m.name, Millis(LatestTime(m.points)))
  }

  /** What `m` adds to a series that was left with what `l` reported. */
  function Regain(m: Metric, l: Metric): real
    requires m.points != [] && l.points != []
  {
    if EarliestStart(m.points) != EarliestStart(l.points) || Total(m.points) < Total(l.points) then Total(m.points)
    else Total(m.points) - Total(l.points)
  }

  /**
   A push that can be recorded again: no series ends with a histogram of increments that adds, and what an
   entry adds to the series the push itself leaves is stored already.
   */
  ghost predicate Repeatable(db: Db, ms: seq<Metric>) {
    && (forall m :: m in ms && LastStateful(ms, m.name) == Some(m) ==> !AddsAgain(m))
    && (forall m, l :: m in ms && Cumulative(m) && LastStateful(ms, m.name) == Some(l) && Stateful(l) && Regain(m, l) > 0.0
          ==> KeyOf(m) in Record(db, ms).table)
  }

  /** Against its own state, a metric leaves the same state again, unless it adds increments. */
  lemma {:induction false} StateAgain(l: Metric, series: Series, after: Series)
    requires Stateful(l) && At(after, l.name) == StateOf(l, series)
    ensures StateOf(l, after) == StateOf(l, series) <==> !AddsAgain(l)
  {}

  lemma {:induction false} CumulativeAgain(m: Metric, l: Metric, series: Series, after: Series)
    requires Cumulative(m) && Stateful(l) && At(after, m.name) == StateOf(l, series)
    ensures forall s :: s in PushMetric(m, after).samples ==> Key(s) == KeyOf(m) && Regain(m, l) > 0.0
    ensures Regain(m, l) > 0.0 ==> PushMetric(m, after).samples != []
  {}

  /** Gauges and increments are stored where they were stored before. */
  lemma {:induction false} OtherAgain(m: Metric, series: Series, after: Series)
    requires !Cumulative(m) && (Stateful(m) ==> At(after, m.name).Some?)
    ensures forall s :: s in PushMetric(m, after).samples ==>
      exists t :: t in PushMetric(m, series).samples && Key(t) == Key(s)
  {
    if m.points != [] {
      var first, again := PushMetric(m, series).samples, PushMetric(m, after).samples;
      forall s | s in again ensures exists t :: t in first && Key(t) == Key(s) {
        assert first != [];
        assert first[|first| - 1] in first && Key(first[|first| - 1]) == KeyOf(m);
      }
    }
  }

  lemma {:induction false} SameTable<K(!new), V>(a: map<K, V>, b: map<K, V>)
    requires forall k :: (k in a <==> k in b) && (k in a ==> a[k] == b[k])
    ensures a == b
  {}

  lemma {:induction false} KeysStored(table: Table, samples: seq<Sample>)
    ensures forall s :: s in samples ==> Key(s) in InsertAll(table, samples)
    ensures forall k :: k in table ==> k in InsertAll(table, samples) && InsertAll(table, samples)[k] == table[k]
    decreases |samples|
  {
    if samples != [] {
      KeysStored(table, samples[..|samples| - 1]);
      assert samples == samples[..|samples| - 1] + [samples[|samples| - 1]];
    }
  }

  lemma {:induction false} NothingNew(table: Table, samples: seq<Sample>)
    requires forall s :: s in samples ==> Key(s) in table
    ensures InsertAll(table, samples) == table
    decreases |samples|
  {
    if samples != [] {
      assert samples[|samples| - 1] in samples;
      NothingNew(table, samples[..|samples| - 1]);
    }
  }

  /** The series are left as they were exactly when none of them ends with increments that add. */
  lemma {:induction false} SeriesAgain(db: Db, ms: seq<Metric>, name: string)
    ensures
      var twice := Record(Record(db, ms), ms);
      var added := LastStateful(ms, name).Some? && AddsAgain(LastStateful(ms, name).value);
      At(twice.series, name) == At(Record(db, ms).series, name) <==> !added
  {
    var once := Record(db, ms);
    SavedOf(db.series, ms, db.series, name);
    SavedOf(once.series, ms, once.series, name);
    LastStatefulMeans(ms, name);
    if LastStateful(ms, name).Some? {
      StateAgain(LastStateful(ms, name).value, db.series, once.series);
    }
  }

  /** One metric stores nothing new the second time. */
  lemma {:induction false} MetricAgain(db: Db, ms: seq<Metric>, m: Metric, s: Sample)
    requires m in ms && s in PushMetric(m, Record(db, ms).series).samples
    requires Repeatable(db, ms)
    ensures Key(s) in Record(db, ms).table
  {
    var once := Record(db, ms);
    SavedOf(db.series, ms, db.series, m.name);
    LastStatefulMeans(ms, m.name);
    if Cumulative(m) {
      CumulativeAgain(m, LastStateful(ms, m.name).value, db.series, once.series);
    } else {
      if Stateful(m) {
        OneState(LastStateful(ms, m.name).value, db.series);
      }
      OtherAgain(m, db.series, once.series);
      var t :| t in PushMetric(m, db.series).samples && Key(t) == Key(s);
      PushMember(ms, db.series, m, t);
      KeysStored(db.table, Push(ms, db.series).samples);
    }
  }

  lemma {:induction false} SeriesEqual(a: Series, b: Series)
    requires forall name :: At(a, name) == At(b, name)
    ensures a == b
  {
    forall k ensures (k in a <==> k in b) && (k in a ==> a[k] == b[k]) {
      assert At(a, k) == At(b, k);
    }
    SameTable(a, b);
  }

  lemma {:induction false} RepeatableIsIdle(db: Db, ms: seq<Metric>)
    requires Repeatable(db, ms)
    ensures Record(Record(db, ms), ms) == Record(db, ms)
  {
    var once := Record(db, ms);
    var twice := Record(once, ms);
    forall name ensures At(twice.series, name) == At(once.series, name) {
      SeriesAgain(db, ms, name);
      LastStatefulMeans(ms, name);
    }
    SeriesEqual(twice.series, once.series);
    var samples := Push(ms, once.series).samples;
    forall s | s in samples ensures Key(s) in once.table {
      var m := PushSource(ms, once.series, s);
      MetricAgain(db, ms, m, s);
    }
    NothingNew(once.table, samples);
  }

  lemma {:induction false} IdleIsRepeatable(db: Db, ms: seq<Metric>)
    requires Record(Record(db, ms), ms) == Record(db, ms)
    ensures Repeatable(db, ms)
  {
    var once := Record(db, ms);
    forall m | m in ms && LastStateful(ms, m.name) == Some(m) ensures !AddsAgain(m) {
      SeriesAgain(db, ms, m.name);
    }
    forall m, l | m in ms && Cumulative(m) && LastStateful(ms, m.name) == Some(l) && Stateful(l) && Regain(m, l) > 0.0
      ensures KeyOf(m) in once.table
    {
      SavedOf(db.series, ms, db.series, m.name);
      CumulativeAgain(m, l, db.series, once.series);
      var s := PushMetric(m, once.series).samples[0];
      PushMember(ms, once.series, m, s);
      KeysStored(once.table, Push(ms, once.series).samples);
    }
  }

  /** Recording a push twice changes nothing, exactly when it is repeatable. */
  lemma {:induction false} ReplayIsIdle(db: Db, ms: seq<Metric>)
    ensures Record(Record(db, ms), ms) == Record(db, ms) <==> Repeatable(db, ms)
  {
    if Repeatable(db, ms) {
      RepeatableIsIdle(db, ms);
    }
    if Record(Record(db, ms), ms) == Record(db, ms) {
      IdleIsRepeatable(db, ms);
    }
  }

  ghost predicate DistinctNames(ms: seq<Metric>) {
    forall i, j :: 0 <= i < j < |ms| ==> ms[i].name != ms[j].name
  }

  lemma {:induction false} OnlyOne(ms: seq<Metric>, m: Metric)
    requires DistinctNames(ms) && m in ms
    ensures LastStateful(ms, m.name) == if Stateful(m) then Some(m) else None
  {
    LastStatefulMeans(ms, m.name);
  }

  /** When every metric has its own name, only histograms of increments stand in the way. */
  lemma {:induction false} ReplayOfDistinct(db: Db, ms: seq<Metric>)
    requires DistinctNames(ms)
    ensures Repeatable(db, ms) <==> forall m :: m in ms ==> !AddsAgain(m)
  {
    forall m | m in ms ensures LastStateful(ms, m.name) == if Stateful(m) then Some(m) else None {
      OnlyOne(ms, m);
    }
  }

  /** A histogram of one observation, sent as an increment, is counted twice. */
  lemma {:induction false} IncrementCountsTwice()
    ensures
      var push := [Metric("h", HistogramOf(true), [Point(0, 0, 1.0, 1.0)])];
      Record(Record(Db(map[], map[]), push), push) != Record(Db(map[], map[]), push)
  {
    var m := Metric("h", HistogramOf(true), [Point(0, 0, 1.0, 1.0)]);
    assert m.points[..0] == [] && Total(m.points) == 1.0;
    assert AddsAgain(m) && m in [m];
    ReplayOfDistinct(Db(map[], map[]), [m]);
    ReplayIsIdle(Db(map[], map[]), [m]);
  }

  /** A counter named twice in one push: first seen stale, the smaller value is counted when the push comes again. */
  lemma {:induction false} RepeatedNameCountsLater()
    ensures
      var late := 1_000_000_000_000;
      var push := [Metric("c", SumOf(true, false), [Point(late, 0, 5.0, 0.0)]), Metric("c", SumOf(true, false), [Point(late, 0, 7.0, 0.0)])];
      Record(Record(Db(map[], map[]), push), push) != Record(Db(map[], map[]), push)
  {
    var late := 1_000_000_000_000;
    var a, b := Metric("c", SumOf(true, false), [Point(late, 0, 5.0, 0.0)]), Metric("c", SumOf(true, false), [Point(late, 0, 7.0, 0.0)]);
    var db := Db(map[], map[]);
    assert a.points[..0] == [] && Total(a.points) == 5.0 && LatestTime(a.points) == late && EarliestStart(a.points) == 0;
    assert b.points[..0] == [] && Total(b.points) == 7.0 && LatestTime(b.points) == late && EarliestStart(b.points) == 0;
    assert [a, b][..1] == [a] && [a][..0] == [];
    assert PushMetric(a, map[]).samples == [] && PushMetric(b, map[]).samples == [];
    assert Push([a, b], map[]).samples == [] by {
      assert Push([a], map[]).samples == [];
    }
    assert Record(db, [a, b]).table == map[];
    assert LastStateful([a, b], "c") == Some(b) && Regain(a, b) == 5.0 && a in [a, b];
    assert !Repeatable(db, [a, b]);
    ReplayIsIdle(db, [a, b]);
  }
}
