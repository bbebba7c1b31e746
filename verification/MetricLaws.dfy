/**
 What the samples of a series add up to over whole runs of the console: pushes of every metric the
 server has, and observations the console makes itself, in any order.
 */
module MetricLaws {
  import opened Basics
  import opened Sorting
  import opened MetricSamples
  import D = DerivedHistogram

  datatype Step = PushStep(metrics: seq<Metric>) | ObserveStep(name: string, observations: seq<D.Observation>)

  /** A series the console may add to itself: a latency the server exports is not counted twice. */
  predicate Unexported(state: Option<State>) {
    state.None? || state.value.start == Derived
  }

  function Outcome(series: Series, step: Step): Pushed {
    match step
    case PushStep(metrics) => Push(metrics, series)
    case ObserveStep(name, observations) =>
      if Unexported(At(series, name)) then D.AddTo(At(series, name), name, observations) else Pushed([], [])
  }

  /** The stored series after a run that began with none. */
  function After(steps: seq<Step>): Series {
    if steps == [] then map[]
    else
      var before := After(steps[..|steps| - 1]);
      Saved(before, Outcome(before, steps[|steps| - 1]).states)
  }

  /** All the samples of a run, in order. */
  function Produced(steps: seq<Step>): seq<Sample> {
    if steps == [] then []
    else
      var front := steps[..|steps| - 1];
      Produced(front) + Outcome(After(front), steps[|steps| - 1]).samples
  }

  function Of(samples: seq<Sample>, name: string): seq<Sample> {
    if samples == [] then []
    else
      Of(samples[..|samples| - 1], name)
        + if samples[|samples| - 1].metric == name then [samples[|samples| - 1]] else []
  }

  // ---------------------------------------------------------------- one series among many

  lemma {:induction false} OfConcat(a: seq<Sample>, b: seq<Sample>, name: string)
    ensures Of(a + b, name) == Of(a, name) + Of(b, name)
    decreases |b|
  {
    if b == [] {
      assert a + b == a;
    } else {
      assert (a + b)[..|a + b| - 1] == a + b[..|b| - 1];
      OfConcat(a, b[..|b| - 1], name);
    }
  }

  lemma {:induction false} OfOwn(samples: seq<Sample>, own: string, name: string)
    requires forall i :: 0 <= i < |samples| ==> samples[i].metric == own
    ensures Of(samples, name) == if own == name then samples else []
    decreases |samples|
  {
    if samples != [] {
      OfOwn(samples[..|samples| - 1], own, name);
    }
  }

  lemma {:induction false} OwnSamples(m: Metric, series: Series)
    ensures forall i :: 0 <= i < |PushMetric(m, series).samples| ==> PushMetric(m, series).samples[i].metric == m.name
  {}

  lemma {:induction false} OfMetric(m: Metric, series: Series, name: string)
    ensures Of(PushMetric(m, series).samples, name) == if m.name == name then PushMetric(m, series).samples else []
  {
    OwnSamples(m, series);
    OfOwn(PushMetric(m, series).samples, m.name, name);
  }

  /** The metrics of a push with that name, those without points left out. */
  function Entries(ms: seq<Metric>, name: string): (es: seq<Metric>)
    ensures forall m :: m in es ==> m in ms && m.name == name && m.points != []
  {
    if ms == [] then []
    else
      var last := ms[|ms| - 1];
      Entries(ms[..|ms| - 1], name) + if last.name == name && last.points != [] then [last] else []
  }

  lemma {:induction false} EntriesSnoc(ms: seq<Metric>, m: Metric, name: string)
    ensures Entries(ms + [m], name) == Entries(ms, name) + if m.name == name && m.points != [] then [m] else []
  {
    assert (ms + [m])[..|ms|] == ms;
  }

  function SamplesOf(es: seq<Metric>, series: Series): seq<Sample> {
    if es == [] then [] else SamplesOf(es[..|es| - 1], series) + PushMetric(es[|es| - 1], series).samples
  }

  lemma {:induction false} SamplesSnoc(es: seq<Metric>, m: Metric, series: Series)
    ensures SamplesOf(es + [m], series) == SamplesOf(es, series) + PushMetric(m, series).samples
  {
    assert (es + [m])[..|es|] == es;
  }

  lemma {:induction false} PushOf(ms: seq<Metric>, series: Series, name: string)
    ensures Of(Push(ms, series).samples, name) == SamplesOf(Entries(ms, name), series)
    decreases |ms|
  {
    if ms != [] {
      var front, last := ms[..|ms| - 1], ms[|ms| - 1];
      PushOf(front, series, name);
      OfConcat(Push(front, series).samples, PushMetric(last, series).samples, name);
      OfMetric(last, series, name);
      var es := Entries(front, name);
      if last.name == name && last.points != [] {
        SamplesSnoc(es, last, series);
      } else {
        assert es + [] == es;
      }
    }
  }

  lemma {:induction false} LastEntry(ms: seq<Metric>, name: string)
    requires var es := Entries(ms, name); es != [] ==> Stateful(es[|es| - 1])
    ensures
      var es := Entries(ms, name);
      LastStateful(ms, name) == if es == [] then None else Some(es[|es| - 1])
    decreases |ms|
  {
    if ms != [] {
      var front, last := ms[..|ms| - 1], ms[|ms| - 1];
      if !(last.name == name && last.points != []) {
        assert Entries(front, name) + [] == Entries(front, name);
        LastEntry(front, name);
      }
    }
  }

  /** The metrics a step holds for a series. */
  function EntriesOf(step: Step, name: string): (es: seq<Metric>)
    ensures forall m :: m in es ==> m.name == name && m.points != []
  {
    match step
    case ObserveStep(_, _) => []
    case PushStep(ms) => Entries(ms, name)
  }

  /** The one of them that decides the state: the last. */
  function Reported(step: Step, name: string): Option<Metric> {
    var es := EntriesOf(step, name);
    if es == [] then None else Some(es[|es| - 1])
  }

  /** The others. */
  function Earlier(step: Step, name: string): (es: seq<Metric>)
    ensures forall m :: m in es ==> m.name == name && m.points != []
  {
    var es := EntriesOf(step, name);
    if es == [] then [] else es[..|es| - 1]
  }

  /** The console does not observe the series itself, and what is reported for it leaves a state. */
  predicate Apart(step: Step, name: string) {
    && (step.ObserveStep? ==> step.name != name)
    && (Reported(step, name).Some? ==> Stateful(Reported(step, name).value))
  }

  lemma {:induction false} ObservedOf(state: Option<State>, own: string, obs: seq<D.Observation>, name: string)
    ensures Of(D.AddTo(state, own, obs).samples, name) == if own == name then D.AddTo(state, own, obs).samples else []
  {
    var sorted := SortBy(obs, D.AT);
    SortSorts(obs, D.AT);
    D.ObservedTells(own, D.CountOf(state), D.SumOf(state), sorted, |sorted|);
    OfOwn(D.AddTo(state, own, obs).samples, own, name);
  }

  /** A step touches a series only through the metrics it holds for it, and leaves it the state of the last. */
  lemma {:induction false} StepOnSeries(series: Series, step: Step, name: string)
    requires Apart(step, name)
    ensures
      var out := Outcome(series, step);
      && At(Saved(series, out.states), name)
         == (match Reported(step, name) case None => At(series, name) case Some(m) => StateOf(m, series))
      && Of(out.samples, name) == SamplesOf(EntriesOf(step, name), series)
  {
    match step
    case PushStep(ms) =>
      PushOf(ms, series, name);
      SavedOf(series, ms, series, name);
      LastEntry(ms, name);
    case ObserveStep(own, obs) =>
      ObservedOf(At(series, own), own, obs, name);
      var states := D.AddTo(At(series, own), own, obs).states;
      assert states[..0] == [];
  }

  // ---------------------------------------------------------------- readings

  /** What one push said about a cumulative series. */
  datatype Reading = Reading(start: nat, count: real, sum: real)

  function ReadingOf(m: Metric): Reading
    requires m.points != []
  {
    Reading(EarliestStart(m.points), Total(m.points), TotalSum(m.points))
  }

  function Readings(steps: seq<Step>, name: string): seq<Reading> {
    if steps == [] then []
    else
      var m := Reported(steps[|steps| - 1], name);
      Readings(steps[..|steps| - 1], name)
        + if m.Some? then [ReadingOf(m.value)] else []
  }

  const COUNT := (r: Reading) => r.count
  const SUM := (r: Reading) => r.sum

  /** The server restarted between two readings. */
  predicate Breaks(a: Reading, b: Reading) {
    a.start != b.start || b.count < a.count
  }

  /** The last value of every run of the server, added up. */
  function RunEnds(rs: seq<Reading>, f: Reading -> real): real {
    if rs == [] then 0.0
    else (if |rs| == 1 || Breaks(rs[0], rs[1]) then f(rs[0]) else 0.0) + RunEnds(rs[1..], f)
  }

  lemma {:induction false} RunEndsSnoc(rs: seq<Reading>, r: Reading, f: Reading -> real)
    requires rs != []
    ensures
      var last := rs[|rs| - 1];
      RunEnds(rs + [r], f) == RunEnds(rs, f) + f(r) - (if Breaks(last, r) then 0.0 else f(last))
    decreases |rs|
  {
    var all := rs + [r];
    assert all[1..] == rs[1..] + [r];
    if |rs| == 1 {
      assert all[1..] == [r] && [r][1..] == [] && rs[1..] == [];
    } else {
      RunEndsSnoc(rs[1..], r, f);
    }
  }

  /** The first value of the series told of a time the console did not see. */
  predicate StaleFirst(steps: seq<Step>, name: string) {
    if steps == [] then false
    else
      var front := steps[..|steps| - 1];
      if name in After(front) then StaleFirst(front, name)
      else
        match Reported(steps[|steps| - 1], name)
        case None => false
        case Some(m) => Unseen(m, After(front))
  }

  /** What the next reading adds to the run ends that are not skipped. */
  function Gain(rs: seq<Reading>, r: Reading, stale: bool, f: Reading -> real): real {
    if rs == [] then (if stale then 0.0 else f(r))
    else if Breaks(rs[|rs| - 1], r) then f(r)
    else f(r) - f(rs[|rs| - 1])
  }

  /** What the console heard of, in whole: every run's end, less what came before it listened. */
  function Heard(steps: seq<Step>, name: string, f: Reading -> real): real {
    RunEnds(Readings(steps, name), f) - SkippedOf(Readings(steps, name), StaleFirst(steps, name), f)
  }

  /** A first value that is skipped. */
  function SkippedOf(rs: seq<Reading>, stale: bool, f: Reading -> real): real {
    if stale && rs != [] then f(rs[0]) else 0.0
  }

  lemma {:induction false} GainOnce(rs: seq<Reading>, r: Reading, before: bool, stale: bool, f: Reading -> real)
    requires rs != [] ==> before == stale
    ensures RunEnds(rs + [r], f) - SkippedOf(rs + [r], stale, f)
         == RunEnds(rs, f) - SkippedOf(rs, before, f) + Gain(rs, r, stale, f)
  {
    if rs == [] {
      assert rs + [r] == [r] && [r][1..] == [];
    } else {
      RunEndsSnoc(rs, r, f);
      assert (rs + [r])[0] == rs[0];
    }
  }

  lemma {:induction false} GainIsExact(steps: seq<Step>, name: string, m: Metric, f: Reading -> real)
    requires steps != [] && Reported(steps[|steps| - 1], name) == Some(m) && m.points != []
    requires name in After(steps[..|steps| - 1]) <==> Readings(steps[..|steps| - 1], name) != []
    ensures
      var front := steps[..|steps| - 1];
      var rs, r := Readings(front, name), ReadingOf(m);
      && Readings(steps, name) == rs + [r]
      && Heard(steps, name, f) == Heard(front, name, f) + Gain(rs, r, StaleFirst(steps, name), f)
  {
    var front := steps[..|steps| - 1];
    GainOnce(Readings(front, name), ReadingOf(m), StaleFirst(front, name), StaleFirst(steps, name), f);
  }

  /** When the first value of a series is stale. */
  predicate Unseen(m: Metric, series: Series)
    requires m.points != []
  {
    var start := EarliestStart(m.points);
    !KnownRun(series, start) && Millis(LatestTime(m.points)) - Millis(start) > FRESH_SERIES_MS
  }

  lemma {:induction false} StaleIsUnseen(steps: seq<Step>, name: string, m: Metric)
    requires steps != [] && Reported(steps[|steps| - 1], name) == Some(m) && m.points != []
    requires name !in After(steps[..|steps| - 1])
    ensures StaleFirst(steps, name) <==> Unseen(m, After(steps[..|steps| - 1]))
  {}

  lemma {:induction false} SilentStep(steps: seq<Step>, name: string, f: Reading -> real)
    requires steps != [] && Reported(steps[|steps| - 1], name) == None
    requires name in After(steps[..|steps| - 1]) <==> Readings(steps[..|steps| - 1], name) != []
    ensures Readings(steps, name) == Readings(steps[..|steps| - 1], name)
    ensures Heard(steps, name, f) == Heard(steps[..|steps| - 1], name, f)
  {
    var rs := Readings(steps[..|steps| - 1], name);
    assert rs + [] == rs;
  }

  // ---------------------------------------------------------------- counters

  function SumCounts(samples: seq<Sample>): real {
    if samples == [] then 0.0 else SumCounts(samples[..|samples| - 1]) + samples[|samples| - 1].count
  }

  lemma {:induction false} SumCountsConcat(a: seq<Sample>, b: seq<Sample>)
    ensures SumCounts(a + b) == SumCounts(a) + SumCounts(b)
    decreases |b|
  {
    if b == [] {
      assert a + b == a;
    } else {
      assert (a + b)[..|a + b| - 1] == a + b[..|b| - 1];
      SumCountsConcat(a, b[..|b| - 1]);
    }
  }

  /** The series is a cumulative counter wherever it is reported. */
  ghost predicate CounterStep(step: Step, name: string) {
    && (step.ObserveStep? ==> step.name != name)
    && forall m :: m in EntriesOf(step, name) ==> m.shape == MetricSamples.SumOf(true, false) && Total(m.points) >= 0.0
  }

  ghost predicate CounterRun(steps: seq<Step>, name: string) {
    forall i :: 0 <= i < |steps| ==> CounterStep(steps[i], name)
  }

  /** The stored state of a counter is its last reading. */
  ghost predicate CounterState(state: Option<State>, rs: seq<Reading>) {
    if rs == [] then state.None?
    else
      var last := rs[|rs| - 1];
      state == Some(State(Counter, Ns(last.start), last.count, 0.0, 0.0, 0.0))
  }

  /** How much a counter grew, and when. */
  datatype Growth = Growth(at: int, amount: real)

  /** What a metric adds to a series, its first value if not stale. */
  function GainOf(m: Metric, rs: seq<Reading>, series: Series): real
    requires m.points != []
  {
    Gain(rs, ReadingOf(m), Unseen(m, series), COUNT)
  }

  /** The metrics that add something, each measured against the readings before the push. */
  function GrowthsOf(es: seq<Metric>, rs: seq<Reading>, series: Series): seq<Growth>
    requires forall m :: m in es ==> m.points != []
  {
    if es == [] then []
    else
      var last := es[|es| - 1];
      assert last in es;
      GrowthsOf(es[..|es| - 1], rs, series)
        + if GainOf(last, rs, series) > 0.0 then [Growth(Millis(LatestTime(last.points)), GainOf(last, rs, series))] else []
  }

  /** All that a counter grew over a run, as the pushes tell it. */
  function Growths(steps: seq<Step>, name: string): seq<Growth> {
    if steps == [] then []
    else
      var front := steps[..|steps| - 1];
      Growths(front, name) + GrowthsOf(EntriesOf(steps[|steps| - 1], name), Readings(front, name), After(front))
  }

  function Amounts(gs: seq<Growth>): real {
    if gs == [] then 0.0 else Amounts(gs[..|gs| - 1]) + gs[|gs| - 1].amount
  }

  lemma {:induction false} AmountsConcat(a: seq<Growth>, b: seq<Growth>)
    ensures Amounts(a + b) == Amounts(a) + Amounts(b)
    decreases |b|
  {
    if b == [] {
      assert a + b == a;
    } else {
      assert (a + b)[..|a + b| - 1] == a + b[..|b| - 1];
      AmountsConcat(a, b[..|b| - 1]);
    }
  }

  /** Counter samples as growths. */
  function Told(samples: seq<Sample>): seq<Growth> {
    seq(|samples|, i requires 0 <= i < |samples| => Growth(samples[i].at, samples[i].count))
  }

  lemma {:induction false} ToldConcat(a: seq<Sample>, b: seq<Sample>)
    ensures Told(a + b) == Told(a) + Told(b)
  {}

  lemma {:induction false} ToldSum(samples: seq<Sample>)
    ensures Amounts(Told(samples)) == SumCounts(samples)
    decreases |samples|
  {
    if samples != [] {
      assert Told(samples)[..|samples| - 1] == Told(samples[..|samples| - 1]);
      ToldSum(samples[..|samples| - 1]);
    }
  }

  lemma {:induction false} CounterGain(m: Metric, series: Series, rs: seq<Reading>)
    requires m.shape == MetricSamples.SumOf(true, false) && m.points != [] && Total(m.points) >= 0.0
    requires CounterState(At(series, m.name), rs)
    ensures
      var gain := GainOf(m, rs, series);
      gain >= 0.0 && Told(PushMetric(m, series).samples) == if gain > 0.0 then [Growth(Millis(LatestTime(m.points)), gain)] else []
    ensures CounterState(StateOf(m, series), rs + [ReadingOf(m)])
  {}

  lemma {:induction false} CounterGains(es: seq<Metric>, series: Series, rs: seq<Reading>, name: string)
    requires CounterState(At(series, name), rs)
    requires forall m :: m in es ==>
      m.name == name && m.points != [] && m.shape == MetricSamples.SumOf(true, false) && Total(m.points) >= 0.0
    ensures Told(SamplesOf(es, series)) == GrowthsOf(es, rs, series)
    decreases |es|
  {
    if es != [] {
      var front, last := es[..|es| - 1], es[|es| - 1];
      assert last in es;
      CounterGains(front, series, rs, name);
      CounterGain(last, series, rs);
      ToldConcat(SamplesOf(front, series), PushMetric(last, series).samples);
    }
  }

  lemma {:induction false} CounterMoves(steps: seq<Step>, name: string)
    requires steps != [] && CounterStep(steps[|steps| - 1], name)
    requires CounterState(At(After(steps[..|steps| - 1]), name), Readings(steps[..|steps| - 1], name))
    ensures CounterState(At(After(steps), name), Readings(steps, name))
  {
    var front, step := steps[..|steps| - 1], steps[|steps| - 1];
    StepOnSeries(After(front), step, name);
    match Reported(step, name)
    case None =>
      assert Readings(front, name) + [] == Readings(front, name);
    case Some(m) =>
      CounterGain(m, After(front), Readings(front, name));
  }

  /** The samples of a counter are exactly its growths, in order. */
  lemma {:induction false} CounterSamples(steps: seq<Step>, name: string)
    requires CounterRun(steps, name)
    ensures CounterState(At(After(steps), name), Readings(steps, name))
    ensures Told(Of(Produced(steps), name)) == Growths(steps, name)
    decreases |steps|
  {
    if steps != [] {
      var front, step := steps[..|steps| - 1], steps[|steps| - 1];
      assert CounterStep(step, name);
      CounterSamples(front, name);
      CounterMoves(steps, name);
      StepOnSeries(After(front), step, name);
      var out := Outcome(After(front), step).samples;
      OfConcat(Produced(front), out, name);
      ToldConcat(Of(Produced(front), name), Of(out, name));
      CounterGains(EntriesOf(step, name), After(front), Readings(front, name), name);
    }
  }

  /** What metrics add that are not the last of their name in a push. */
  function Repeated(steps: seq<Step>, name: string): real {
    if steps == [] then 0.0
    else
      var front := steps[..|steps| - 1];
      Repeated(front, name) + Amounts(GrowthsOf(Earlier(steps[|steps| - 1], name), Readings(front, name), After(front)))
  }

  lemma {:induction false} LastAmount(es: seq<Metric>, rs: seq<Reading>, series: Series)
    requires es != [] && forall m :: m in es ==> m.points != []
    requires GainOf(es[|es| - 1], rs, series) >= 0.0
    ensures Amounts(GrowthsOf(es, rs, series))
         == Amounts(GrowthsOf(es[..|es| - 1], rs, series)) + GainOf(es[|es| - 1], rs, series)
  {
    var gs, last := GrowthsOf(es[..|es| - 1], rs, series), es[|es| - 1];
    if GainOf(last, rs, series) > 0.0 {
      var all := gs + [Growth(Millis(LatestTime(last.points)), GainOf(last, rs, series))];
      assert all[..|gs|] == gs;
    } else {
      assert gs + [] == gs;
    }
  }

  /** The last metric of a push adds exactly what was heard. */
  lemma {:induction false} LastIsHeard(steps: seq<Step>, name: string, m: Metric)
    requires steps != [] && CounterStep(steps[|steps| - 1], name) && Reported(steps[|steps| - 1], name) == Some(m)
    requires CounterState(At(After(steps[..|steps| - 1]), name), Readings(steps[..|steps| - 1], name))
    ensures m.points != []
    ensures
      var front := steps[..|steps| - 1];
      var gain := GainOf(m, Readings(front, name), After(front));
      gain >= 0.0 && gain == Heard(steps, name, COUNT) - Heard(front, name, COUNT)
  {
    var front := steps[..|steps| - 1];
    if name !in After(front) {
      StaleIsUnseen(steps, name, m);
    }
    CounterGain(m, After(front), Readings(front, name));
    GainIsExact(steps, name, m, COUNT);
  }

  /** The growths of one step: what it adds to what was heard, and what it repeats. */
  lemma {:induction false} StepAmounts(steps: seq<Step>, name: string)
    requires steps != [] && CounterStep(steps[|steps| - 1], name)
    requires CounterState(At(After(steps[..|steps| - 1]), name), Readings(steps[..|steps| - 1], name))
    ensures
      var front, step := steps[..|steps| - 1], steps[|steps| - 1];
      Amounts(GrowthsOf(EntriesOf(step, name), Readings(front, name), After(front)))
        == Heard(steps, name, COUNT) - Heard(front, name, COUNT)
           + Amounts(GrowthsOf(Earlier(step, name), Readings(front, name), After(front)))
  {
    var front, step := steps[..|steps| - 1], steps[|steps| - 1];
    match Reported(step, name)
    case None =>
      SilentStep(steps, name, COUNT);
    case Some(m) =>
      LastIsHeard(steps, name, m);
      LastAmount(EntriesOf(step, name), Readings(front, name), After(front));
  }

  /**
   The samples of a counter add up to what each run of the server had counted when it was last heard
   of, less the first value if that told of a time the console did not see, and to what a push repeats.
   */
  lemma {:induction false} CounterLaw(steps: seq<Step>, name: string)
    requires CounterRun(steps, name)
    ensures SumCounts(Of(Produced(steps), name)) == Heard(steps, name, COUNT) + Repeated(steps, name)
  {
    CounterSamples(steps, name);
    ToldSum(Of(Produced(steps), name));
    GrowthsAddUp(steps, name);
  }

  lemma {:induction false} GrowthsAddUp(steps: seq<Step>, name: string)
    requires CounterRun(steps, name)
    ensures Amounts(Growths(steps, name)) == Heard(steps, name, COUNT) + Repeated(steps, name)
    decreases |steps|
  {
    if steps == [] {
      NothingHeard(steps, name, COUNT);
    } else {
      var front, step := steps[..|steps| - 1], steps[|steps| - 1];
      assert CounterStep(step, name);
      GrowthsAddUp(front, name);
      CounterSamples(front, name);
      StepAmounts(steps, name);
      AmountsConcat(Growths(front, name), GrowthsOf(EntriesOf(step, name), Readings(front, name), After(front)));
    }
  }

  lemma {:induction false} GrowthsArePositive(es: seq<Metric>, rs: seq<Reading>, series: Series)
    requires forall m :: m in es ==> m.points != []
    ensures Amounts(GrowthsOf(es, rs, series)) >= 0.0
    ensures Amounts(GrowthsOf(es, rs, series)) == 0.0 <==> forall m :: m in es ==> GainOf(m, rs, series) <= 0.0
    decreases |es|
  {
    if es != [] {
      var front, last := es[..|es| - 1], es[|es| - 1];
      assert last in es && es == front + [last];
      GrowthsArePositive(front, rs, series);
      var gs := GrowthsOf(front, rs, series);
      if GainOf(last, rs, series) > 0.0 {
        var all := gs + [Growth(Millis(LatestTime(last.points)), GainOf(last, rs, series))];
        assert all[..|gs|] == gs;
      } else {
        assert gs + [] == gs;
      }
    }
  }

  /** No metric adds to a counter but the last of its name in a push. */
  ghost predicate NoneRepeats(steps: seq<Step>, name: string) {
    steps == [] ||
    var front := steps[..|steps| - 1];
    && NoneRepeats(front, name)
    && forall m :: m in Earlier(steps[|steps| - 1], name) ==> GainOf(m, Readings(front, name), After(front)) <= 0.0
  }

  /** Counting is exact when nothing is repeated, and only then. */
  lemma {:induction false} CountsOnceIff(steps: seq<Step>, name: string)
    requires CounterRun(steps, name)
    ensures SumCounts(Of(Produced(steps), name)) >= Heard(steps, name, COUNT)
    ensures SumCounts(Of(Produced(steps), name)) == Heard(steps, name, COUNT) <==> NoneRepeats(steps, name)
  {
    CounterLaw(steps, name);
    RepeatedIsNothing(steps, name);
  }

  lemma {:induction false} RepeatedIsNothing(steps: seq<Step>, name: string)
    ensures Repeated(steps, name) >= 0.0
    ensures Repeated(steps, name) == 0.0 <==> NoneRepeats(steps, name)
    decreases |steps|
  {
    if steps != [] {
      var front := steps[..|steps| - 1];
      RepeatedIsNothing(front, name);
      GrowthsArePositive(Earlier(steps[|steps| - 1], name), Readings(front, name), After(front));
    }
  }

  /** One push that names a counter twice, with 5 and with 7, makes it 12. */
  lemma {:induction false} NamedTwiceCountsTwice()
    ensures
      var a, b := CounterAt("c", 5.0), CounterAt("c", 7.0);
      var steps := [PushStep([a, b])];
      CounterRun(steps, "c") && Heard(steps, "c", COUNT) == 7.0 && SumCounts(Of(Produced(steps), "c")) == 12.0
  {
    var a, b := CounterAt("c", 5.0), CounterAt("c", 7.0);
    var steps := [PushStep([a, b])];
    assert [a, b] == [a] + [b] && steps[..0] == [];
    OneMetric(a);
    EntriesSnoc([a], b, "c");
    PointTotals(5.0, 0.0);
    PointTotals(7.0, 0.0);
    assert Readings(steps, "c") == [ReadingOf(b)];
    assert [ReadingOf(b)][1..] == [];
    assert RunEnds([ReadingOf(b)], COUNT) == 7.0;
    assert Earlier(steps[0], "c") == [a];
    assert Repeated(steps, "c") == 5.0 by {
      assert GainOf(a, [], map[]) == 5.0;
      LastAmount([a], [], map[]);
      assert GrowthsOf([], [], map[]) == [];
    }
    CounterLaw(steps, "c");
  }

  /** A counter that began at the time it is told of. */
  function CounterAt(name: string, value: real): Metric {
    Metric(name, MetricSamples.SumOf(true, false), [Point(0, 0, value, 0.0)])
  }

  lemma {:induction false} PointTotals(value: real, sum: real)
    ensures
      var ps := [Point(0, 0, value, sum)];
      Total(ps) == value && TotalSum(ps) == sum && LatestTime(ps) == 0 && EarliestStart(ps) == 0
  {
    assert [Point(0, 0, value, sum)][..0] == [];
  }

  // ---------------------------------------------------------------- histogram totals

  /** The series is a cumulative histogram wherever it is reported. */
  ghost predicate HistogramStep(step: Step, name: string) {
    && (step.ObserveStep? ==> step.name != name)
    && var m := Reported(step, name);
       m.Some? ==> m.value.shape == HistogramOf(false) && Total(m.value.points) >= 0.0
  }

  ghost predicate HistogramRun(steps: seq<Step>, name: string) {
    forall i :: 0 <= i < |steps| ==> HistogramStep(steps[i], name)
  }

  /** The stored state of a histogram is its last reading, with this total count. */
  ghost predicate HistogramState(state: Option<State>, rs: seq<Reading>, count: real) {
    if rs == [] then state.None?
    else
      var last := rs[|rs| - 1];
      && state.Some?
      && state == Some(State(Histogram, Ns(last.start), last.count, last.sum, count, state.value.totalSum))
  }

  /** What a reading really adds to the total sum: nothing unless the count grows, and never less. */
  function SumAdded(rs: seq<Reading>, r: Reading, stale: bool): real {
    if Gain(rs, r, stale, COUNT) > 0.0 then Positive(Gain(rs, r, stale, SUM)) else 0.0
  }

  /** The sum of a reading moves up within a run of the server, and only when the count does. */
  predicate SumFollows(rs: seq<Reading>, r: Reading, stale: bool) {
    if rs == [] && stale then true
    else if rs == [] || Breaks(rs[|rs| - 1], r) then r.sum >= 0.0 && (r.count == 0.0 ==> r.sum == 0.0)
    else
      var last := rs[|rs| - 1];
      r.sum >= last.sum && (r.count == last.count ==> r.sum == last.sum)
  }

  lemma {:induction false} FollowsIffExact(rs: seq<Reading>, r: Reading, stale: bool)
    requires r.count >= 0.0
    ensures SumAdded(rs, r, stale) == Gain(rs, r, stale, SUM) <==> SumFollows(rs, r, stale)
  {}

  lemma {:induction false} HistogramGain(m: Metric, series: Series, rs: seq<Reading>, stale: bool, count: real)
    requires m.shape == HistogramOf(false) && m.points != [] && Total(m.points) >= 0.0
    requires HistogramState(At(series, m.name), rs, count) && (rs == [] ==> count == 0.0)
    requires rs == [] ==> (stale <==> Unseen(m, series))
    ensures Moved(At(series, m.name), StateOf(m, series), rs, ReadingOf(m), stale, count)
  {}

  /** How a reading moves the state of a series whose total count was `count`. */
  ghost predicate Moved(
      before: Option<State>, state: Option<State>, rs: seq<Reading>, r: Reading, stale: bool, count: real) {
    && HistogramState(state, rs + [r], count + Gain(rs, r, stale, COUNT))
    && state.value.totalSum == D.SumOf(before) + SumAdded(rs, r, stale)
  }

  lemma {:induction false} NothingHeard(steps: seq<Step>, name: string, f: Reading -> real)
    requires Readings(steps, name) == []
    ensures Heard(steps, name, f) == 0.0
  {}

  /** One reported step: how the state of the series moves. */
  lemma {:induction false} HistogramMoves(steps: seq<Step>, name: string, m: Metric)
    requires steps != [] && Reported(steps[|steps| - 1], name) == Some(m) && HistogramStep(steps[|steps| - 1], name)
    requires m.name == name && m.points != []
    requires
      var front := steps[..|steps| - 1];
      HistogramState(At(After(front), name), Readings(front, name), Heard(front, name, COUNT))
    ensures
      var front := steps[..|steps| - 1];
      Moved(At(After(front), name), StateOf(m, After(front)), Readings(front, name), ReadingOf(m),
        StaleFirst(steps, name), Heard(front, name, COUNT))
  {
    var front := steps[..|steps| - 1];
    if name !in After(front) {
      StaleIsUnseen(steps, name, m);
      NothingHeard(front, name, COUNT);
    }
    HistogramGain(m, After(front), Readings(front, name), StaleFirst(steps, name), Heard(front, name, COUNT));
  }

  lemma {:induction false} MovedIsHeard(
      before: Option<State>, state: Option<State>, rs: seq<Reading>, r: Reading, stale: bool, count: real,
      all: seq<Reading>, heard: real)
    requires Moved(before, state, rs, r, stale, count) && all == rs + [r] && heard == count + Gain(rs, r, stale, COUNT)
    ensures HistogramState(state, all, heard)
  {}

  lemma {:induction false} HistogramHears(steps: seq<Step>, name: string, m: Metric)
    requires steps != [] && Reported(steps[|steps| - 1], name) == Some(m) && HistogramStep(steps[|steps| - 1], name)
    requires m.name == name && m.points != []
    requires
      var front := steps[..|steps| - 1];
      HistogramState(At(After(front), name), Readings(front, name), Heard(front, name, COUNT))
    ensures HistogramState(StateOf(m, After(steps[..|steps| - 1])), Readings(steps, name), Heard(steps, name, COUNT))
  {
    var front := steps[..|steps| - 1];
    HistogramMoves(steps, name, m);
    GainIsExact(steps, name, m, COUNT);
    MovedIsHeard(
      At(After(front), name), StateOf(m, After(front)), Readings(front, name), ReadingOf(m), StaleFirst(steps, name),
      Heard(front, name, COUNT), Readings(steps, name), Heard(steps, name, COUNT));
  }

  /** The total count of a histogram obeys the law of counters. */
  lemma {:induction false} HistogramLaw(steps: seq<Step>, name: string)
    requires HistogramRun(steps, name)
    ensures HistogramState(At(After(steps), name), Readings(steps, name), Heard(steps, name, COUNT))
    decreases |steps|
  {
    if steps != [] {
      var front, step := steps[..|steps| - 1], steps[|steps| - 1];
      assert HistogramStep(step, name);
      HistogramLaw(front, name);
      StepOnSeries(After(front), step, name);
      match Reported(step, name)
      case None =>
        SilentStep(steps, name, COUNT);
      case Some(m) =>
        HistogramHears(steps, name, m);
    }
  }

  /** Every reading's sum follows its count. */
  predicate SumsFollow(steps: seq<Step>, name: string) {
    steps == [] ||
    var front := steps[..|steps| - 1];
    && SumsFollow(front, name)
    && var m := Reported(steps[|steps| - 1], name);
       m.Some? ==> SumFollows(Readings(front, name), ReadingOf(m.value), StaleFirst(steps, name))
  }

  /** The law of counters holds of the total sum too. */
  ghost predicate SumLaw(steps: seq<Step>, name: string) {
    D.SumOf(At(After(steps), name)) == Heard(steps, name, SUM)
  }

  /** If the law holds before a step, it holds after it exactly when the sum follows the count. */
  lemma {:induction false} SumStep(steps: seq<Step>, name: string)
    requires HistogramRun(steps, name) && steps != [] && SumLaw(steps[..|steps| - 1], name)
    ensures
      var front := steps[..|steps| - 1];
      var m := Reported(steps[|steps| - 1], name);
      SumLaw(steps, name) <==>
        (m.Some? ==> SumFollows(Readings(front, name), ReadingOf(m.value), StaleFirst(steps, name)))
  {
    var front, step := steps[..|steps| - 1], steps[|steps| - 1];
    assert HistogramStep(step, name);
    HistogramLaw(front, name);
    StepOnSeries(After(front), step, name);
    match Reported(step, name)
    case None =>
      SilentStep(steps, name, SUM);
    case Some(m) =>
      HistogramMoves(steps, name, m);
      GainIsExact(steps, name, m, SUM);
      FollowsIffExact(Readings(front, name), ReadingOf(m), StaleFirst(steps, name));
  }

  ghost predicate SumLawThroughout(steps: seq<Step>, name: string) {
    SumLaw(steps, name) && (steps == [] || SumLawThroughout(steps[..|steps| - 1], name))
  }

  /** The total sum obeys the law of counters after every step, exactly when every sum follows its count. */
  lemma {:induction false} HistogramSumLaw(steps: seq<Step>, name: string)
    requires HistogramRun(steps, name)
    ensures SumLawThroughout(steps, name) <==> SumsFollow(steps, name)
    decreases |steps|
  {
    if steps == [] {
      NothingHeard(steps, name, SUM);
    } else {
      var front := steps[..|steps| - 1];
      HistogramSumLaw(front, name);
      if SumLawThroughout(front, name) {
        SumStep(steps, name);
      }
    }
  }

  function HistogramAt(name: string, count: real, sum: real): Metric {
    Metric(name, HistogramOf(false), [Point(0, 0, count, sum)])
  }

  lemma {:induction false} OneMetric(m: Metric)
    requires m.points != []
    ensures EntriesOf(PushStep([m]), m.name) == [m]
  {
    EntriesSnoc([], m, m.name);
    assert [] + [m] == [m];
  }

  lemma {:induction false} TwoReadings(a: Metric, b: Metric)
    requires a.points != [] && b.points != [] && a.name == b.name
    ensures Readings([PushStep([a])], a.name) == [ReadingOf(a)]
    ensures Readings([PushStep([a]), PushStep([b])], a.name) == [ReadingOf(a), ReadingOf(b)]
  {
    OneMetric(a);
    OneMetric(b);
    var one, two := [PushStep([a])], [PushStep([a]), PushStep([b])];
    assert one[..0] == [] && two[..1] == one;
  }

  /** Two pushes of the same count, the sum moved from 10 to 12: the law of the sum fails. */
  lemma {:induction false} SumMovesAlone()
    ensures
      var steps := [PushStep([HistogramAt("h", 5.0, 10.0)]), PushStep([HistogramAt("h", 5.0, 12.0)])];
      HistogramRun(steps, "h") && !SumLawThroughout(steps, "h")
  {
    var a, b := HistogramAt("h", 5.0, 10.0), HistogramAt("h", 5.0, 12.0);
    var steps := [PushStep([a]), PushStep([b])];
    PointTotals(5.0, 10.0);
    PointTotals(5.0, 12.0);
    OneMetric(a);
    OneMetric(b);
    TwoReadings(a, b);
    assert steps[..1] == [PushStep([a])];
    assert !SumFollows([ReadingOf(a)], ReadingOf(b), StaleFirst(steps, "h"));
    assert !SumsFollow(steps, "h");
    HistogramSumLaw(steps, "h");
  }

  // ---------------------------------------------------------------- histogram samples

  predicate Below(a: Sample, b: Sample) {
    a.sum.Some? && b.sum.Some? && a.count < b.count && a.sum.value <= b.sum.value
  }

  /** Every sample counts more than the one before it, and its sum is no smaller. */
  ghost predicate Climbs(samples: seq<Sample>) {
    && (forall i :: 0 <= i < |samples| ==> samples[i].sum.Some?)
    && forall i :: 0 < i < |samples| ==> Below(samples[i - 1], samples[i])
  }

  lemma {:induction false} ClimbsMeans(samples: seq<Sample>, i: nat, j: nat)
    requires Climbs(samples) && i < j < |samples|
    ensures Below(samples[i], samples[j])
    decreases j
  {
    assert Below(samples[j - 1], samples[j]);
    if i < j - 1 {
      ClimbsMeans(samples, i, j - 1);
    }
  }

  lemma {:induction false} ClimbsConcat(a: seq<Sample>, b: seq<Sample>)
    requires Climbs(a) && Climbs(b) && (a == [] || b == [] || Below(a[|a| - 1], b[0]))
    ensures Climbs(a + b)
  {
    var s := a + b;
    forall i | 0 < i < |s| ensures Below(s[i - 1], s[i]) {
      if i < |a| {
        assert s[i - 1] == a[i - 1] && s[i] == a[i];
      } else if i > |a| {
        assert s[i - 1] == b[i - 1 - |a|] && s[i] == b[i - |a|];
      }
    }
  }

  /** Samples that begin with zero, climb, and end with the totals of the series. */
  ghost predicate FromZero(samples: seq<Sample>, state: Option<State>) {
    if state.None? then samples == []
    else
      && samples != [] && Climbs(samples)
      && samples[0].count == 0.0 && samples[0].sum == Some(0.0)
      && samples[|samples| - 1].count == state.value.totalCount
      && samples[|samples| - 1].sum == Some(state.value.totalSum)
  }

  /** More samples, all above the totals so far, that end with the new totals. */
  ghost predicate Continues(more: seq<Sample>, count: real, sum: real, next: State) {
    && Climbs(more)
    && (more == [] ==> next.totalCount == count && next.totalSum == sum)
    && (more != [] ==>
          && count < more[0].count && sum <= more[0].sum.value
          && more[|more| - 1].count == next.totalCount && more[|more| - 1].sum == Some(next.totalSum))
  }

  lemma {:induction false} ContinueFromZero(samples: seq<Sample>, state: State, more: seq<Sample>, next: State)
    requires FromZero(samples, Some(state)) && Continues(more, state.totalCount, state.totalSum, next)
    ensures FromZero(samples + more, Some(next))
  {
    ClimbsConcat(samples, more);
    if more == [] {
      assert samples + more == samples;
    }
  }

  lemma {:induction false} StartFromZero(zero: Sample, more: seq<Sample>, next: State)
    requires zero.count == 0.0 && zero.sum == Some(0.0) && Continues(more, 0.0, 0.0, next)
    ensures FromZero([zero] + more, Some(next))
  {
    ClimbsConcat([zero], more);
    if more == [] {
      assert [zero] + more == [zero];
    }
  }

  lemma {:induction false} TotalsContinue(name: string, at: int, c: real, t: real, added: (real, real), next: State)
    requires added.0 > 0.0 && next.totalCount == c + added.0 && next.totalSum == t + Positive(added.1)
    ensures Continues([Sample(name, Histogram, at, next.totalCount, Some(next.totalSum))], c, t, next)
  {}

  lemma {:induction false} NothingContinues(c: real, t: real, next: State)
    requires next.totalCount == c && next.totalSum == t
    ensures Continues([], c, t, next)
  {}

  lemma {:induction false} HistogramContinues(
      name: string, count: real, sum: real, delta: bool, before: Option<State>, start: nat, at: int, known: bool)
    returns (zero: Sample, more: seq<Sample>)
    ensures zero.count == 0.0 && zero.sum == Some(0.0)
    ensures
      var pushed := PushHistogram(name, count, sum, delta, before, start, at, known);
      && |pushed.states| == 1
      && pushed.samples == (if before.None? then [zero] else []) + more
      && Continues(more, D.CountOf(before), D.SumOf(before), pushed.states[0].1)
  {
    var added := Added(count, sum, delta, before, start, at, known);
    var next := PushHistogram(name, count, sum, delta, before, start, at, known).states[0].1;
    if added.Some? && added.value.0 > 0.0 {
      zero := Sample(name, Histogram, at - 1, 0.0, Some(0.0));
      more := [Sample(name, Histogram, at, next.totalCount, Some(next.totalSum))];
      TotalsContinue(name, at, D.CountOf(before), D.SumOf(before), added.value, next);
    } else {
      zero := Sample(name, Histogram, at, 0.0, Some(0.0));
      more := [];
      NothingContinues(D.CountOf(before), D.SumOf(before), next);
    }
  }

  lemma {:induction false} PushContinues(m: Metric, series: Series) returns (zero: Sample, more: seq<Sample>)
    requires m.shape.HistogramOf? && m.points != []
    ensures StateOf(m, series).Some? && zero.count == 0.0 && zero.sum == Some(0.0)
    ensures PushMetric(m, series).samples == (if At(series, m.name).None? then [zero] else []) + more
    ensures Continues(more, D.CountOf(At(series, m.name)), D.SumOf(At(series, m.name)), StateOf(m, series).value)
  {
    var start := EarliestStart(m.points);
    zero, more := HistogramContinues(
      m.name, Total(m.points), TotalSum(m.points), m.shape.delta, At(series, m.name),
      start, Millis(LatestTime(m.points)), KnownRun(series, start));
  }

  lemma {:induction false} PushFromZero(samples: seq<Sample>, m: Metric, series: Series)
    requires m.shape.HistogramOf? && m.points != [] && FromZero(samples, At(series, m.name))
    ensures StateOf(m, series).Some? && FromZero(samples + PushMetric(m, series).samples, StateOf(m, series))
  {
    var zero, more := PushContinues(m, series);
    if At(series, m.name).None? {
      StartFromZero(zero, more, StateOf(m, series).value);
      assert [] + ([zero] + more) == [zero] + more;
    } else {
      ContinueFromZero(samples, At(series, m.name).value, more, StateOf(m, series).value);
      assert [] + more == more;
    }
  }

  lemma {:induction false} ObservedBounds(name: string, c: real, t: real, obs: seq<D.Observation>, n: nat)
    requires n <= |obs|
    ensures D.ValueOf(obs, n) >= 0.0
    ensures AllWithin(D.Observed(name, c, t, obs, n), c, t, n as real, D.ValueOf(obs, n))
    decreases n
  {
    if n > 0 {
      ObservedBounds(name, c, t, obs, n - 1);
    }
  }

  /** Samples on top of totals `c` and `t`, by no more than `n` and `value`. */
  ghost predicate AllWithin(s: seq<Sample>, c: real, t: real, n: real, value: real) {
    forall i :: 0 <= i < |s| ==> s[i].sum.Some? && c < s[i].count <= c + n && t <= s[i].sum.value <= t + value
  }

  lemma {:induction false} ObservedClimbs(name: string, c: real, t: real, obs: seq<D.Observation>, n: nat)
    requires n <= |obs|
    ensures Climbs(D.Observed(name, c, t, obs, n))
    decreases n
  {
    if n > 0 {
      ObservedClimbs(name, c, t, obs, n - 1);
      var before := D.Observed(name, c, t, obs, n - 1);
      if n < |obs| && obs[n].at == obs[n - 1].at {
        assert before + [] == before;
      } else {
        ObservedBounds(name, c, t, obs, n - 1);
        ClimbsConcat(before, [Sample(name, Histogram, obs[n - 1].at, c + n as real, Some(t + D.ValueOf(obs, n)))]);
      }
    }
  }

  lemma {:induction false} ObserveContinues(name: string, c: real, t: real, obs: seq<D.Observation>, next: State)
    requires obs != [] && next.totalCount == c + |obs| as real && next.totalSum == t + D.ValueOf(obs, |obs|)
    ensures Continues(D.Observed(name, c, t, obs, |obs|), c, t, next)
  {
    ObservedClimbs(name, c, t, obs, |obs|);
    ObservedBounds(name, c, t, obs, |obs|);
    var s := D.Observed(name, c, t, obs, |obs|);
    assert s[|s| - 1].count == c + |obs| as real;
  }

  lemma {:induction false} ObserveFromZero(samples: seq<Sample>, state: Option<State>, name: string, obs: seq<D.Observation>)
    requires FromZero(samples, state) && obs != []
    ensures FromZero(samples + D.AddTo(state, name, obs).samples, Some(D.AddTo(state, name, obs).states[0].1))
  {
    var sorted := SortBy(obs, D.AT);
    SortSorts(obs, D.AT);
    assert |multiset(sorted)| == |multiset(obs)|;
    var c, t := D.CountOf(state), D.SumOf(state);
    var next := D.AddTo(state, name, obs).states[0].1;
    ObserveContinues(name, c, t, sorted, next);
    var more := D.Observed(name, c, t, sorted, |sorted|);
    if state.None? {
      var zero := Sample(name, Histogram, sorted[0].at - 1, 0.0, Some(0.0));
      StartFromZero(zero, more, next);
      assert [] + ([zero] + more) == [zero] + more;
    } else {
      ContinueFromZero(samples, state.value, more, next);
      assert [] + more == more;
    }
  }

  // ---------------------------------------------------------------- what a push adds to a histogram

  /** What a series was told last: nothing, a reading, or the console's own observations. */
  datatype Mark = Unmarked | Marked(reading: Reading) | OwnMark

  function MarkOf(steps: seq<Step>, name: string): Mark {
    if steps == [] then Unmarked
    else
      var before, step := MarkOf(steps[..|steps| - 1], name), steps[|steps| - 1];
      if step.ObserveStep? then (if step.name == name && !before.Marked? then OwnMark else before)
      else if Reported(step, name).Some? then Marked(ReadingOf(Reported(step, name).value))
      else before
  }

  /** The state that goes with a mark. */
  predicate Bears(state: Option<State>, mark: Mark) {
    match mark
    case Unmarked => state.None?
    case OwnMark => state.Some? && state.value.start == Derived
    case Marked(r) => state.Some? && state.value.start == Ns(r.start) && state.value.count == r.count && state.value.sum == r.sum
  }

  /** The series is a histogram wherever it is reported, of totals or of increments. */
  ghost predicate HistogramsStep(step: Step, name: string) {
    forall m :: m in EntriesOf(step, name) ==> m.shape.HistogramOf?
  }

  ghost predicate HistogramsRun(steps: seq<Step>, name: string) {
    forall i :: 0 <= i < |steps| ==> HistogramsStep(steps[i], name)
  }

  lemma {:induction false} OwnStep(series: Series, name: string, obs: seq<D.Observation>)
    requires Unexported(At(series, name))
    ensures
      var out := Outcome(series, ObserveStep(name, obs));
      var added := D.AddTo(At(series, name), name, obs);
      && At(Saved(series, out.states), name) == Some(added.states[0].1)
      && Of(out.samples, name) == added.samples
  {
    ObservedOf(At(series, name), name, obs, name);
    var states := D.AddTo(At(series, name), name, obs).states;
    assert states[..0] == [];
  }

  lemma {:induction false} SkippedStep(series: Series, name: string, obs: seq<D.Observation>)
    requires !Unexported(At(series, name))
    ensures
      var out := Outcome(series, ObserveStep(name, obs));
      At(Saved(series, out.states), name) == At(series, name) && Of(out.samples, name) == []
  {}

  lemma {:induction false} StateBears(m: Metric, series: Series)
    requires m.shape.HistogramOf? && m.points != []
    ensures Bears(StateOf(m, series), Marked(ReadingOf(m)))
  {}

  /** The mark of a run is borne by the state the run leaves. */
  lemma {:induction false} MarkIsBorne(steps: seq<Step>, name: string)
    requires HistogramsRun(steps, name)
    ensures Bears(At(After(steps), name), MarkOf(steps, name))
    decreases |steps|
  {
    if steps != [] {
      var front, step := steps[..|steps| - 1], steps[|steps| - 1];
      assert HistogramsStep(step, name);
      MarkIsBorne(front, name);
      if step.ObserveStep? && step.name == name {
        if Unexported(At(After(front), name)) {
          OwnStep(After(front), name, step.observations);
        } else {
          SkippedStep(After(front), name, step.observations);
        }
      } else {
        StepOnSeries(After(front), step, name);
        if Reported(step, name).Some? {
          StateBears(Reported(step, name).value, After(front));
        }
      }
    }
  }

  /** What a metric adds to a series with this mark: to the count, and to the sum. */
  function AddsTo(m: Metric, mark: Mark, series: Series): Option<(real, real)>
    requires m.points != []
  {
    var r := ReadingOf(m);
    if m.shape == HistogramOf(true) then Some((r.count, r.sum))
    else
      match mark
      case Unmarked => if Unseen(m, series) then None else Some((r.count, r.sum))
      case OwnMark => Some((r.count, r.sum))
      case Marked(last) => if Breaks(last, r) then Some((r.count, r.sum)) else Some((r.count - last.count, r.sum - last.sum))
  }

  predicate Grows(m: Metric, mark: Mark, series: Series)
    requires m.points != []
  {
    var added := AddsTo(m, mark, series);
    added.Some? && added.value.0 > 0.0
  }

  /** What a sample of a push is above the totals before it, and when. */
  datatype Increment = Increment(at: int, count: real, sum: real)

  function IncrementOf(m: Metric, mark: Mark, series: Series): Increment
    requires m.points != [] && Grows(m, mark, series)
  {
    var added := AddsTo(m, mark, series).value;
    Increment(Millis(LatestTime(m.points)), added.0, Positive(added.1))
  }

  /** The metrics that add something. */
  function IncrementsOf(es: seq<Metric>, mark: Mark, series: Series): seq<Increment>
    requires forall m :: m in es ==> m.points != []
  {
    if es == [] then []
    else
      var last := es[|es| - 1];
      assert last in es;
      IncrementsOf(es[..|es| - 1], mark, series)
        + if Grows(last, mark, series) then [IncrementOf(last, mark, series)] else []
  }

  lemma {:induction false} AddsIsAdded(m: Metric, mark: Mark, series: Series)
    requires m.shape.HistogramOf? && m.points != [] && Bears(At(series, m.name), mark)
    ensures
      var start := EarliestStart(m.points);
      Added(Total(m.points), TotalSum(m.points), m.shape.delta, At(series, m.name), start,
        Millis(LatestTime(m.points)), KnownRun(series, start)) == AddsTo(m, mark, series)
  {}

  /** The totals a metric leaves. */
  lemma {:induction false} StateAdds(m: Metric, mark: Mark, series: Series)
    requires m.shape.HistogramOf? && m.points != [] && Bears(At(series, m.name), mark)
    ensures StateOf(m, series).Some?
    ensures
      var c, t, next := D.CountOf(At(series, m.name)), D.SumOf(At(series, m.name)), StateOf(m, series).value;
      if Grows(m, mark, series) then
        next.totalCount == c + IncrementOf(m, mark, series).count && next.totalSum == t + IncrementOf(m, mark, series).sum
      else next.totalCount == c && next.totalSum == t
  {
    AddsIsAdded(m, mark, series);
  }

  // ---------------------------------------------------------------- totals never fall

  function CountAfter(steps: seq<Step>, name: string): real {
    D.CountOf(At(After(steps), name))
  }

  function SumAfter(steps: seq<Step>, name: string): real {
    D.SumOf(At(After(steps), name))
  }

  lemma {:induction false} OwnTotals(state: Option<State>, name: string, obs: seq<D.Observation>)
    ensures
      var next := D.AddTo(state, name, obs).states[0].1;
      D.CountOf(state) <= next.totalCount && D.SumOf(state) <= next.totalSum
  {
    var sorted := SortBy(obs, D.AT);
    ObservedBounds(name, D.CountOf(state), D.SumOf(state), sorted, |sorted|);
  }

  lemma {:induction false} StepNeverFalls(steps: seq<Step>, name: string)
    requires HistogramsRun(steps, name) && steps != []
    ensures
      var front := steps[..|steps| - 1];
      CountAfter(front, name) <= CountAfter(steps, name) && SumAfter(front, name) <= SumAfter(steps, name)
  {
    var front, step := steps[..|steps| - 1], steps[|steps| - 1];
    assert HistogramsStep(step, name);
    MarkIsBorne(front, name);
    if step.ObserveStep? && step.name == name {
      if Unexported(At(After(front), name)) {
        OwnStep(After(front), name, step.observations);
        OwnTotals(At(After(front), name), name, step.observations);
      } else {
        SkippedStep(After(front), name, step.observations);
      }
    } else {
      StepOnSeries(After(front), step, name);
      if Reported(step, name).Some? {
        StateAdds(Reported(step, name).value, MarkOf(front, name), After(front));
      }
    }
  }

  /** Over any run, repeated names included, the stored totals of a histogram never fall. */
  lemma {:induction false} TotalsNeverFall(steps: seq<Step>, name: string, i: nat, j: nat)
    requires HistogramsRun(steps, name) && i <= j <= |steps|
    ensures CountAfter(steps[..i], name) <= CountAfter(steps[..j], name)
    ensures SumAfter(steps[..i], name) <= SumAfter(steps[..j], name)
    decreases j
  {
    if i < j {
      TotalsNeverFall(steps, name, i, j - 1);
      assert steps[..j][..j - 1] == steps[..j - 1];
      StepNeverFalls(steps[..j], name);
    }
  }

  // ---------------------------------------------------------------- when samples climb

  lemma {:induction false} ClimbsSplit(a: seq<Sample>, b: seq<Sample>)
    requires Climbs(a + b)
    ensures Climbs(a) && Climbs(b) && (a == [] || b == [] || Below(a[|a| - 1], b[0]))
  {
    var s := a + b;
    forall i | 0 <= i < |a| ensures a[i].sum.Some? {
      assert s[i] == a[i];
    }
    forall i | 0 <= i < |b| ensures b[i].sum.Some? {
      assert s[|a| + i] == b[i];
    }
    forall i | 0 < i < |a| ensures Below(a[i - 1], a[i]) {
      assert Below(s[i - 1], s[i]);
    }
    forall i | 0 < i < |b| ensures Below(b[i - 1], b[i]) {
      assert Below(s[|a| + i - 1], s[|a| + i]);
    }
    if a != [] && b != [] {
      assert Below(s[|a| - 1], s[|a|]);
    }
  }

  lemma {:induction false} ContinueIff(samples: seq<Sample>, state: State, more: seq<Sample>, next: State)
    requires FromZero(samples, Some(state))
    ensures FromZero(samples + more, Some(next)) <==> Continues(more, state.totalCount, state.totalSum, next)
  {
    if Continues(more, state.totalCount, state.totalSum, next) {
      ContinueFromZero(samples, state, more, next);
    }
    if FromZero(samples + more, Some(next)) {
      ClimbsSplit(samples, more);
      if more == [] {
        assert samples + more == samples;
      } else {
        assert (samples + more)[|samples + more| - 1] == more[|more| - 1];
      }
    }
  }

  /** Samples that stand above totals `c` and `t` by these increments. */
  ghost predicate StandAbove(samples: seq<Sample>, incs: seq<Increment>, c: real, t: real) {
    && |samples| == |incs|
    && forall i :: 0 <= i < |incs| ==> samples[i].count == c + incs[i].count && samples[i].sum == Some(t + incs[i].sum)
  }

  ghost predicate IncrementsClimb(incs: seq<Increment>) {
    forall i :: 0 < i < |incs| ==> incs[i - 1].count < incs[i].count && incs[i - 1].sum <= incs[i].sum
  }

  lemma {:induction false} ClimbTogether(samples: seq<Sample>, incs: seq<Increment>, c: real, t: real)
    requires StandAbove(samples, incs, c, t)
    ensures Climbs(samples) <==> IncrementsClimb(incs)
  {
    if Climbs(samples) {
      forall i | 0 < i < |incs| ensures incs[i - 1].count < incs[i].count && incs[i - 1].sum <= incs[i].sum {
        assert Below(samples[i - 1], samples[i]);
      }
    }
  }

  lemma {:induction false} StandConcat(
      a: seq<Sample>, b: seq<Sample>, incs: seq<Increment>, js: seq<Increment>, c: real, t: real)
    requires StandAbove(a, incs, c, t) && StandAbove(b, js, c, t)
    ensures StandAbove(a + b, incs + js, c, t)
  {}

  lemma {:induction false} MetricStands(m: Metric, mark: Mark, series: Series)
    requires m.shape.HistogramOf? && m.points != [] && Bears(At(series, m.name), mark) && !mark.Unmarked?
    ensures
      var incs := if Grows(m, mark, series) then [IncrementOf(m, mark, series)] else [];
      StandAbove(PushMetric(m, series).samples, incs, D.CountOf(At(series, m.name)), D.SumOf(At(series, m.name)))
  {
    AddsIsAdded(m, mark, series);
    var samples := PushMetric(m, series).samples;
    if Grows(m, mark, series) {
      assert |samples| == 1 && samples[0].count == D.CountOf(At(series, m.name)) + IncrementOf(m, mark, series).count;
    } else {
      assert samples == [];
    }
  }

  lemma {:induction false} EntriesStand(es: seq<Metric>, mark: Mark, series: Series, name: string)
    requires forall m :: m in es ==> m.shape.HistogramOf? && m.points != [] && m.name == name
    requires Bears(At(series, name), mark) && !mark.Unmarked?
    ensures StandAbove(SamplesOf(es, series), IncrementsOf(es, mark, series), D.CountOf(At(series, name)), D.SumOf(At(series, name)))
    decreases |es|
  {
    if es != [] {
      var front, last := es[..|es| - 1], es[|es| - 1];
      assert last in es;
      EntriesStand(front, mark, series, name);
      MetricStands(last, mark, series);
      StandConcat(
        SamplesOf(front, series), PushMetric(last, series).samples, IncrementsOf(front, mark, series),
        if Grows(last, mark, series) then [IncrementOf(last, mark, series)] else [],
        D.CountOf(At(series, name)), D.SumOf(At(series, name)));
    }
  }

  lemma {:induction false} IncrementsArePositive(es: seq<Metric>, mark: Mark, series: Series)
    requires forall m :: m in es ==> m.points != []
    ensures forall i :: i in IncrementsOf(es, mark, series) ==> i.count > 0.0 && i.sum >= 0.0
    decreases |es|
  {
    if es != [] {
      IncrementsArePositive(es[..|es| - 1], mark, series);
    }
  }

  /**
   The metrics of a push keep a histogram climbing: the first push has one, and in a later one those that
   add go up, and the last adds if any does.
   */
  ghost predicate TidyPush(es: seq<Metric>, mark: Mark, series: Series)
    requires forall m :: m in es ==> m.points != []
  {
    if es == [] then true
    else if mark.Unmarked? then |es| == 1
    else
      var incs := IncrementsOf(es, mark, series);
      assert es[|es| - 1] in es;
      IncrementsClimb(incs) && (incs == [] || Grows(es[|es| - 1], mark, series))
  }

  lemma {:induction false} LastIncrement(es: seq<Metric>, mark: Mark, series: Series)
    requires es != [] && forall m :: m in es ==> m.points != []
    requires Grows(es[|es| - 1], mark, series)
    ensures
      var incs := IncrementsOf(es, mark, series);
      incs != [] && incs[|incs| - 1] == IncrementOf(es[|es| - 1], mark, series)
  {}

  /** Increments that climb above totals continue them, when they end with the new totals. */
  lemma {:induction false} StandContinues(samples: seq<Sample>, incs: seq<Increment>, c: real, t: real, next: State, grows: bool)
    requires StandAbove(samples, incs, c, t) && forall i :: i in incs ==> i.count > 0.0 && i.sum >= 0.0
    requires grows ==> incs != [] && next.totalCount == c + incs[|incs| - 1].count && next.totalSum == t + incs[|incs| - 1].sum
    requires !grows ==> next.totalCount == c && next.totalSum == t
    ensures Continues(samples, c, t, next) <==> IncrementsClimb(incs) && (incs == [] || grows)
  {
    ClimbTogether(samples, incs, c, t);
    if incs != [] {
      assert incs[0] in incs && incs[|incs| - 1] in incs;
    }
  }

  lemma {:induction false} LaterPushIff(samples: seq<Sample>, es: seq<Metric>, mark: Mark, series: Series, name: string)
    requires es != [] && forall m :: m in es ==> m.shape.HistogramOf? && m.points != [] && m.name == name
    requires Bears(At(series, name), mark) && !mark.Unmarked? && FromZero(samples, At(series, name))
    ensures FromZero(samples + SamplesOf(es, series), StateOf(es[|es| - 1], series)) <==> TidyPush(es, mark, series)
  {
    var last, before, incs := es[|es| - 1], At(series, name).value, IncrementsOf(es, mark, series);
    assert last in es;
    StateAdds(last, mark, series);
    EntriesStand(es, mark, series, name);
    IncrementsArePositive(es, mark, series);
    if Grows(last, mark, series) {
      LastIncrement(es, mark, series);
    }
    var next := StateOf(last, series).value;
    StandContinues(SamplesOf(es, series), incs, before.totalCount, before.totalSum, next, Grows(last, mark, series));
    ContinueIff(samples, before, SamplesOf(es, series), next);
  }

  lemma {:induction false} OneEntry(es: seq<Metric>, series: Series)
    requires |es| <= 1
    ensures SamplesOf(es, series) == if es == [] then [] else PushMetric(es[0], series).samples
  {
    if es != [] {
      assert es == [] + [es[0]];
      SamplesSnoc([], es[0], series);
    }
  }

  lemma {:induction false} FirstIsZero(m: Metric, series: Series)
    requires m.shape.HistogramOf? && m.points != [] && At(series, m.name).None?
    ensures
      var s := PushMetric(m, series).samples;
      s != [] && s[0].count == 0.0 && s[|s| - 1].count >= 0.0
  {}

  lemma {:induction false} EndsAboveZero(es: seq<Metric>, series: Series, name: string)
    requires es != [] && forall m :: m in es ==> m.shape.HistogramOf? && m.points != [] && m.name == name
    requires At(series, name).None?
    ensures var s := SamplesOf(es, series); s != [] && s[|s| - 1].count >= 0.0
  {
    assert es[|es| - 1] in es;
    FirstIsZero(es[|es| - 1], series);
  }

  /** A second metric in the first push goes back to zero. */
  lemma {:induction false} SecondIsLow(es: seq<Metric>, series: Series, name: string)
    requires |es| > 1 && forall m :: m in es ==> m.shape.HistogramOf? && m.points != [] && m.name == name
    requires At(series, name).None?
    ensures !Climbs(SamplesOf(es, series))
  {
    var front, last := es[..|es| - 1], es[|es| - 1];
    assert last in es;
    EndsAboveZero(front, series, name);
    FirstIsZero(last, series);
    if Climbs(SamplesOf(es, series)) {
      ClimbsSplit(SamplesOf(front, series), PushMetric(last, series).samples);
    }
  }

  lemma {:induction false} FirstPushIff(es: seq<Metric>, series: Series, name: string)
    requires es != [] && forall m :: m in es ==> m.shape.HistogramOf? && m.points != [] && m.name == name
    requires At(series, name).None?
    ensures FromZero([] + SamplesOf(es, series), StateOf(es[|es| - 1], series)) <==> |es| == 1
  {
    var all := SamplesOf(es, series);
    assert [] + all == all && es[|es| - 1] in es;
    OneState(es[|es| - 1], series);
    if |es| == 1 {
      OneEntry(es, series);
      PushFromZero([], es[0], series);
    } else {
      SecondIsLow(es, series, name);
    }
  }

  /** The last step of a run keeps a histogram climbing. */
  ghost predicate TidyStep(steps: seq<Step>, name: string)
    requires steps != []
  {
    var front, step := steps[..|steps| - 1], steps[|steps| - 1];
    var mark := MarkOf(front, name);
    if step.ObserveStep? then step.name == name && mark.Unmarked? ==> step.observations != []
    else TidyPush(EntriesOf(step, name), mark, After(front))
  }

  ghost predicate Tidy(steps: seq<Step>, name: string) {
    steps == [] || (Tidy(steps[..|steps| - 1], name) && TidyStep(steps, name))
  }

  ghost predicate ClimbsFromZero(steps: seq<Step>, name: string) {
    FromZero(Of(Produced(steps), name), At(After(steps), name))
  }

  ghost predicate ClimbsThroughout(steps: seq<Step>, name: string) {
    ClimbsFromZero(steps, name) && (steps == [] || ClimbsThroughout(steps[..|steps| - 1], name))
  }

  lemma {:induction false} EmptyBatch(state: Option<State>, name: string)
    ensures
      var added := D.AddTo(state, name, []);
      added.samples == [] && added.states[0].1.totalCount == D.CountOf(state) && added.states[0].1.totalSum == D.SumOf(state)
  {
    SortSorts<D.Observation>([], D.AT);
    assert |multiset(SortBy<D.Observation>([], D.AT))| == 0;
  }

  lemma {:induction false} OwnIff(samples: seq<Sample>, state: Option<State>, name: string, obs: seq<D.Observation>)
    requires FromZero(samples, state)
    ensures
      var added := D.AddTo(state, name, obs);
      FromZero(samples + added.samples, Some(added.states[0].1)) <==> (state.None? ==> obs != [])
  {
    if obs != [] {
      ObserveFromZero(samples, state, name, obs);
    } else {
      EmptyBatch(state, name);
      assert samples + [] == samples;
    }
  }

  /** The metrics a step holds for a histogram keep it climbing exactly when they are tidy. */
  lemma {:induction false} EntriesIff(samples: seq<Sample>, es: seq<Metric>, mark: Mark, series: Series, name: string)
    requires es != [] && forall m :: m in es ==> m.shape.HistogramOf? && m.points != [] && m.name == name
    requires FromZero(samples, At(series, name)) && Bears(At(series, name), mark)
    ensures FromZero(samples + SamplesOf(es, series), StateOf(es[|es| - 1], series)) <==> TidyPush(es, mark, series)
  {
    if mark.Unmarked? {
      FirstPushIff(es, series, name);
    } else {
      LaterPushIff(samples, es, mark, series, name);
    }
  }

  lemma {:induction false} PushStepIff(samples: seq<Sample>, series: Series, step: Step, mark: Mark, name: string)
    requires HistogramsStep(step, name) && (step.ObserveStep? ==> step.name != name)
    requires FromZero(samples, At(series, name)) && Bears(At(series, name), mark)
    ensures
      var out := Outcome(series, step);
      FromZero(samples + Of(out.samples, name), At(Saved(series, out.states), name)) <==> TidyPush(EntriesOf(step, name), mark, series)
  {
    var es := EntriesOf(step, name);
    StepOnSeries(series, step, name);
    if es == [] {
      assert samples + [] == samples;
    } else {
      EntriesIff(samples, es, mark, series, name);
    }
  }

  /** If the samples climb before a step, they climb after it exactly when the step is tidy. */
  lemma {:induction false} ClimbStepIff(steps: seq<Step>, name: string)
    requires HistogramsRun(steps, name) && steps != [] && ClimbsFromZero(steps[..|steps| - 1], name)
    ensures ClimbsFromZero(steps, name) <==> TidyStep(steps, name)
  {
    var front, step := steps[..|steps| - 1], steps[|steps| - 1];
    var series, samples := After(front), Of(Produced(front), name);
    assert HistogramsStep(step, name);
    MarkIsBorne(front, name);
    OfConcat(Produced(front), Outcome(series, step).samples, name);
    if step.ObserveStep? && step.name == name {
      if Unexported(At(series, name)) {
        OwnStep(series, name, step.observations);
        OwnIff(samples, At(series, name), name, step.observations);
      } else {
        SkippedStep(series, name, step.observations);
        assert samples + [] == samples;
      }
    } else {
      PushStepIff(samples, series, step, MarkOf(front, name), name);
    }
  }

  /**
   The samples of a histogram start from a zero baseline, climb, and end with its totals, after every step,
   exactly when every step incs tidy.
   */
  lemma {:induction false} ClimbsIffTidy(steps: seq<Step>, name: string)
    requires HistogramsRun(steps, name)
    ensures ClimbsThroughout(steps, name) <==> Tidy(steps, name)
    decreases |steps|
  {
    if steps != [] {
      var front := steps[..|steps| - 1];
      ClimbsIffTidy(front, name);
      if ClimbsThroughout(front, name) {
        ClimbStepIff(steps, name);
      }
    }
  }

  lemma {:induction false} HistogramSamplesClimb(steps: seq<Step>, name: string)
    requires HistogramsRun(steps, name) && Tidy(steps, name)
    ensures FromZero(Of(Produced(steps), name), At(After(steps), name))
  {
    ClimbsIffTidy(steps, name);
  }

  /** A first push that names a histogram twice goes back to zero in between. */
  lemma {:induction false} NamedTwiceGoesDown(a: Metric, b: Metric)
    requires a.points != [] && b.points != [] && a.name == b.name && a.shape.HistogramOf? && b.shape.HistogramOf?
    ensures !ClimbsThroughout([PushStep([a, b])], a.name)
  {
    var steps := [PushStep([a, b])];
    TwoMetrics(a, b);
    assert steps[..0] == [];
    assert !TidyStep(steps, a.name);
    ClimbsIffTidy(steps, a.name);
  }

  lemma {:induction false} TwoMetrics(a: Metric, b: Metric)
    requires a.points != [] && b.points != [] && a.name == b.name
    ensures EntriesOf(PushStep([a, b]), a.name) == [a, b]
  {
    OneMetric(a);
    EntriesSnoc([a], b, a.name);
    assert [a, b] == [a] + [b];
  }

  /** So does a later push whose second total is above what came before and not above its first. */
  lemma {:induction false} SmallerLastGoesDown(a: Metric, b: Metric, c: Metric)
    requires a.shape == b.shape == c.shape == HistogramOf(false) && a.name == b.name == c.name
    requires a.points != [] && b.points != [] && c.points != []
    requires EarliestStart(a.points) == EarliestStart(b.points) == EarliestStart(c.points)
    requires Total(a.points) < Total(c.points) <= Total(b.points)
    ensures !ClimbsThroughout([PushStep([a]), PushStep([b, c])], a.name)
  {
    var one, two := [PushStep([a])], [PushStep([a]), PushStep([b, c])];
    OneMetric(a);
    TwoMetrics(b, c);
    assert one[..0] == [] && two[..1] == one;
    var mark := MarkOf(one, a.name);
    assert mark == Marked(ReadingOf(a));
    TwoIncrements(b, c, mark, After(one));
    assert !TidyStep(two, a.name);
    ClimbsIffTidy(two, a.name);
  }

  lemma {:induction false} TwoIncrements(b: Metric, c: Metric, mark: Mark, series: Series)
    requires b.points != [] && c.points != [] && Grows(b, mark, series) && Grows(c, mark, series)
    requires IncrementOf(b, mark, series).count >= IncrementOf(c, mark, series).count
    ensures !IncrementsClimb(IncrementsOf([b, c], mark, series))
  {
    assert [b, c][..1] == [b] && [b][..0] == [];
    assert IncrementsOf([b], mark, series) == [IncrementOf(b, mark, series)];
    var incs := IncrementsOf([b, c], mark, series);
    assert incs == [IncrementOf(b, mark, series), IncrementOf(c, mark, series)];
    assert incs[0].count >= incs[1].count;
  }
}
