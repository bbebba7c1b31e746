/**
 The tables behind the metrics (console/src/lib/metricStore.ts): what a run of pushes leaves stored, what
 pruning deletes, and what the dashboards then add up.
 */
module MetricTable {
  import opened Basics
  import opened Sorting
  import opened MetricSamples
  import opened MetricLaws
  import opened MetricHistory
  import D = DerivedHistogram

  const INSERT_CHUNK: nat := 500

  ghost predicate WellKeyed(table: Table) {
    forall k :: k in table ==> Key(table[k]) == k
  }

  /** The samples of one metric, in the order of their times. */
  ghost predicate ColumnOf(table: Table, metric: string, s: seq<Sample>) {
    && Rising(s)
    && (forall x :: x in s ==> x.metric == metric && Key(x) in table && table[Key(x)] == x)
    && forall k :: k in table && k.0 == metric ==> table[k] in s
  }

  lemma {:induction false} LastSame(a: seq<Sample>, b: seq<Sample>)
    requires Rising(a) && Rising(b) && a != [] && forall x :: x in a <==> x in b
    ensures b != [] && a[|a| - 1] == b[|b| - 1]
  {
    var x := a[|a| - 1];
    assert x in b;
    var y := b[|b| - 1];
    assert y in a;
    var i :| 0 <= i < |a| && a[i] == y;
    var j :| 0 <= j < |b| && b[j] == x;
  }

  lemma {:induction false} EmptyOrNot(s: seq<Sample>)
    ensures s == [] || exists x :: x in s
  {
    if s != [] {
      assert s[0] in s;
    }
  }

  lemma {:induction false} RisingSame(a: seq<Sample>, b: seq<Sample>)
    requires Rising(a) && Rising(b) && forall x :: x in a <==> x in b
    ensures a == b
    decreases |a|
  {
    if a == [] {
      EmptyOrNot(b);
    } else {
      LastSame(a, b);
      var last := a[|a| - 1];
      var p, q := a[..|a| - 1], b[..|b| - 1];
      assert a == p + [last] && b == q + [last];
      RisingFront(a);
      RisingFront(b);
      forall x ensures x in p <==> x in q {
        assert x in a <==> x in b;
      }
      RisingSame(p, q);
    }
  }

  /** A metric has one column. */
  lemma {:induction false} ColumnUnique(table: Table, metric: string, a: seq<Sample>, b: seq<Sample>)
    requires ColumnOf(table, metric, a) && ColumnOf(table, metric, b)
    ensures a == b
  {
    forall x ensures x in a <==> x in b {
      if x in a {
        assert table[Key(x)] in b;
      }
      if x in b {
        assert table[Key(x)] in a;
      }
    }
    RisingSame(a, b);
  }

  // ---------------------------------------------------------------- what a run stores

  lemma {:induction false} InsertWellKeyed(table: Table, samples: seq<Sample>)
    requires WellKeyed(table)
    ensures WellKeyed(InsertAll(table, samples))
    decreases |samples|
  {
    if samples != [] {
      InsertWellKeyed(table, samples[..|samples| - 1]);
    }
  }

  predicate HasTime(s: seq<Sample>, at: int) {
    exists i :: 0 <= i < |s| && s[i].at == at
  }

  /** The first sample of each time. */
  function Kept(s: seq<Sample>): seq<Sample> {
    if s == [] then []
    else
      var before, x := Kept(s[..|s| - 1]), s[|s| - 1];
      if HasTime(before, x.at) then before else before + [x]
  }

  ghost predicate DistinctTimes(s: seq<Sample>) {
    forall i, j :: 0 <= i < j < |s| ==> s[i].at != s[j].at
  }

  lemma {:induction false} KeptDistinct(s: seq<Sample>)
    ensures DistinctTimes(Kept(s))
    decreases |s|
  {
    if s != [] {
      KeptDistinct(s[..|s| - 1]);
    }
  }

  lemma {:induction false} KeptMember(s: seq<Sample>, x: Sample)
    ensures x in Kept(s) ==> x in s
    decreases |s|
  {
    if s != [] {
      KeptMember(s[..|s| - 1], x);
      assert s == s[..|s| - 1] + [s[|s| - 1]];
    }
  }

  lemma {:induction false} HasTimeSnoc(s: seq<Sample>, x: Sample, at: int)
    ensures HasTime(s + [x], at) <==> HasTime(s, at) || x.at == at
  {
    if HasTime(s, at) {
      var i :| 0 <= i < |s| && s[i].at == at;
      assert (s + [x])[i].at == at;
    }
    if x.at == at {
      assert (s + [x])[|s|].at == at;
    }
  }

  /** No time is lost. */
  lemma {:induction false} KeptTimes(s: seq<Sample>, at: int)
    ensures HasTime(Kept(s), at) <==> HasTime(s, at)
    decreases |s|
  {
    if s != [] {
      var front, x := s[..|s| - 1], s[|s| - 1];
      assert s == front + [x];
      KeptTimes(front, at);
      KeptTimes(front, x.at);
      HasTimeSnoc(front, x, at);
      HasTimeSnoc(Kept(front), x, at);
    }
  }

  /** The table holds exactly these samples of a metric. */
  ghost predicate Holds(table: Table, metric: string, s: seq<Sample>) {
    && (forall x :: x in s ==> x.metric == metric && Key(x) in table && table[Key(x)] == x)
    && forall k :: k in table && k.0 == metric ==> table[k] in s
  }

  lemma {:induction false} HoldsSkips(table: Table, metric: string, s: seq<Sample>, x: Sample)
    requires Holds(table, metric, s) && x.metric != metric
    ensures Holds(Insert(table, x), metric, s)
  {}

  lemma {:induction false} HoldsGrows(table: Table, metric: string, s: seq<Sample>, x: Sample)
    requires Holds(table, metric, s) && x.metric == metric && WellKeyed(table)
    ensures Holds(Insert(table, x), metric, if HasTime(s, x.at) then s else s + [x])
  {
    if HasTime(s, x.at) {
      var i :| 0 <= i < |s| && s[i].at == x.at;
      assert s[i] in s && Key(s[i]) == Key(x);
    }
  }

  /** Of every time the table holds the first sample. */
  lemma {:induction false} FirstIsStored(samples: seq<Sample>, metric: string)
    ensures Holds(InsertAll(map[], samples), metric, Kept(Of(samples, metric)))
    decreases |samples|
  {
    if samples != [] {
      var front, x := samples[..|samples| - 1], samples[|samples| - 1];
      InsertWellKeyed(map[], front);
      FirstIsStored(front, metric);
      var s := Of(front, metric);
      if x.metric == metric {
        assert (s + [x])[..|s|] == s;
        HoldsGrows(InsertAll(map[], front), metric, Kept(s), x);
      } else {
        assert s + [] == s;
        HoldsSkips(InsertAll(map[], front), metric, Kept(s), x);
      }
    }
  }

  const TIME := (x: Sample) => x.at

  lemma {:induction false} SumPlace(s: seq<Sample>, x: Sample)
    ensures SumCounts(Place(s, x, TIME)) == SumCounts(s) + x.count
    decreases |s|
  {
    if s == [] || TIME(s[|s| - 1]) <= TIME(x) {
      assert (s + [x])[..|s|] == s;
    } else {
      var front, last := s[..|s| - 1], s[|s| - 1];
      SumPlace(front, x);
      var placed := Place(front, x, TIME);
      assert (placed + [last])[..|placed|] == placed;
    }
  }

  lemma {:induction false} SumSorted(s: seq<Sample>)
    ensures SumCounts(SortBy(s, TIME)) == SumCounts(s)
    decreases |s|
  {
    if s != [] {
      SumSorted(s[..|s| - 1]);
      SumPlace(SortBy(s[..|s| - 1], TIME), s[|s| - 1]);
    }
  }

  lemma {:induction false} SameMembers(s: seq<Sample>, t: seq<Sample>, x: Sample)
    requires multiset(s) == multiset(t)
    ensures x in s <==> x in t
  {
    assert x in multiset(s) <==> x in multiset(t);
  }

  lemma {:induction false} PlaceRises(s: seq<Sample>, x: Sample)
    requires Rising(s) && !HasTime(s, x.at)
    ensures Rising(Place(s, x, TIME))
    decreases |s|
  {
    if s != [] {
      var front, last := s[..|s| - 1], s[|s| - 1];
      RisingFront(s);
      assert s[|s| - 1].at != x.at;
      if last.at < x.at {
        RisingSnoc(s, x);
      } else {
        assert forall i :: 0 <= i < |front| ==> front[i] == s[i];
        PlaceRises(front, x);
        PlaceKeeps(front, x, TIME);
        var placed := Place(front, x, TIME);
        forall e | e in placed ensures e.at < last.at {
          assert e in multiset(placed);
        }
        RisingSnoc(placed, last);
      }
    }
  }

  lemma {:induction false} SortRises(s: seq<Sample>)
    requires DistinctTimes(s)
    ensures Rising(SortBy(s, TIME))
    decreases |s|
  {
    if s != [] {
      var front, x := s[..|s| - 1], s[|s| - 1];
      SortRises(front);
      SortSorts(front, TIME);
      var sorted := SortBy(front, TIME);
      if HasTime(sorted, x.at) {
        var i :| 0 <= i < |sorted| && sorted[i].at == x.at;
        SameMembers(sorted, front, sorted[i]);
      }
      PlaceRises(sorted, x);
    }
  }

  /** A column is what was kept, in the order of the times. */
  lemma {:induction false} ColumnIsKept(samples: seq<Sample>, metric: string, s: seq<Sample>)
    requires ColumnOf(InsertAll(map[], samples), metric, s)
    ensures s == SortBy(Kept(Of(samples, metric)), TIME)
  {
    var kept := Kept(Of(samples, metric));
    FirstIsStored(samples, metric);
    KeptDistinct(Of(samples, metric));
    SortRises(kept);
    SortSorts(kept, TIME);
    forall x ensures x in s <==> x in SortBy(kept, TIME) {
      SameMembers(SortBy(kept, TIME), kept, x);
      if x in s {
        assert InsertAll(map[], samples)[Key(x)] in kept;
      }
      if x in kept {
        assert InsertAll(map[], samples)[Key(x)] in s;
      }
    }
    RisingSame(s, SortBy(kept, TIME));
  }

  /** The table after a run of pushes and observations. */
  function Stored(steps: seq<Step>): Table {
    if steps == [] then map[]
    else
      var front := steps[..|steps| - 1];
      InsertAll(Stored(front), Outcome(After(front), steps[|steps| - 1]).samples)
  }

  lemma {:induction false} InsertConcat(table: Table, a: seq<Sample>, b: seq<Sample>)
    ensures InsertAll(table, a + b) == InsertAll(InsertAll(table, a), b)
    decreases |b|
  {
    if b == [] {
      assert a + b == a;
    } else {
      assert (a + b)[..|a + b| - 1] == a + b[..|b| - 1];
      InsertConcat(table, a, b[..|b| - 1]);
    }
  }

  lemma {:induction false} StoredIsProduced(steps: seq<Step>)
    ensures Stored(steps) == InsertAll(map[], Produced(steps))
    decreases |steps|
  {
    if steps != [] {
      var front := steps[..|steps| - 1];
      StoredIsProduced(front);
      InsertConcat(map[], Produced(front), Outcome(After(front), steps[|steps| - 1]).samples);
    }
  }

  // ---------------------------------------------------------------- from push to dashboard

  lemma {:induction false} CounterKinds(steps: seq<Step>, name: string)
    requires CounterRun(steps, name)
    ensures forall x :: x in Of(Produced(steps), name) ==> x.kind == Counter
    decreases |steps|
  {
    if steps != [] {
      var front, step := steps[..|steps| - 1], steps[|steps| - 1];
      assert CounterStep(step, name);
      CounterKinds(front, name);
      StepOnSeries(After(front), step, name);
      OfConcat(Produced(front), Outcome(After(front), step).samples, name);
      CounterEntries(EntriesOf(step, name), After(front));
    }
  }

  lemma {:induction false} CounterEntries(es: seq<Metric>, series: Series)
    requires forall m :: m in es ==> m.shape == SumOf(true, false)
    ensures forall x :: x in SamplesOf(es, series) ==> x.kind == Counter
    decreases |es|
  {
    if es != [] {
      assert es[|es| - 1] in es;
      CounterEntries(es[..|es| - 1], series);
    }
  }

  predicate GrewAt(gs: seq<Growth>, at: int) {
    exists i :: 0 <= i < |gs| && gs[i].at == at
  }

  /** Of the growths of one time, only the first. */
  function FirstAmounts(gs: seq<Growth>): real {
    if gs == [] then 0.0
    else
      var front, g := gs[..|gs| - 1], gs[|gs| - 1];
      FirstAmounts(front) + if GrewAt(front, g.at) then 0.0 else g.amount
  }

  lemma {:induction false} SumSnoc(s: seq<Sample>, x: Sample)
    ensures SumCounts(s + [x]) == SumCounts(s) + x.count
  {
    assert (s + [x])[..|s|] == s;
  }

  lemma {:induction false} FirstSnoc(s: seq<Sample>, x: Sample)
    ensures FirstAmounts(Told(s + [x])) == FirstAmounts(Told(s)) + if HasTime(s, x.at) then 0.0 else x.count
  {
    assert Told(s + [x])[..|s|] == Told(s);
    TimesTold(s, x.at);
  }

  lemma {:induction false} SumKept(s: seq<Sample>)
    ensures SumCounts(Kept(s)) == FirstAmounts(Told(s))
    decreases |s|
  {
    if s != [] {
      var front, x := s[..|s| - 1], s[|s| - 1];
      SumKept(front);
      KeptTimes(front, x.at);
      assert s == front + [x];
      FirstSnoc(front, x);
      SumSnoc(Kept(front), x);
    }
  }

  lemma {:induction false} TimesTold(s: seq<Sample>, at: int)
    ensures GrewAt(Told(s), at) <==> HasTime(s, at)
  {
    if HasTime(s, at) {
      var i :| 0 <= i < |s| && s[i].at == at;
      assert Told(s)[i].at == at;
    }
    if GrewAt(Told(s), at) {
      var i :| 0 <= i < |s| && Told(s)[i].at == at;
      assert s[i].at == at;
    }
  }

  /** No two growths at one time. */
  ghost predicate ApartInTime(gs: seq<Growth>) {
    forall i, j :: 0 <= i < j < |gs| ==> gs[i].at != gs[j].at
  }

  lemma {:induction false} FirstIsAllIff(gs: seq<Growth>)
    requires forall i :: 0 <= i < |gs| ==> gs[i].amount > 0.0
    ensures FirstAmounts(gs) <= Amounts(gs)
    ensures FirstAmounts(gs) == Amounts(gs) <==> ApartInTime(gs)
    decreases |gs|
  {
    if gs != [] {
      var front, g := gs[..|gs| - 1], gs[|gs| - 1];
      FirstIsAllIff(front);
      if GrewAt(front, g.at) {
        var i :| 0 <= i < |front| && front[i].at == g.at;
        assert gs[i].at == gs[|gs| - 1].at;
      } else {
        forall i | 0 <= i < |front| ensures gs[i].at != g.at {
          assert front[i] == gs[i];
        }
      }
    }
  }

  lemma {:induction false} GrowthsOfGrow(es: seq<Metric>, rs: seq<Reading>, series: Series)
    requires forall m :: m in es ==> m.points != []
    ensures forall g :: g in GrowthsOf(es, rs, series) ==> g.amount > 0.0
    decreases |es|
  {
    if es != [] {
      GrowthsOfGrow(es[..|es| - 1], rs, series);
    }
  }

  lemma {:induction false} GrowthsGrow(steps: seq<Step>, name: string)
    ensures forall g :: g in Growths(steps, name) ==> g.amount > 0.0
    decreases |steps|
  {
    if steps != [] {
      var front := steps[..|steps| - 1];
      GrowthsGrow(front, name);
      GrowthsOfGrow(EntriesOf(steps[|steps| - 1], name), Readings(front, name), After(front));
    }
  }

  lemma {:induction false} CountersShown(steps: seq<Step>, name: string, s: seq<Sample>, from: int, to: int, width: int)
    requires CounterRun(steps, name) && width > 0
    requires ColumnOf(Stored(steps), name, s) && forall x :: x in s ==> from <= x.at <= to
    ensures Totals(HistoryOf(s, from, to, width).counters) == SumCounts(s)
  {
    var samples := Produced(steps);
    StoredIsProduced(steps);
    ColumnIsKept(samples, name, s);
    SortSorts(Kept(Of(samples, name)), TIME);
    CounterKinds(steps, name);
    forall x | x in s ensures x.kind == Counter {
      SameMembers(s, Kept(Of(samples, name)), x);
      KeptMember(Of(samples, name), x);
    }
    SelectAll(s, Within(from, to));
    SelectAll(s, OfKind(Counter));
    MergeConserves(s, width);
  }

  /**
   Over a window that covers it all, and whatever the size of the steps, the dashboards add a counter up
   to its growths, the first of each time. That is what was heard, and what pushes repeat, exactly when no
   two growths have the same time.
   */
  lemma {:induction false} DashboardTotal(
      steps: seq<Step>, name: string, s: seq<Sample>, from: int, to: int, width: int)
    requires CounterRun(steps, name) && width > 0
    requires ColumnOf(Stored(steps), name, s) && forall x :: x in s ==> from <= x.at <= to
    ensures
      var shown := Totals(HistoryOf(s, from, to, width).counters);
      && shown == FirstAmounts(Growths(steps, name))
      && shown <= Heard(steps, name, COUNT) + Repeated(steps, name)
      && (shown == Heard(steps, name, COUNT) + Repeated(steps, name) <==> ApartInTime(Growths(steps, name)))
  {
    var samples := Produced(steps);
    CountersShown(steps, name, s, from, to, width);
    StoredIsProduced(steps);
    ColumnIsKept(samples, name, s);
    SumSorted(Kept(Of(samples, name)));
    SumKept(Of(samples, name));
    CounterSamples(steps, name);
    GrowthsGrow(steps, name);
    FirstIsAllIff(Growths(steps, name));
    GrowthsAddUp(steps, name);
  }

  /** When no push repeats the counter, the dashboards show what was heard exactly when its growths are apart in time. */
  lemma {:induction false} DashboardExactIff(
      steps: seq<Step>, name: string, s: seq<Sample>, from: int, to: int, width: int)
    requires CounterRun(steps, name) && NoneRepeats(steps, name) && width > 0
    requires ColumnOf(Stored(steps), name, s) && forall x :: x in s ==> from <= x.at <= to
    ensures
      var shown := Totals(HistoryOf(s, from, to, width).counters);
      shown == Heard(steps, name, COUNT) <==> ApartInTime(Growths(steps, name))
  {
    DashboardTotal(steps, name, s, from, to, width);
    RepeatedIsNothing(steps, name);
  }

  lemma {:induction false} TwoGrowths(a: Metric, b: Metric)
    requires a.points != [] && b.points != [] && a.name == b.name
    ensures
      var steps := [PushStep([a]), PushStep([b])];
      && Growths(steps, a.name) == GrowthsOf([a], [], map[]) + GrowthsOf([b], [ReadingOf(a)], After([PushStep([a])]))
      && NoneRepeats(steps, a.name)
  {
    var one, two := [PushStep([a])], [PushStep([a]), PushStep([b])];
    OneMetric(a);
    OneMetric(b);
    TwoReadings(a, b);
    assert one[..0] == [] && two[..1] == one;
    assert Growths(one, a.name) == [] + GrowthsOf([a], [], map[]) == GrowthsOf([a], [], map[]);
    assert Earlier(one[0], a.name) == [] && Earlier(two[1], a.name) == [];
    assert NoneRepeats(one, a.name);
  }

  lemma {:induction false} LastOfRun(a: Reading, b: Reading)
    requires !Breaks(a, b)
    ensures RunEnds([a, b], COUNT) == b.count
  {
    assert [a, b][1..] == [b] && [b][1..] == [];
    assert RunEnds([b], COUNT) == b.count;
  }

  lemma {:induction false} FirstSeen(a: Metric, b: Metric)
    requires a.points != [] && b.points != [] && a.name == b.name && Stateful(a) && !Unseen(a, map[])
    ensures !StaleFirst([PushStep([a]), PushStep([b])], a.name)
  {
    var one, two := [PushStep([a])], [PushStep([a]), PushStep([b])];
    OneMetric(a);
    assert one[..0] == [] && two[..1] == one;
    StepOnSeries(map[], one[0], a.name);
    OneState(a, map[]);
    assert a.name in After(one);
    assert !StaleFirst(one, a.name);
  }

  lemma {:induction false} TwoHeard(a: Metric, b: Metric)
    requires a.points != [] && b.points != [] && a.name == b.name && Stateful(a)
    requires !Unseen(a, map[]) && !Breaks(ReadingOf(a), ReadingOf(b))
    ensures Heard([PushStep([a]), PushStep([b])], a.name, COUNT) == Total(b.points)
  {
    TwoReadings(a, b);
    FirstSeen(a, b);
    LastOfRun(ReadingOf(a), ReadingOf(b));
  }

  lemma {:induction false} SecondIsHidden(a: Metric, b: Metric)
    requires a.points != [] && b.points != [] && a.name == b.name && KeyOf(a) == KeyOf(b)
    requires GainOf(a, [], map[]) > 0.0 && GainOf(b, [ReadingOf(a)], After([PushStep([a])])) > 0.0
    ensures FirstAmounts(Growths([PushStep([a]), PushStep([b])], a.name)) == GainOf(a, [], map[])
    ensures NoneRepeats([PushStep([a]), PushStep([b])], a.name)
  {
    TwoGrowths(a, b);
    var first, second := GainOf(a, [], map[]), GainOf(b, [ReadingOf(a)], After([PushStep([a])]));
    OneGrowth(a, [], map[]);
    OneGrowth(b, [ReadingOf(a)], After([PushStep([a])]));
    var at := KeyOf(a).1;
    FirstOfTwo(at, first, second);
  }

  lemma {:induction false} OneGrowth(m: Metric, rs: seq<Reading>, series: Series)
    requires m.points != [] && GainOf(m, rs, series) > 0.0
    ensures GrowthsOf([m], rs, series) == [Growth(Millis(LatestTime(m.points)), GainOf(m, rs, series))]
  {
    assert [m][..0] == [];
  }

  lemma {:induction false} FirstOfTwo(at: int, a: real, b: real)
    ensures FirstAmounts([Growth(at, a)] + [Growth(at, b)]) == a
  {
    var one, two := [Growth(at, a)], [Growth(at, a)] + [Growth(at, b)];
    assert one[..0] == [] && two[..1] == one && one[0].at == at;
    assert !GrewAt([], at) && GrewAt(one, at);
    assert FirstAmounts(one) == FirstAmounts([]) + a;
  }

  // ---------------------------------------------------------------- histograms in the order of their times

  lemma {:induction false} ClimbsFront(s: seq<Sample>)
    requires Climbs(s) && s != []
    ensures Climbs(s[..|s| - 1])
  {
    var front := s[..|s| - 1];
    forall i | 0 < i < |front| ensures Below(front[i - 1], front[i]) {
      assert Below(s[i - 1], s[i]);
    }
  }

  lemma {:induction false} KeptClimbs(s: seq<Sample>, i: nat, j: nat)
    requires Climbs(s) && i < j < |Kept(s)|
    ensures Below(Kept(s)[i], Kept(s)[j])
    decreases |s|
  {
    var front, x := s[..|s| - 1], s[|s| - 1];
    ClimbsFront(s);
    if j < |Kept(front)| {
      KeptClimbs(front, i, j);
    } else {
      KeptMember(front, Kept(front)[i]);
      var k :| 0 <= k < |front| && front[k] == Kept(front)[i];
      ClimbsMeans(s, k, |s| - 1);
    }
  }

  lemma {:induction false} RisingIsSorted(s: seq<Sample>)
    requires Rising(s)
    ensures SortBy(s, TIME) == s
  {
    SortedStays(s, TIME);
  }

  /** In a column that climbs, what was produced later is later. */
  lemma {:induction false} ClimbingOrder(s: seq<Sample>, x: Sample, y: Sample)
    requires Rising(s) && Climbs(s) && x in s && y in s && x.count < y.count
    ensures x.at < y.at
  {
    var i :| 0 <= i < |s| && s[i] == x;
    var j :| 0 <= j < |s| && s[j] == y;
    if j < i {
      ClimbsMeans(s, j, i);
    }
  }

  lemma {:induction false} KeptAllClimbs(s: seq<Sample>)
    requires Climbs(s)
    ensures Climbs(Kept(s))
  {
    forall i | 0 <= i < |Kept(s)| ensures Kept(s)[i].sum.Some? {
      KeptMember(s, Kept(s)[i]);
    }
    forall i | 0 < i < |Kept(s)| ensures Below(Kept(s)[i - 1], Kept(s)[i]) {
      KeptClimbs(s, i - 1, i);
    }
  }

  function Times(s: seq<Sample>): seq<int> {
    seq(|s|, i requires 0 <= i < |s| => s[i].at)
  }

  /** The last time is later than all the others. */
  ghost predicate NewestLast(times: seq<int>) {
    forall i :: 0 <= i < |times| - 1 ==> times[i] < times[|times| - 1]
  }

  lemma {:induction false} NewestIsTop(hs: seq<Sample>, s: seq<Sample>)
    requires hs != [] && NewestLast(Times(hs)) && Rising(s) && forall x :: x in s <==> x in Kept(hs)
    ensures s != [] && s[|s| - 1] == hs[|hs| - 1]
  {
    var front, x := hs[..|hs| - 1], hs[|hs| - 1];
    forall i | 0 <= i < |front| ensures front[i].at < x.at {
      assert Times(hs)[i] < Times(hs)[|hs| - 1];
    }
    KeptTimes(front, x.at);
    assert x in Kept(hs);
    var top := s[|s| - 1];
    KeptMember(hs, top);
    assert top in s;
    var i :| 0 <= i < |s| && s[i] == x;
    var k :| 0 <= k < |hs| && hs[k] == top;
  }

  /** What climbs does not repeat. */
  lemma {:induction false} ClimbsOnce(hs: seq<Sample>, i: nat)
    requires Climbs(hs) && i < |hs| && hs[i].count == hs[|hs| - 1].count
    ensures i == |hs| - 1
  {
    if i < |hs| - 1 {
      ClimbsMeans(hs, i, |hs| - 1);
    }
  }

  lemma {:induction false} LastIsKept(hs: seq<Sample>)
    requires Climbs(hs) && hs != [] && hs[|hs| - 1] in Kept(hs)
    ensures !HasTime(hs[..|hs| - 1], hs[|hs| - 1].at)
  {
    var front, x := hs[..|hs| - 1], hs[|hs| - 1];
    KeptTimes(front, x.at);
    if HasTime(Kept(front), x.at) {
      KeptMember(front, x);
      var k :| 0 <= k < |front| && front[k] == x;
      ClimbsOnce(hs, k);
    }
  }

  lemma {:induction false} TopIsNewest(hs: seq<Sample>, s: seq<Sample>)
    requires hs != [] && Climbs(hs) && Rising(s) && (forall x :: x in s <==> x in Kept(hs))
    requires s != [] && s[|s| - 1].count == hs[|hs| - 1].count
    ensures NewestLast(Times(hs))
  {
    var top, x := s[|s| - 1], hs[|hs| - 1];
    assert top in s;
    KeptMember(hs, top);
    var k :| 0 <= k < |hs| && hs[k] == top;
    ClimbsOnce(hs, k);
    LastIsKept(hs);
    forall i | 0 <= i < |hs| - 1 ensures Times(hs)[i] < Times(hs)[|hs| - 1] {
      var at := hs[i].at;
      assert HasTime(hs, at);
      KeptTimes(hs, at);
      var j :| 0 <= j < |Kept(hs)| && Kept(hs)[j].at == at;
      assert Kept(hs)[j] in s;
      var p :| 0 <= p < |s| && s[p] == Kept(hs)[j];
      assert s[p].at <= top.at;
      assert hs[..|hs| - 1][i].at == at;
    }
  }

  ghost predicate AllHistograms(s: seq<Sample>) {
    forall x :: x in s ==> x.kind == Histogram
  }

  lemma {:induction false} ObservedKinds(state: Option<State>, name: string, obs: seq<D.Observation>)
    ensures AllHistograms(D.AddTo(state, name, obs).samples)
  {
    var sorted := SortBy(obs, D.AT);
    SortSorts(obs, D.AT);
    D.ObservedTells(name, D.CountOf(state), D.SumOf(state), sorted, |sorted|);
  }

  lemma {:induction false} PushKinds(m: Metric, series: Series)
    requires m.shape.HistogramOf?
    ensures AllHistograms(PushMetric(m, series).samples)
  {}

  lemma {:induction false} EntryKinds(es: seq<Metric>, series: Series)
    requires forall m :: m in es ==> m.shape.HistogramOf?
    ensures AllHistograms(SamplesOf(es, series))
    decreases |es|
  {
    if es != [] {
      assert es[|es| - 1] in es;
      EntryKinds(es[..|es| - 1], series);
      PushKinds(es[|es| - 1], series);
    }
  }

  lemma {:induction false} StepKinds(series: Series, step: Step, name: string)
    requires HistogramsStep(step, name)
    ensures AllHistograms(Of(Outcome(series, step).samples, name))
  {
    if step.ObserveStep? && step.name == name {
      if Unexported(At(series, name)) {
        OwnStep(series, name, step.observations);
        ObservedKinds(At(series, name), name, step.observations);
      } else {
        SkippedStep(series, name, step.observations);
      }
    } else {
      StepOnSeries(series, step, name);
      EntryKinds(EntriesOf(step, name), series);
    }
  }

  lemma {:induction false} HistogramKinds(steps: seq<Step>, name: string)
    requires HistogramsRun(steps, name)
    ensures AllHistograms(Of(Produced(steps), name))
    decreases |steps|
  {
    if steps != [] {
      var front, step := steps[..|steps| - 1], steps[|steps| - 1];
      assert HistogramsStep(step, name);
      HistogramKinds(front, name);
      OfConcat(Produced(front), Outcome(After(front), step).samples, name);
      StepKinds(After(front), step, name);
    }
  }

  // ---------------------------------------------------------------- when a histogram is sampled

  /** Each of the times once, when they are sorted. */
  function Once(times: seq<int>): seq<int> {
    if times == [] then []
    else
      var n := |times|;
      if n > 1 && times[n - 2] == times[n - 1] then Once(times[..n - 1]) else Once(times[..n - 1]) + [times[n - 1]]
  }

  function TimesSeen(obs: seq<D.Observation>): seq<int> {
    seq(|obs|, i requires 0 <= i < |obs| => obs[i].at)
  }

  /** A batch of observations: a baseline before the first of a new series, then each time once. */
  function BatchTimes(obs: seq<D.Observation>, mark: Mark): seq<int> {
    var times := TimesSeen(SortBy(obs, D.AT));
    (if mark.Unmarked? && times != [] then [times[0] - 1] else []) + Once(times)
  }

  /** A metric: a baseline before the first value of a new series, and its growth. */
  function SampledAt(m: Metric, mark: Mark, series: Series): seq<int>
    requires m.points != []
  {
    var at := Millis(LatestTime(m.points));
    var grows := Grows(m, mark, series);
    (if mark.Unmarked? then [if grows then at - 1 else at] else []) + (if grows then [at] else [])
  }

  function PushTimes(es: seq<Metric>, mark: Mark, series: Series): seq<int>
    requires forall m :: m in es ==> m.points != []
  {
    if es == [] then []
    else
      assert es[|es| - 1] in es;
      PushTimes(es[..|es| - 1], mark, series) + SampledAt(es[|es| - 1], mark, series)
  }

  function StepTimes(step: Step, name: string, mark: Mark, series: Series): seq<int> {
    match step
    case PushStep(_) => PushTimes(EntriesOf(step, name), mark, series)
    case ObserveStep(n, obs) => if n == name && !mark.Marked? then BatchTimes(obs, mark) else []
  }

  /** The times of a histogram's samples, in the order they are made, as pushes and observations tell them. */
  function HistogramTimes(steps: seq<Step>, name: string): seq<int> {
    if steps == [] then []
    else
      var front := steps[..|steps| - 1];
      HistogramTimes(front, name) + StepTimes(steps[|steps| - 1], name, MarkOf(front, name), After(front))
  }

  lemma {:induction false} TimesConcat(a: seq<Sample>, b: seq<Sample>)
    ensures Times(a + b) == Times(a) + Times(b)
  {}

  lemma {:induction false} OnceSnoc(times: seq<int>, n: nat)
    requires n < |times|
    ensures Once(times[..n + 1])
         == if n > 0 && times[n - 1] == times[n] then Once(times[..n]) else Once(times[..n]) + [times[n]]
  {
    assert times[..n + 1][..n] == times[..n];
  }

  /** The time of an observation whose sample is still to come. */
  function Pending(obs: seq<D.Observation>, n: nat): seq<int>
    requires n <= |obs|
  {
    if 0 < n < |obs| && obs[n].at == obs[n - 1].at then [obs[n - 1].at] else []
  }

  lemma {:induction false} ObservedTimes(name: string, c: real, t: real, obs: seq<D.Observation>, n: nat)
    requires n <= |obs|
    ensures Times(D.Observed(name, c, t, obs, n)) + Pending(obs, n) == Once(TimesSeen(obs)[..n])
    decreases n
  {
    if n > 0 {
      ObservedTimes(name, c, t, obs, n - 1);
      OnceSnoc(TimesSeen(obs), n - 1);
      var before := D.Observed(name, c, t, obs, n - 1);
      if Pending(obs, n) == [] {
        TimesConcat(before, [Sample(name, Histogram, obs[n - 1].at, c + n as real, Some(t + D.ValueOf(obs, n)))]);
      } else {
        assert before + [] == before;
      }
    }
  }

  lemma {:induction false} BatchIsTimed(state: Option<State>, mark: Mark, name: string, obs: seq<D.Observation>)
    requires Bears(state, mark)
    ensures Times(D.AddTo(state, name, obs).samples) == BatchTimes(obs, mark)
  {
    var sorted, c, t := SortBy(obs, D.AT), D.CountOf(state), D.SumOf(state);
    var samples := D.Observed(name, c, t, sorted, |sorted|);
    ObservedTimes(name, c, t, sorted, |sorted|);
    assert TimesSeen(sorted)[..|sorted|] == TimesSeen(sorted);
    var zero := if state.None? && sorted != [] then [Sample(name, Histogram, sorted[0].at - 1, 0.0, Some(0.0))] else [];
    TimesConcat(zero, samples);
  }

  lemma {:induction false} MetricIsTimed(m: Metric, mark: Mark, series: Series)
    requires m.shape.HistogramOf? && m.points != [] && Bears(At(series, m.name), mark)
    ensures Times(PushMetric(m, series).samples) == SampledAt(m, mark, series)
  {
    AddsIsAdded(m, mark, series);
  }

  lemma {:induction false} PushIsTimed(es: seq<Metric>, mark: Mark, series: Series, name: string)
    requires forall m :: m in es ==> m.shape.HistogramOf? && m.points != [] && m.name == name
    requires Bears(At(series, name), mark)
    ensures Times(SamplesOf(es, series)) == PushTimes(es, mark, series)
    decreases |es|
  {
    if es != [] {
      var front, last := es[..|es| - 1], es[|es| - 1];
      assert last in es;
      PushIsTimed(front, mark, series, name);
      MetricIsTimed(last, mark, series);
      TimesConcat(SamplesOf(front, series), PushMetric(last, series).samples);
    }
  }

  lemma {:induction false} StepIsTimed(series: Series, step: Step, name: string, mark: Mark)
    requires HistogramsStep(step, name) && Bears(At(series, name), mark)
    ensures Times(Of(Outcome(series, step).samples, name)) == StepTimes(step, name, mark, series)
  {
    if step.ObserveStep? && step.name == name {
      if Unexported(At(series, name)) {
        OwnStep(series, name, step.observations);
        BatchIsTimed(At(series, name), mark, name, step.observations);
      } else {
        SkippedStep(series, name, step.observations);
      }
    } else {
      StepOnSeries(series, step, name);
      PushIsTimed(EntriesOf(step, name), mark, series, name);
    }
  }

  /** The samples of a histogram, pushed or observed, have exactly these times. */
  lemma {:induction false} ProducedTimes(steps: seq<Step>, name: string)
    requires HistogramsRun(steps, name)
    ensures Times(Of(Produced(steps), name)) == HistogramTimes(steps, name)
    decreases |steps|
  {
    if steps != [] {
      var front, step := steps[..|steps| - 1], steps[|steps| - 1];
      assert HistogramsStep(step, name);
      ProducedTimes(front, name);
      MarkIsBorne(front, name);
      StepIsTimed(After(front), step, name, MarkOf(front, name));
      var out := Outcome(After(front), step).samples;
      OfConcat(Produced(front), out, name);
      TimesConcat(Of(Produced(front), name), Of(out, name));
    }
  }

  // ---------------------------------------------------------------- histograms on the dashboards

  /** Each time at its first place. */
  function FirstPlaces(times: seq<int>): seq<int> {
    if times == [] then []
    else
      var before, t := FirstPlaces(times[..|times| - 1]), times[|times| - 1];
      if t in before then before else before + [t]
  }

  ghost predicate RisingTimes(times: seq<int>) {
    forall i, j :: 0 <= i < j < |times| ==> times[i] < times[j]
  }

  lemma {:induction false} HasTimeIff(s: seq<Sample>, at: int)
    ensures HasTime(s, at) <==> at in Times(s)
  {
    if HasTime(s, at) {
      var i :| 0 <= i < |s| && s[i].at == at;
      assert Times(s)[i] == at;
    }
    if at in Times(s) {
      var i :| 0 <= i < |s| && Times(s)[i] == at;
      assert s[i].at == at;
    }
  }

  lemma {:induction false} KeptAreFirst(s: seq<Sample>)
    ensures Times(Kept(s)) == FirstPlaces(Times(s))
    decreases |s|
  {
    if s != [] {
      var front, x := s[..|s| - 1], s[|s| - 1];
      KeptAreFirst(front);
      assert Times(s)[..|s| - 1] == Times(front);
      HasTimeIff(Kept(front), x.at);
      TimesConcat(Kept(front), [x]);
    }
  }

  lemma {:induction false} RisingIff(s: seq<Sample>)
    ensures Rising(s) <==> RisingTimes(Times(s))
  {
    if RisingTimes(Times(s)) {
      forall i, j | 0 <= i < j < |s| ensures s[i].at < s[j].at {
        assert Times(s)[i] < Times(s)[j];
      }
    }
  }

  /** A column climbs exactly when what is kept was made in the order of its times. */
  lemma {:induction false} SortedClimbsIff(produced: seq<Sample>, s: seq<Sample>)
    requires Climbs(produced) && s == SortBy(Kept(produced), TIME) && Rising(s)
    ensures Climbs(s) <==> Rising(Kept(produced))
  {
    var kept := Kept(produced);
    if Rising(kept) {
      RisingIsSorted(kept);
      KeptAllClimbs(produced);
    }
    if Climbs(s) {
      SortSorts(kept, TIME);
      forall i, j | 0 <= i < j < |kept| ensures kept[i].at < kept[j].at {
        KeptClimbs(produced, i, j);
        SameMembers(s, kept, kept[i]);
        SameMembers(s, kept, kept[j]);
        ClimbingOrder(s, kept[i], kept[j]);
      }
    }
  }

  /** A histogram's column climbs exactly when the times it is sampled at, each at its first place, rise. */
  lemma {:induction false} ColumnClimbsIff(steps: seq<Step>, name: string, s: seq<Sample>)
    requires HistogramsRun(steps, name) && Tidy(steps, name) && ColumnOf(Stored(steps), name, s)
    ensures Climbs(s) <==> RisingTimes(FirstPlaces(HistogramTimes(steps, name)))
  {
    var produced := Of(Produced(steps), name);
    HistogramSamplesClimb(steps, name);
    StoredIsProduced(steps);
    ColumnIsKept(Produced(steps), name, s);
    SortedClimbsIff(produced, s);
    ProducedTimes(steps, name);
    KeptAreFirst(produced);
    RisingIff(Kept(produced));
  }

  const COUNTS := (x: Sample) => x.count
  const SUMS := (x: Sample) => if x.sum.Some? then x.sum.value else 0.0

  lemma {:induction false} HistogramsShown(s: seq<Sample>, from: int, to: int, width: int, f: Sample -> real)
    requires width > 0 && forall x :: x in s ==> from <= x.at <= to && x.kind == Histogram
    ensures
      var h := HistoryOf(s, from, to, width);
      h.baseline.None? && Climbed(h.histograms, 0.0, f) == Top(s, 0.0, f)
  {
    SelectAll(s, Within(from, to));
    SelectAll(s, OfKind(Histogram));
    EndsKeepTop(s, width, 0.0, f);
    ClimbedToTop(Ends(s, width, |s|), 0.0, f);
    var before := Select(s, OldHistogram(from));
    if before != [] {
      SelectMember(s, OldHistogram(from), before[0]);
    }
  }

  lemma {:induction false} TopIff(hs: seq<Sample>, state: Option<State>, s: seq<Sample>)
    requires FromZero(hs, state) && Rising(s) && (forall x :: x in s <==> x in Kept(hs))
    ensures Top(s, 0.0, COUNTS) == D.CountOf(state) <==> NewestLast(Times(hs))
    ensures NewestLast(Times(hs)) ==> Top(s, 0.0, SUMS) == D.SumOf(state)
    ensures Top(s, 0.0, COUNTS) <= D.CountOf(state) && Top(s, 0.0, SUMS) <= D.SumOf(state)
  {
    if hs == [] {
      EmptyOrNot(s);
    } else {
      KeptTimes(hs, hs[0].at);
      assert HasTime(hs, hs[0].at);
      assert Kept(hs)[0] in s;
      TopIsBelow(hs, s[|s| - 1]);
      if NewestLast(Times(hs)) {
        NewestIsTop(hs, s);
      }
      if Top(s, 0.0, COUNTS) == D.CountOf(state) {
        TopIsNewest(hs, s);
      }
    }
  }

  lemma {:induction false} TopIsBelow(hs: seq<Sample>, x: Sample)
    requires hs != [] && Climbs(hs) && x in Kept(hs)
    ensures COUNTS(x) <= COUNTS(hs[|hs| - 1]) && SUMS(x) <= SUMS(hs[|hs| - 1])
  {
    KeptMember(hs, x);
    var k :| 0 <= k < |hs| && hs[k] == x;
    if k < |hs| - 1 {
      ClimbsMeans(hs, k, |hs| - 1);
    }
  }

  /** What the dashboards show of a histogram: all of it, or less. */
  ghost predicate ShowsIff(shown: real, total: real, exact: bool) {
    shown <= total && (shown == total <==> exact)
  }

  lemma {:induction false} ColumnMembers(steps: seq<Step>, name: string, s: seq<Sample>)
    requires ColumnOf(Stored(steps), name, s)
    ensures forall x :: x in s <==> x in Kept(Of(Produced(steps), name))
  {
    var kept := Kept(Of(Produced(steps), name));
    StoredIsProduced(steps);
    ColumnIsKept(Produced(steps), name, s);
    SortSorts(kept, TIME);
    forall x ensures x in s <==> x in kept {
      SameMembers(s, kept, x);
    }
  }

  /**
   Over a window that covers it all, the increases the dashboards show of a histogram add up to its total
   count exactly when the last time it is sampled at is newer than all others; then so do those of the sum.
   They never show more.
   */
  lemma {:induction false} DashboardHistogram(
      steps: seq<Step>, name: string, s: seq<Sample>, from: int, to: int, width: int)
    requires HistogramsRun(steps, name) && Tidy(steps, name) && width > 0
    requires ColumnOf(Stored(steps), name, s) && forall x :: x in s ==> from <= x.at <= to
    ensures
      var h := HistoryOf(s, from, to, width);
      && h.baseline.None?
      && ShowsIff(Climbed(h.histograms, 0.0, COUNTS), CountAfter(steps, name), NewestLast(HistogramTimes(steps, name)))
      && Climbed(h.histograms, 0.0, SUMS) <= SumAfter(steps, name)
      && (NewestLast(HistogramTimes(steps, name)) ==> Climbed(h.histograms, 0.0, SUMS) == SumAfter(steps, name))
  {
    var produced := Of(Produced(steps), name);
    HistogramSamplesClimb(steps, name);
    HistogramKinds(steps, name);
    ColumnMembers(steps, name, s);
    forall x | x in s ensures x.kind == Histogram {
      KeptMember(produced, x);
    }
    HistogramsShown(s, from, to, width, COUNTS);
    HistogramsShown(s, from, to, width, SUMS);
    TopIff(produced, At(After(steps), name), s);
    ProducedTimes(steps, name);
  }

  /** For totals pushed by the server, the same of what was heard. */
  lemma {:induction false} DashboardHeardIff(
      steps: seq<Step>, name: string, s: seq<Sample>, from: int, to: int, width: int)
    requires HistogramRun(steps, name) && HistogramsRun(steps, name) && Tidy(steps, name) && width > 0
    requires ColumnOf(Stored(steps), name, s) && forall x :: x in s ==> from <= x.at <= to
    ensures
      var h := HistoryOf(s, from, to, width);
      && h.baseline.None?
      && ShowsIff(Climbed(h.histograms, 0.0, COUNTS), Heard(steps, name, COUNT), NewestLast(HistogramTimes(steps, name)))
  {
    DashboardHistogram(steps, name, s, from, to, width);
    HistogramLaw(steps, name);
    if Readings(steps, name) == [] {
      NothingHeard(steps, name, COUNT);
    }
  }

  // ---------------------------------------------------------------- a late observation

  /** The one column a run leaves for a metric. */
  function Column(steps: seq<Step>, name: string): seq<Sample> {
    SortBy(Kept(Of(Produced(steps), name)), TIME)
  }

  lemma {:induction false} ColumnIs(steps: seq<Step>, name: string)
    ensures ColumnOf(Stored(steps), name, Column(steps, name))
  {
    var kept := Kept(Of(Produced(steps), name));
    StoredIsProduced(steps);
    FirstIsStored(Produced(steps), name);
    KeptDistinct(Of(Produced(steps), name));
    SortRises(kept);
    SortSorts(kept, TIME);
    forall x ensures x in Column(steps, name) <==> x in kept {
      SameMembers(Column(steps, name), kept, x);
    }
  }

  lemma {:induction false} SingleTime(o: D.Observation, mark: Mark)
    ensures BatchTimes([o], mark) == if mark.Unmarked? then [o.at - 1, o.at] else [o.at]
  {
    SortedStays([o], D.AT);
    OnceOne(o.at);
    assert TimesSeen([o]) == [o.at];
  }

  lemma {:induction false} OnceOne(time: int)
    ensures Once([time]) == [time]
  {
    assert [time][..0] == [];
  }

  lemma {:induction false} SingleTotal(state: Option<State>, name: string, o: D.Observation)
    ensures D.AddTo(state, name, [o]).states[0].1.totalCount == D.CountOf(state) + 1.0
  {
    SortedStays([o], D.AT);
  }

  lemma {:induction false} OneMore(steps: seq<Step>, name: string, o: D.Observation)
    requires HistogramsRun(steps, name) && Tidy(steps, name) && !MarkOf(steps, name).Marked?
    ensures
      var all := steps + [ObserveStep(name, [o])];
      && HistogramsRun(all, name) && Tidy(all, name) && MarkOf(all, name) == OwnMark
      && CountAfter(all, name) == CountAfter(steps, name) + 1.0
      && HistogramTimes(all, name)
         == HistogramTimes(steps, name) + if MarkOf(steps, name).Unmarked? then [o.at - 1, o.at] else [o.at]
  {
    var all := steps + [ObserveStep(name, [o])];
    assert all[..|steps|] == steps;
    MarkIsBorne(steps, name);
    OwnStep(After(steps), name, [o]);
    SingleTotal(At(After(steps), name), name, o);
    SingleTime(o, MarkOf(steps, name));
  }

  lemma {:induction false} TwoObservations(name: string, a: D.Observation, b: D.Observation)
    ensures
      var steps := [ObserveStep(name, [a]), ObserveStep(name, [b])];
      && HistogramsRun(steps, name) && Tidy(steps, name)
      && CountAfter(steps, name) == 2.0 && HistogramTimes(steps, name) == [a.at - 1, a.at, b.at]
  {
    var one := [ObserveStep(name, [a])];
    assert [] + one == one && one + [ObserveStep(name, [b])] == [ObserveStep(name, [a]), ObserveStep(name, [b])];
    OneMore([], name, a);
    OneMore(one, name, b);
  }

  lemma {:induction false} ThreePlaces(x: int, y: int, z: int)
    requires x < y && z < x
    ensures FirstPlaces([x, y, z]) == [x, y, z]
  {
    assert [x, y, z][..2] == [x, y] && [x, y][..1] == [x] && [x][..0] == [];
    assert FirstPlaces([x]) == [x];
    assert FirstPlaces([x, y]) == [x, y];
  }

  /** The first of the two has the total of one. */
  lemma {:induction false} FirstOfLate(name: string, a: D.Observation, b: D.Observation)
    ensures
      var produced := Of(Produced([ObserveStep(name, [a]), ObserveStep(name, [b])]), name);
      |produced| > 1 && produced[1].count == 1.0
  {
    var one, two := [ObserveStep(name, [a])], [ObserveStep(name, [a]), ObserveStep(name, [b])];
    assert [] + one == one && two[..1] == one;
    OneMore([], name, a);
    HistogramSamplesClimb(one, name);
    ProducedTimes(one, name);
    var first := Of(Produced(one), name);
    assert |Times(first)| == 2;
    OfConcat(Produced(one), Outcome(After(one), two[1]).samples, name);
  }

  lemma {:induction false} LateTop(name: string, a: D.Observation, b: D.Observation)
    requires b.at < a.at - 1
    ensures
      var s := Column([ObserveStep(name, [a]), ObserveStep(name, [b])], name);
      s != [] && s[|s| - 1].count == 1.0
  {
    var steps := [ObserveStep(name, [a]), ObserveStep(name, [b])];
    var s, produced := Column(steps, name), Of(Produced(steps), name);
    TwoObservations(name, a, b);
    FirstOfLate(name, a, b);
    ProducedTimes(steps, name);
    ColumnIs(steps, name);
    ColumnMembers(steps, name, s);
    MiddleIsNewest(a.at - 1, a.at, b.at);
    TopAt(produced, s, 1);
  }

  ghost predicate NewestIs(times: seq<int>, k: nat) {
    k < |times| && forall i :: 0 <= i < |times| && i != k ==> times[i] < times[k]
  }

  lemma {:induction false} MiddleIsNewest(x: int, y: int, z: int)
    requires x < y && z < y
    ensures NewestIs([x, y, z], 1)
  {}

  /** The newest sample is the top of the column. */
  lemma {:induction false} TopAt(hs: seq<Sample>, s: seq<Sample>, k: nat)
    requires Rising(s) && (forall x :: x in s <==> x in Kept(hs))
    requires NewestIs(Times(hs), k)
    ensures s != [] && s[|s| - 1] == hs[k]
  {
    assert HasTime(hs, hs[k].at);
    KeptTimes(hs, hs[k].at);
    var i :| 0 <= i < |Kept(hs)| && Kept(hs)[i].at == hs[k].at;
    assert Kept(hs)[i] in s;
    var p :| 0 <= p < |s| && s[p] == Kept(hs)[i];
    var top := s[|s| - 1];
    assert top in s;
    KeptMember(hs, top);
    var q :| 0 <= q < |hs| && hs[q] == top;
    assert top.at >= hs[k].at && Times(hs)[q] == top.at && Times(hs)[k] == hs[k].at;
  }

  /**
   An observation that comes late, from before the first: of two observations the dashboards show one, and
   the column goes down.
   */
  lemma {:induction false} LateObservationIsMissed(
      name: string, a: D.Observation, b: D.Observation, from: int, to: int, width: int)
    requires b.at < a.at - 1 && width > 0
    requires
      var s := Column([ObserveStep(name, [a]), ObserveStep(name, [b])], name);
      forall x :: x in s ==> from <= x.at <= to
    ensures
      var steps := [ObserveStep(name, [a]), ObserveStep(name, [b])];
      var s := Column(steps, name);
      && CountAfter(steps, name) == 2.0 && ColumnOf(Stored(steps), name, s) && !Climbs(s)
      && Climbed(HistoryOf(s, from, to, width).histograms, 0.0, COUNTS) == 1.0
  {
    var steps := [ObserveStep(name, [a]), ObserveStep(name, [b])];
    TwoObservations(name, a, b);
    ColumnIs(steps, name);
    var times := HistogramTimes(steps, name);
    assert times[1] == a.at && times[2] == b.at;
    ThreePlaces(a.at - 1, a.at, b.at);
    ColumnClimbsIff(steps, name, Column(steps, name));
    LateTop(name, a, b);
    HistogramKinds(steps, name);
    ColumnMembers(steps, name, Column(steps, name));
    forall x | x in Column(steps, name) ensures x.kind == Histogram {
      KeptMember(Of(Produced(steps), name), x);
    }
    HistogramsShown(Column(steps, name), from, to, width, COUNTS);
  }

  /** Two pushes in one millisecond, of 5 and then of 7: 7 is heard, and the dashboards show 5. */
  lemma {:induction false} OneMillisecondShowsLess(from: int, to: int, width: int)
    requires width > 0
    requires
      var s := Column([PushStep([CounterAt("c", 5.0)]), PushStep([CounterAt("c", 7.0)])], "c");
      forall x :: x in s ==> from <= x.at <= to
    ensures
      var steps := [PushStep([CounterAt("c", 5.0)]), PushStep([CounterAt("c", 7.0)])];
      && CounterRun(steps, "c") && NoneRepeats(steps, "c") && ColumnOf(Stored(steps), "c", Column(steps, "c"))
      && Heard(steps, "c", COUNT) == 7.0
      && Totals(HistoryOf(Column(steps, "c"), from, to, width).counters) == 5.0
  {
    var a, b := CounterAt("c", 5.0), CounterAt("c", 7.0);
    FiveThenSeven();
    ColumnIs([PushStep([a]), PushStep([b])], "c");
    DashboardTotal([PushStep([a]), PushStep([b])], "c", Column([PushStep([a]), PushStep([b])], "c"), from, to, width);
  }

  lemma {:induction false} FiveThenSeven()
    ensures
      var steps := [PushStep([CounterAt("c", 5.0)]), PushStep([CounterAt("c", 7.0)])];
      && CounterRun(steps, "c") && NoneRepeats(steps, "c")
      && Heard(steps, "c", COUNT) == 7.0 && FirstAmounts(Growths(steps, "c")) == 5.0
  {
    PointTotals(5.0, 0.0);
    PointTotals(7.0, 0.0);
    SameMoment(CounterAt("c", 5.0), CounterAt("c", 7.0));
  }

  /** A counter that is new and then grows within one millisecond: all of it is heard, its first value shown. */
  lemma {:induction false} SameMoment(a: Metric, b: Metric)
    requires a.shape == b.shape == SumOf(true, false) && a.points != [] && b.points != [] && KeyOf(a) == KeyOf(b)
    requires EarliestStart(a.points) == EarliestStart(b.points) && 0.0 < Total(a.points) < Total(b.points)
    requires !Unseen(a, map[])
    ensures
      var steps := [PushStep([a]), PushStep([b])];
      && CounterRun(steps, a.name) && NoneRepeats(steps, a.name)
      && Heard(steps, a.name, COUNT) == Total(b.points) && FirstAmounts(Growths(steps, a.name)) == Total(a.points)
  {
    PairIsCounter(a, b);
    PairGains(a, b, After([PushStep([a])]));
    TwoHeard(a, b);
    SecondIsHidden(a, b);
  }

  lemma {:induction false} PairIsCounter(a: Metric, b: Metric)
    requires a.shape == b.shape == SumOf(true, false) && a.points != [] && b.points != [] && a.name == b.name
    requires Total(a.points) >= 0.0 && Total(b.points) >= 0.0
    ensures CounterRun([PushStep([a]), PushStep([b])], a.name)
  {
    OneMetric(a);
    OneMetric(b);
  }

  lemma {:induction false} PairGains(a: Metric, b: Metric, series: Series)
    requires a.points != [] && b.points != [] && !Unseen(a, map[])
    requires EarliestStart(a.points) == EarliestStart(b.points) && Total(a.points) < Total(b.points)
    ensures GainOf(a, [], map[]) == Total(a.points)
    ensures GainOf(b, [ReadingOf(a)], series) == Total(b.points) - Total(a.points)
    ensures !Breaks(ReadingOf(a), ReadingOf(b))
  {}

  // ---------------------------------------------------------------- pruning

  /** No histogram sample of the metric older than the cutoff is newer than this one. */
  predicate NewestOld(table: Table, metric: string, at: int, cutoff: int) {
    forall k :: k in table && k.0 == metric && table[k].kind == Histogram && table[k].at < cutoff ==> table[k].at <= at
  }

  predicate KeptKey(table: Table, k: (string, int), cutoff: int)
    requires k in table
  {
    table[k].at >= cutoff || (table[k].kind == Histogram && NewestOld(table, k.0, table[k].at, cutoff))
  }

  /** The rows `pruneMetrics` does not delete. */
  function PrunedTable(table: Table, cutoff: int): Table {
    map k | k in table && KeptKey(table, k, cutoff) :: table[k]
  }

  lemma {:induction false} StaysIffKept(table: Table, metric: string, s: seq<Sample>, cutoff: int, x: Sample)
    requires WellKeyed(table) && ColumnOf(table, metric, s) && x in s
    ensures Stays(s, cutoff)(x) <==> KeptKey(table, Key(x), cutoff)
  {
    if x.at < cutoff && x.kind == Histogram {
      LastIsNewest(s, OldHistogram(cutoff), x);
      var newest := Last(Select(s, OldHistogram(cutoff))).value;
      SelectMember(s, OldHistogram(cutoff), newest);
      if x.at == newest.at {
        forall k | k in table && k.0 == metric && table[k].kind == Histogram && table[k].at < cutoff
          ensures table[k].at <= x.at
        {
          LastIsNewest(s, OldHistogram(cutoff), table[k]);
        }
      } else {
        assert table[Key(newest)] == newest;
      }
    }
  }

  lemma {:induction false} PruneColumn(table: Table, metric: string, s: seq<Sample>, cutoff: int)
    requires WellKeyed(table) && ColumnOf(table, metric, s)
    ensures ColumnOf(PrunedTable(table, cutoff), metric, Pruned(s, cutoff))
  {
    var after := PrunedTable(table, cutoff);
    SelectRising(s, Stays(s, cutoff));
    forall x | x in Pruned(s, cutoff) ensures x.metric == metric && Key(x) in after && after[Key(x)] == x {
      SelectMember(s, Stays(s, cutoff), x);
      StaysIffKept(table, metric, s, cutoff, x);
    }
    forall k | k in after && k.0 == metric ensures after[k] in Pruned(s, cutoff) {
      var x := table[k];
      StaysIffKept(table, metric, s, cutoff, x);
      SelectMember(s, Stays(s, cutoff), x);
    }
  }

  /** Pruning the table changes no answer for a window that starts at the cutoff or later. */
  lemma {:induction false} PruneKeepsAnswers(
      table: Table, metric: string, before: seq<Sample>, after: seq<Sample>, cutoff: int, from: int, to: int, width: int)
    requires WellKeyed(table) && cutoff <= from && width > 0
    requires ColumnOf(table, metric, before) && ColumnOf(PrunedTable(table, cutoff), metric, after)
    ensures HistoryOf(after, from, to, width) == HistoryOf(before, from, to, width)
  {
    PruneColumn(table, metric, before, cutoff);
    ColumnUnique(PrunedTable(table, cutoff), metric, after, Pruned(before, cutoff));
    PruneKeepsHistory(before, cutoff, from, to, width);
  }

  /** Every history of a window that starts at the cutoff or later is the same. */
  ghost predicate SameAnswers(before: Table, after: Table, cutoff: int) {
    forall metric: string, a: seq<Sample>, b: seq<Sample>, from: int, to: int, width: int ::
      ColumnOf(before, metric, a) && ColumnOf(after, metric, b) && cutoff <= from && width > 0 ==>
        HistoryOf(b, from, to, width) == HistoryOf(a, from, to, width)
  }

  lemma {:induction false} PruneIsInvisible(table: Table, cutoff: int)
    requires WellKeyed(table)
    ensures SameAnswers(table, PrunedTable(table, cutoff), cutoff)
  {
    forall metric: string, a: seq<Sample>, b: seq<Sample>, from: int, to: int, width: int |
      ColumnOf(table, metric, a) && ColumnOf(PrunedTable(table, cutoff), metric, b) && cutoff <= from && width > 0
      ensures HistoryOf(b, from, to, width) == HistoryOf(a, from, to, width)
    {
      PruneKeepsAnswers(table, metric, a, b, cutoff, from, to, width);
    }
  }

  lemma {:induction false} RemoveOne(table: Table, k: (string, int))
    requires k in table
    ensures |table - {k}| == |table| - 1
  {
    assert (table - {k}).Keys == table.Keys - {k};
  }

  // ---------------------------------------------------------------- the store

  class MetricStore {
    var series: Series
    var table: Table

    constructor ()
      ensures series == map[] && table == map[]
    {
      series, table := map[], map[];
    }

    method InsertSamples(samples: seq<Sample>)
      modifies this`table
      ensures table == InsertAll(old(table), samples)
    {
      var start := 0;
      assert samples[..0] == [];
      while start < |samples|
        invariant 0 <= start <= |samples|
        invariant table == InsertAll(old(table), samples[..start])
      {
        var stop := if start + INSERT_CHUNK < |samples| then start + INSERT_CHUNK else |samples|;
        assert samples[..stop] == samples[..start] + samples[start..stop];
        InsertConcat(old(table), samples[..start], samples[start..stop]);
        InsertChunk(samples[start..stop]);
        start := stop;
      }
      assert samples[..|samples|] == samples;
    }

    method InsertChunk(chunk: seq<Sample>)
      modifies this`table
      ensures table == InsertAll(old(table), chunk)
    {
      assert chunk[..0] == [];
      for i := 0 to |chunk|
        invariant table == InsertAll(old(table), chunk[..i])
      {
        assert chunk[..i + 1][..i] == chunk[..i];
        table := Insert(table, chunk[i]);
      }
      assert chunk[..|chunk|] == chunk;
    }

    method SaveStates(states: seq<(string, State)>)
      modifies this`series
      ensures series == Saved(old(series), states)
    {
      assert states[..0] == [];
      for i := 0 to |states|
        invariant series == Saved(old(series), states[..i])
      {
        assert states[..i + 1][..i] == states[..i];
        series := series[states[i].0 := states[i].1];
      }
      assert states[..|states|] == states;
    }

    /** `recordSamples` of a push: samples against the stored series, then both saved. */
    method RecordPush(ms: seq<Metric>)
      modifies this
      ensures Db(series, table) == Record(old(Db(series, table)), ms)
    {
      var samples, states := SamplesFromPush(ms, series);
      InsertSamples(samples);
      SaveStates(states);
    }

    /** `pruneMetrics`: row by row, each judged against the table as it was. */
    method Prune(cutoff: int) returns (deleted: nat)
      modifies this`table
      ensures table == PrunedTable(old(table), cutoff)
      ensures deleted == |old(table)| - |table|
      ensures WellKeyed(old(table)) ==> SameAnswers(old(table), table, cutoff)
    {
      var rows, keys := table, table.Keys;
      deleted := 0;
      while keys != {}
        invariant keys <= rows.Keys && |table| + deleted == |rows|
        invariant forall k :: k in table <==> k in rows && (k in keys || KeptKey(rows, k, cutoff))
        invariant forall k :: k in table ==> table[k] == rows[k]
      {
        var k :| k in keys;
        keys := keys - {k};
        if !KeptKey(rows, k, cutoff) {
          RemoveOne(table, k);
          table := table - {k};
          deleted := deleted + 1;
        }
      }
      assert table == PrunedTable(rows, cutoff);
      if WellKeyed(rows) {
        PruneIsInvisible(rows, cutoff);
      }
    }
  }
}
