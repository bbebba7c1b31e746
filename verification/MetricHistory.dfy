/**
 The history the dashboards read and the pruning of old samples (console/src/lib/metricStore.ts). The
 query works on the samples of one metric in the order of their times; `at` is unique there.
 */
module MetricHistory {
  import opened Basics
  import opened MetricSamples
  import opened MetricLaws

  // ---------------------------------------------------------------- selections

  function Select(s: seq<Sample>, p: Sample -> bool): seq<Sample> {
    if s == [] then [] else Select(s[..|s| - 1], p) + if p(s[|s| - 1]) then [s[|s| - 1]] else []
  }

  function OfKind(kind: Kind): Sample -> bool {
    (x: Sample) => x.kind == kind
  }

  function Within(from: int, to: int): Sample -> bool {
    (x: Sample) => from <= x.at <= to
  }

  function OldHistogram(before: int): Sample -> bool {
    (x: Sample) => x.kind == Histogram && x.at < before
  }

  ghost predicate Rising(s: seq<Sample>) {
    forall i, j :: 0 <= i < j < |s| ==> s[i].at < s[j].at
  }

  lemma {:induction false} SelectMember(s: seq<Sample>, p: Sample -> bool, x: Sample)
    ensures x in Select(s, p) <==> x in s && p(x)
    decreases |s|
  {
    if s != [] {
      SelectMember(s[..|s| - 1], p, x);
      assert s == s[..|s| - 1] + [s[|s| - 1]];
    }
  }

  lemma {:induction false} SelectAll(s: seq<Sample>, p: Sample -> bool)
    requires forall x :: x in s ==> p(x)
    ensures Select(s, p) == s
    decreases |s|
  {
    if s != [] {
      assert s[|s| - 1] in s;
      SelectAll(s[..|s| - 1], p);
    }
  }

  lemma {:induction false} RisingSnoc(s: seq<Sample>, x: Sample)
    requires Rising(s) && forall e :: e in s ==> e.at < x.at
    ensures Rising(s + [x])
  {}

  lemma {:induction false} RisingFront(s: seq<Sample>)
    requires Rising(s) && s != []
    ensures Rising(s[..|s| - 1]) && forall e :: e in s[..|s| - 1] ==> e.at < s[|s| - 1].at
  {}

  lemma {:induction false} SelectRising(s: seq<Sample>, p: Sample -> bool)
    requires Rising(s)
    ensures Rising(Select(s, p))
    decreases |s|
  {
    if s != [] {
      var front := s[..|s| - 1];
      RisingFront(s);
      SelectRising(front, p);
      forall e | e in Select(front, p) ensures e.at < s[|s| - 1].at {
        SelectMember(front, p, e);
      }
      RisingSnoc(Select(front, p), s[|s| - 1]);
    }
  }

  /** What `p` selects is selected as well after `q`, which leaves all of it. */
  lemma {:induction false} SelectAfter(s: seq<Sample>, p: Sample -> bool, q: Sample -> bool)
    requires forall x :: x in s && p(x) ==> q(x)
    ensures Select(Select(s, q), p) == Select(s, p)
    decreases |s|
  {
    if s != [] {
      var front, last := s[..|s| - 1], s[|s| - 1];
      assert last in s;
      SelectAfter(front, p, q);
      var kept := Select(front, q);
      if q(last) {
        assert (kept + [last])[..|kept|] == kept;
      } else {
        assert kept + [] == kept && Select(front, p) + [] == Select(front, p);
      }
    }
  }

  function Last(s: seq<Sample>): Option<Sample> {
    if s == [] then None else Some(s[|s| - 1])
  }

  /** A last match that survives `q` stays the last match. */
  lemma {:induction false} LastStays(s: seq<Sample>, p: Sample -> bool, q: Sample -> bool)
    requires Last(Select(s, p)).Some? ==> q(Last(Select(s, p)).value)
    ensures Last(Select(Select(s, q), p)) == Last(Select(s, p))
    decreases |s|
  {
    if s != [] {
      var front, last := s[..|s| - 1], s[|s| - 1];
      if p(last) {
        var kept := Select(front, q);
        assert (kept + [last])[..|kept|] == kept;
      } else {
        assert Select(front, p) + [] == Select(front, p);
        LastStays(front, p, q);
        var kept := Select(front, q);
        if q(last) {
          assert (kept + [last])[..|kept|] == kept;
          assert Select(kept, p) + [] == Select(kept, p);
        } else {
          assert kept + [] == kept;
        }
      }
    }
  }

  // ---------------------------------------------------------------- merging into steps

  /** Where the steps are counted from: the first of January 2000. */
  const ORIGIN := 946_684_800_000

  /** `date_bin`: the step a time lies in. */
  function Bin(at: int, width: int): int
    requires width > 0
  {
    (at - ORIGIN) / width
  }

  lemma {:induction false} FloorOrder(p: int, q: int, r: int, s: int, width: int)
    requires 0 <= r < width && 0 <= s < width && q < p
    ensures p * width + r > q * width + s
  {
    var k := p - q - 1;
    assert k * width >= 0;
    assert p * width == (q + 1 + k) * width == q * width + width + k * width;
  }

  lemma {:induction false} FloorGrows(a: int, b: int, width: int)
    requires width > 0 && a <= b
    ensures a / width <= b / width
  {
    var p, q := a / width, b / width;
    assert a == p * width + a % width && b == q * width + b % width;
    if q < p {
      FloorOrder(p, q, a % width, b % width, width);
    }
  }

  lemma {:induction false} BinGrows(a: int, b: int, width: int)
    requires width > 0 && a <= b
    ensures Bin(a, width) <= Bin(b, width)
  {
    FloorGrows(a - ORIGIN, b - ORIGIN, width);
  }

  /** One row of the answer: the newest time of a step, its total and how many samples it merges. */
  datatype Merged = Merged(at: int, total: real, n: nat)

  function Merge(s: seq<Sample>, width: int): seq<Merged>
    requires width > 0
  {
    if s == [] then []
    else
      var before, x := Merge(s[..|s| - 1], width), s[|s| - 1];
      if before != [] && Bin(before[|before| - 1].at, width) == Bin(x.at, width) then
        var last := before[|before| - 1];
        before[..|before| - 1] + [Merged(x.at, last.total + x.count, last.n + 1)]
      else before + [Merged(x.at, x.count, 1)]
  }

  function Totals(ms: seq<Merged>): real {
    if ms == [] then 0.0 else Totals(ms[..|ms| - 1]) + ms[|ms| - 1].total
  }

  /** Merging into steps of any size keeps the sum of a counter. */
  lemma {:induction false} MergeConserves(s: seq<Sample>, width: int)
    requires width > 0
    ensures Totals(Merge(s, width)) == SumCounts(s)
    decreases |s|
  {
    if s != [] {
      var before, x := Merge(s[..|s| - 1], width), s[|s| - 1];
      MergeConserves(s[..|s| - 1], width);
      if before != [] && Bin(before[|before| - 1].at, width) == Bin(x.at, width) {
        var last := before[|before| - 1];
        var row := Merged(x.at, last.total + x.count, last.n + 1);
        assert (before[..|before| - 1] + [row])[..|before| - 1] == before[..|before| - 1];
      } else {
        assert (before + [Merged(x.at, x.count, 1)])[..|before|] == before;
      }
    }
  }

  function BinTotal(s: seq<Sample>, width: int, bin: int): real
    requires width > 0
  {
    if s == [] then 0.0
    else BinTotal(s[..|s| - 1], width, bin) + if Bin(s[|s| - 1].at, width) == bin then s[|s| - 1].count else 0.0
  }

  function BinCount(s: seq<Sample>, width: int, bin: int): nat
    requires width > 0
  {
    if s == [] then 0
    else BinCount(s[..|s| - 1], width, bin) + if Bin(s[|s| - 1].at, width) == bin then 1 else 0
  }

  lemma {:induction false} BinEmpty(s: seq<Sample>, width: int, bin: int)
    requires width > 0 && forall i :: 0 <= i < |s| ==> Bin(s[i].at, width) != bin
    ensures BinTotal(s, width, bin) == 0.0 && BinCount(s, width, bin) == 0
    decreases |s|
  {
    if s != [] {
      BinEmpty(s[..|s| - 1], width, bin);
    }
  }

  /** A row says what the samples of its step say. */
  ghost predicate RowOf(r: Merged, s: seq<Sample>, width: int)
    requires width > 0
  {
    r.total == BinTotal(s, width, Bin(r.at, width)) && r.n == BinCount(s, width, Bin(r.at, width))
  }

  /** One row for each step, in order; the last is the step of the newest sample, and has its time. */
  ghost predicate RowsOf(ms: seq<Merged>, s: seq<Sample>, width: int)
    requires width > 0
  {
    && (forall i :: 0 <= i < |ms| ==> RowOf(ms[i], s, width))
    && (forall i, j :: 0 <= i < j < |ms| ==> Bin(ms[i].at, width) < Bin(ms[j].at, width))
    && (ms == [] <==> s == [])
    && (ms != [] ==> ms[|ms| - 1].at == s[|s| - 1].at)
  }

  lemma {:induction false} RowKept(r: Merged, s: seq<Sample>, x: Sample, width: int)
    requires width > 0 && RowOf(r, s, width) && Bin(r.at, width) != Bin(x.at, width)
    ensures RowOf(r, s + [x], width)
  {
    assert (s + [x])[..|s|] == s;
  }

  lemma {:induction false} RowGrows(r: Merged, s: seq<Sample>, x: Sample, width: int)
    requires width > 0 && RowOf(r, s, width) && Bin(r.at, width) == Bin(x.at, width)
    ensures RowOf(Merged(x.at, r.total + x.count, r.n + 1), s + [x], width)
  {
    assert (s + [x])[..|s|] == s;
  }

  lemma {:induction false} RowStarts(s: seq<Sample>, x: Sample, width: int)
    requires width > 0 && forall i :: 0 <= i < |s| ==> Bin(s[i].at, width) != Bin(x.at, width)
    ensures RowOf(Merged(x.at, x.count, 1), s + [x], width)
  {
    assert (s + [x])[..|s|] == s;
    BinEmpty(s, width, Bin(x.at, width));
  }

  lemma {:induction false} RowsJoin(before: seq<Merged>, s: seq<Sample>, x: Sample, width: int)
    requires width > 0 && RowsOf(before, s, width) && before != []
    requires Bin(before[|before| - 1].at, width) == Bin(x.at, width)
    ensures
      var last := before[|before| - 1];
      RowsOf(before[..|before| - 1] + [Merged(x.at, last.total + x.count, last.n + 1)], s + [x], width)
  {
    var front, last := before[..|before| - 1], before[|before| - 1];
    forall i | 0 <= i < |front| ensures RowOf(front[i], s + [x], width) {
      assert front[i] == before[i];
      RowKept(front[i], s, x, width);
    }
    RowGrows(last, s, x, width);
  }

  lemma {:induction false} RowsExtend(before: seq<Merged>, s: seq<Sample>, x: Sample, width: int)
    requires width > 0 && RowsOf(before, s, width) && Rising(s + [x])
    requires before == [] || Bin(before[|before| - 1].at, width) != Bin(x.at, width)
    ensures RowsOf(before + [Merged(x.at, x.count, 1)], s + [x], width)
  {
    if s != [] {
      assert (s + [x])[|s| - 1].at < (s + [x])[|s|].at;
      BinGrows(s[|s| - 1].at, x.at, width);
    }
    forall i | 0 <= i < |s| ensures Bin(s[i].at, width) < Bin(x.at, width) {
      if i < |s| - 1 {
        assert (s + [x])[i].at < (s + [x])[|s| - 1].at;
      }
      BinGrows(s[i].at, s[|s| - 1].at, width);
    }
    RowStarts(s, x, width);
    forall i | 0 <= i < |before| ensures RowOf(before[i], s + [x], width) && Bin(before[i].at, width) < Bin(x.at, width) {
      RowKept(before[i], s, x, width);
    }
  }

  lemma {:induction false} MergeStep(s: seq<Sample>, x: Sample, width: int)
    requires width > 0 && RowsOf(Merge(s, width), s, width) && Rising(s + [x])
    ensures RowsOf(Merge(s + [x], width), s + [x], width)
  {
    assert (s + [x])[..|s|] == s;
    var before := Merge(s, width);
    if before != [] && Bin(before[|before| - 1].at, width) == Bin(x.at, width) {
      RowsJoin(before, s, x, width);
    } else {
      RowsExtend(before, s, x, width);
    }
  }

  /** Each step with samples has one row, and it adds up, and counts, exactly those. */
  lemma {:induction false} MergeMeans(s: seq<Sample>, width: int)
    requires width > 0 && Rising(s)
    ensures RowsOf(Merge(s, width), s, width)
    decreases |s|
  {
    if s != [] {
      RisingFront(s);
      MergeMeans(s[..|s| - 1], width);
      assert s == s[..|s| - 1] + [s[|s| - 1]];
      MergeStep(s[..|s| - 1], s[|s| - 1], width);
    }
  }

  // ---------------------------------------------------------------- ends of steps

  /** A histogram sample that begins or ends its step. */
  predicate AtEnd(s: seq<Sample>, i: nat, width: int)
    requires width > 0 && i < |s|
  {
    || i == 0 || Bin(s[i - 1].at, width) != Bin(s[i].at, width)
    || i == |s| - 1 || Bin(s[i + 1].at, width) != Bin(s[i].at, width)
  }

  function Ends(s: seq<Sample>, width: int, n: nat): seq<Sample>
    requires width > 0 && n <= |s|
  {
    if n == 0 then [] else Ends(s, width, n - 1) + if AtEnd(s, n - 1, width) then [s[n - 1]] else []
  }

  /** The total at the end of a step: that of the last sample up to it, or of the baseline. */
  function LastBy(s: seq<Sample>, width: int, bin: int, base: real, f: Sample -> real): real
    requires width > 0
  {
    if s == [] then base
    else if Bin(s[|s| - 1].at, width) <= bin then f(s[|s| - 1])
    else LastBy(s[..|s| - 1], width, bin, base, f)
  }

  function Top(s: seq<Sample>, base: real, f: Sample -> real): real {
    if s == [] then base else f(s[|s| - 1])
  }

  /** What the differences between consecutive samples add up to within one step. */
  function Increases(s: seq<Sample>, width: int, bin: int, base: real, f: Sample -> real): real
    requires width > 0
  {
    if s == [] then 0.0
    else
      var front, x := s[..|s| - 1], s[|s| - 1];
      Increases(front, width, bin, base, f) + if Bin(x.at, width) == bin then f(x) - Top(front, base, f) else 0.0
  }

  /** What the differences between consecutive samples add up to in all. */
  function Climbed(s: seq<Sample>, base: real, f: Sample -> real): real {
    if s == [] then 0.0 else Climbed(s[..|s| - 1], base, f) + f(s[|s| - 1]) - Top(s[..|s| - 1], base, f)
  }

  lemma {:induction false} ClimbedToTop(s: seq<Sample>, base: real, f: Sample -> real)
    ensures Climbed(s, base, f) == Top(s, base, f) - base
    decreases |s|
  {
    if s != [] {
      ClimbedToTop(s[..|s| - 1], base, f);
    }
  }

  ghost predicate BinsUpTo(s: seq<Sample>, width: int, bin: int)
    requires width > 0
  {
    forall i :: 0 <= i < |s| ==> Bin(s[i].at, width) <= bin
  }

  lemma {:induction false} RisingBins(s: seq<Sample>, width: int)
    requires width > 0 && Rising(s) && s != []
    ensures BinsUpTo(s[..|s| - 1], width, Bin(s[|s| - 1].at, width))
  {
    forall i | 0 <= i < |s| - 1 ensures Bin(s[i].at, width) <= Bin(s[|s| - 1].at, width) {
      assert s[i].at < s[|s| - 1].at;
      BinGrows(s[i].at, s[|s| - 1].at, width);
    }
  }

  lemma {:induction false} LastIsTop(s: seq<Sample>, width: int, bin: int, base: real, f: Sample -> real)
    requires width > 0 && BinsUpTo(s, width, bin)
    ensures LastBy(s, width, bin, base, f) == Top(s, base, f)
  {}

  /** The differences in a step telescope to the totals at its end and at the end of the step before. */
  lemma {:induction false} IncreasesTelescope(s: seq<Sample>, width: int, bin: int, base: real, f: Sample -> real)
    requires width > 0 && Rising(s)
    ensures Increases(s, width, bin, base, f) == LastBy(s, width, bin, base, f) - LastBy(s, width, bin - 1, base, f)
    decreases |s|
  {
    if s != [] {
      var front, x := s[..|s| - 1], s[|s| - 1];
      RisingFront(s);
      RisingBins(s, width);
      IncreasesTelescope(front, width, bin, base, f);
      var b := Bin(x.at, width);
      if b <= bin {
        LastIsTop(front, width, bin, base, f);
        if b < bin {
          LastIsTop(front, width, bin - 1, base, f);
        }
      }
    }
  }

  /** The samples kept have the same totals at the end of every step. */
  lemma {:induction false} EndsKeepLast(s: seq<Sample>, width: int, n: nat, bin: int, base: real, f: Sample -> real)
    requires width > 0 && n <= |s| && (n == |s| || Bin(s[n].at, width) > bin)
    ensures LastBy(Ends(s, width, n), width, bin, base, f) == LastBy(s[..n], width, bin, base, f)
    decreases n
  {
    if n > 0 {
      assert s[..n][..n - 1] == s[..n - 1];
      var kept := Ends(s, width, n - 1);
      if Bin(s[n - 1].at, width) > bin {
        EndsKeepLast(s, width, n - 1, bin, base, f);
        if AtEnd(s, n - 1, width) {
          assert (kept + [s[n - 1]])[..|kept|] == kept;
        } else {
          assert kept + [] == kept;
        }
      } else {
        assert AtEnd(s, n - 1, width);
      }
    }
  }

  lemma {:induction false} EndsMember(s: seq<Sample>, width: int, n: nat, x: Sample)
    requires width > 0 && n <= |s| && x in Ends(s, width, n)
    ensures x in s[..n]
    decreases n
  {
    if n > 0 {
      assert s[..n] == s[..n - 1] + [s[n - 1]];
      if x != s[n - 1] {
        EndsMember(s, width, n - 1, x);
      }
    }
  }

  lemma {:induction false} EndsRising(s: seq<Sample>, width: int, n: nat)
    requires width > 0 && n <= |s| && Rising(s)
    ensures Rising(Ends(s, width, n))
    decreases n
  {
    if n > 0 {
      EndsRising(s, width, n - 1);
      forall e | e in Ends(s, width, n - 1) ensures e.at < s[n - 1].at {
        EndsMember(s, width, n - 1, e);
      }
      RisingSnoc(Ends(s, width, n - 1), s[n - 1]);
    }
  }

  lemma {:induction false} EndsKeepTop(s: seq<Sample>, width: int, base: real, f: Sample -> real)
    requires width > 0
    ensures Top(Ends(s, width, |s|), base, f) == Top(s, base, f)
  {
    if s != [] {
      assert AtEnd(s, |s| - 1, width);
    }
  }

  /** Dropping all but the ends of each step changes the increase of no step. */
  lemma {:induction false} EndsKeepIncreases(s: seq<Sample>, width: int, bin: int, base: real, f: Sample -> real)
    requires width > 0 && Rising(s)
    ensures Increases(Ends(s, width, |s|), width, bin, base, f) == Increases(s, width, bin, base, f)
  {
    EndsRising(s, width, |s|);
    IncreasesTelescope(s, width, bin, base, f);
    IncreasesTelescope(Ends(s, width, |s|), width, bin, base, f);
    EndsKeepLast(s, width, |s|, bin, base, f);
    EndsKeepLast(s, width, |s|, bin - 1, base, f);
    assert s[..|s|] == s;
  }

  // ---------------------------------------------------------------- the history

  datatype History = History(
    counters: seq<Merged>, gauges: seq<Merged>, histograms: seq<Sample>, baseline: Option<Sample>)

  /** `metricHistory` for one metric. */
  function HistoryOf(s: seq<Sample>, from: int, to: int, width: int): History
    requires width > 0
  {
    var window := Select(s, Within(from, to));
    var histograms := Select(window, OfKind(Histogram));
    History(
      Merge(Select(window, OfKind(Counter)), width), Merge(Select(window, OfKind(Gauge)), width),
      Ends(histograms, width, |histograms|), Last(Select(s, OldHistogram(from))))
  }

  /** What pruning leaves: nothing older than the cutoff but the newest histogram sample of those. */
  function Stays(s: seq<Sample>, cutoff: int): Sample -> bool {
    var newest := Last(Select(s, OldHistogram(cutoff)));
    (x: Sample) => x.at >= cutoff || (x.kind == Histogram && newest.Some? && x.at == newest.value.at)
  }

  function Pruned(s: seq<Sample>, cutoff: int): seq<Sample> {
    Select(s, Stays(s, cutoff))
  }

  lemma {:induction false} LastIsNewest(s: seq<Sample>, p: Sample -> bool, x: Sample)
    requires Rising(s) && x in s && p(x)
    ensures Last(Select(s, p)).Some? && x.at <= Last(Select(s, p)).value.at
  {
    SelectMember(s, p, x);
    SelectRising(s, p);
    var picked := Select(s, p);
    var i :| 0 <= i < |picked| && picked[i] == x;
  }

  lemma {:induction false} BaselineStays(s: seq<Sample>, cutoff: int, from: int)
    requires Rising(s) && cutoff <= from
    ensures
      var baseline := Last(Select(s, OldHistogram(from)));
      baseline.Some? ==> Stays(s, cutoff)(baseline.value)
  {
    var picked := Select(s, OldHistogram(from));
    if picked != [] {
      var x := picked[|picked| - 1];
      SelectMember(s, OldHistogram(from), x);
      if x.at < cutoff {
        LastIsNewest(s, OldHistogram(cutoff), x);
        var newest := Last(Select(s, OldHistogram(cutoff))).value;
        SelectMember(s, OldHistogram(cutoff), newest);
        LastIsNewest(s, OldHistogram(from), newest);
      }
    }
  }

  /** Pruning changes no answer for a window that starts at the cutoff or later, baseline included. */
  lemma {:induction false} PruneKeepsHistory(s: seq<Sample>, cutoff: int, from: int, to: int, width: int)
    requires Rising(s) && cutoff <= from && width > 0
    ensures HistoryOf(Pruned(s, cutoff), from, to, width) == HistoryOf(s, from, to, width)
  {
    SelectAfter(s, Within(from, to), Stays(s, cutoff));
    BaselineStays(s, cutoff, from);
    LastStays(s, OldHistogram(from), Stays(s, cutoff));
  }

  /** Counters are added up without loss, and every step of a histogram keeps its increase. */
  lemma {:induction false} HistoryConserves(s: seq<Sample>, from: int, to: int, width: int, bin: int, f: Sample -> real)
    requires Rising(s) && width > 0
    ensures
      var history := HistoryOf(s, from, to, width);
      var window := Select(s, Within(from, to));
      var base := if history.baseline.Some? then f(history.baseline.value) else 0.0;
      && Totals(history.counters) == SumCounts(Select(window, OfKind(Counter)))
      && RowsOf(history.counters, Select(window, OfKind(Counter)), width)
      && RowsOf(history.gauges, Select(window, OfKind(Gauge)), width)
      && Increases(history.histograms, width, bin, base, f) == Increases(Select(window, OfKind(Histogram)), width, bin, base, f)
  {
    var history := HistoryOf(s, from, to, width);
    var window := Select(s, Within(from, to));
    var base := if history.baseline.Some? then f(history.baseline.value) else 0.0;
    SelectRising(s, Within(from, to));
    SelectRising(window, OfKind(Counter));
    SelectRising(window, OfKind(Gauge));
    SelectRising(window, OfKind(Histogram));
    MergeConserves(Select(window, OfKind(Counter)), width);
    MergeMeans(Select(window, OfKind(Counter)), width);
    MergeMeans(Select(window, OfKind(Gauge)), width);
    EndsKeepIncreases(Select(window, OfKind(Histogram)), width, bin, base, f);
  }
}
