/**
 `addToHistogram` of console/src/lib/metricSamples.ts: running totals over values the console observes
 itself, one sample for each time at which something was observed.
 */
module DerivedHistogram {
  import opened Basics
  import opened Sorting
  import opened MetricSamples

  datatype Observation = Observation(at: int, value: real)

  const AT := (o: Observation) => o.at

  function ValueOf(obs: seq<Observation>, n: nat): real
    requires n <= |obs|
  {
    if n == 0 then 0.0 else ValueOf(obs, n - 1) + Positive(obs[n - 1].value)
  }

  /** The samples of the first `n` observations, on top of totals `c` and `t`. */
  function Observed(name: string, c: real, t: real, obs: seq<Observation>, n: nat): seq<Sample>
    requires n <= |obs|
  {
    if n == 0 then []
    else
      Observed(name, c, t, obs, n - 1)
        + if n < |obs| && obs[n].at == obs[n - 1].at then []
          else [Sample(name, Histogram, obs[n - 1].at, c + n as real, Some(t + ValueOf(obs, n)))]
  }

  function CountOf(state: Option<State>): real {
    if state.Some? then state.value.totalCount else 0.0
  }

  function SumOf(state: Option<State>): real {
    if state.Some? then state.value.totalSum else 0.0
  }

  function AddTo(state: Option<State>, name: string, observations: seq<Observation>): Pushed {
    var obs := SortBy(observations, AT);
    var c, t := CountOf(state), SumOf(state);
    var count, sum := c + |obs| as real, t + ValueOf(obs, |obs|);
    Pushed(
      (if state.None? && obs != [] then [Sample(name, Histogram, obs[0].at - 1, 0.0, Some(0.0))] else [])
        + Observed(name, c, t, obs, |obs|),
      [(name, State(Histogram, Derived, count, sum, count, sum))])
  }

  lemma {:induction false} ObservedSnoc(name: string, c: real, t: real, obs: seq<Observation>, i: nat, first: seq<Sample>)
    requires i < |obs|
    ensures
      var before := first + Observed(name, c, t, obs, i);
      first + Observed(name, c, t, obs, i + 1)
        == if i + 1 < |obs| && obs[i + 1].at == obs[i].at then before
           else before + [Sample(name, Histogram, obs[i].at, c + (i + 1) as real, Some(t + ValueOf(obs, i + 1)))]
  {
    var here := Observed(name, c, t, obs, i);
    assert here + [] == here;
  }

  /** The loop: totals grow with each observation, a sample ends each time. */
  method ObserveAll(name: string, c: real, t: real, obs: seq<Observation>, first: seq<Sample>)
    returns (samples: seq<Sample>, count: real, sum: real)
    ensures samples == first + Observed(name, c, t, obs, |obs|)
    ensures count == c + |obs| as real && sum == t + ValueOf(obs, |obs|)
  {
    samples, count, sum := first, c, t;
    assert first + [] == first;
    for i := 0 to |obs|
      invariant count == c + i as real && sum == t + ValueOf(obs, i)
      invariant samples == first + Observed(name, c, t, obs, i)
    {
      ObservedSnoc(name, c, t, obs, i, first);
      count := count + 1.0;
      sum := sum + Positive(obs[i].value);
      if i + 1 < |obs| && obs[i + 1].at == obs[i].at {
        continue;
      }
      samples := samples + [Sample(name, Histogram, obs[i].at, count, Some(sum))];
    }
  }

  method AddToHistogram(state: Option<State>, name: string, observations: seq<Observation>)
    returns (samples: seq<Sample>, next: State)
    ensures Pushed(samples, [(name, next)]) == AddTo(state, name, observations)
  {
    var obs := Sort(observations, AT);
    samples := if state.None? && obs != [] then [Sample(name, Histogram, obs[0].at - 1, 0.0, Some(0.0))] else [];
    var count, sum;
    samples, count, sum := ObserveAll(name, CountOf(state), SumOf(state), obs, samples);
    next := State(Histogram, Derived, count, sum, count, sum);
  }

  // ---------------------------------------------------------------- what the samples say

  /** How many observations were made by a time, and what they add up to. */
  function CountBy(obs: seq<Observation>, time: int): nat {
    if obs == [] then 0 else CountBy(obs[..|obs| - 1], time) + if obs[|obs| - 1].at <= time then 1 else 0
  }

  function ValueBy(obs: seq<Observation>, time: int): real {
    if obs == [] then 0.0
    else ValueBy(obs[..|obs| - 1], time) + if obs[|obs| - 1].at <= time then Positive(obs[|obs| - 1].value) else 0.0
  }

  lemma {:induction false} ValueOfPrefix(a: seq<Observation>, b: seq<Observation>, n: nat)
    requires n <= |a| <= |b| && b[..|a|] == a
    ensures ValueOf(a, n) == ValueOf(b, n)
    decreases n
  {
    if n > 0 {
      assert a[n - 1] == b[..|a|][n - 1];
      ValueOfPrefix(a, b, n - 1);
    }
  }

  lemma {:induction false} CutAtTime(obs: seq<Observation>, n: nat, time: int)
    requires n <= |obs|
    requires forall i :: 0 <= i < |obs| ==> (obs[i].at <= time <==> i < n)
    ensures CountBy(obs, time) == n && ValueBy(obs, time) == ValueOf(obs, n)
    decreases |obs|
  {
    if obs != [] {
      var front := obs[..|obs| - 1];
      assert obs[|obs| - 1].at <= time <==> |obs| - 1 < n;
      if n == |obs| {
        CutAtTime(front, n - 1, time);
        ValueOfPrefix(front, obs, n - 1);
      } else {
        CutAtTime(front, n, time);
        ValueOfPrefix(front, obs, n);
      }
    }
  }

  /** A sample carries what was observed up to its time. */
  ghost predicate Tells(s: Sample, name: string, c: real, t: real, obs: seq<Observation>) {
    && s.metric == name && s.kind == Histogram
    && s.count == c + CountBy(obs, s.at) as real
    && s.sum == Some(t + ValueBy(obs, s.at))
  }

  lemma {:induction false} SampleTells(name: string, c: real, t: real, obs: seq<Observation>, n: nat)
    requires 0 < n <= |obs| && Sorted(obs, AT) && (n == |obs| || obs[n].at != obs[n - 1].at)
    ensures Tells(Sample(name, Histogram, obs[n - 1].at, c + n as real, Some(t + ValueOf(obs, n))), name, c, t, obs)
  {
    var time := obs[n - 1].at;
    forall i | 0 <= i < |obs| ensures obs[i].at <= time <==> i < n {
      if i < n - 1 {
        assert AT(obs[i]) <= AT(obs[n - 1]);
      } else if i > n {
        assert AT(obs[n]) <= AT(obs[i]) && AT(obs[n - 1]) <= AT(obs[n]);
      } else if i == n {
        assert AT(obs[n - 1]) <= AT(obs[n]);
      }
    }
    CutAtTime(obs, n, time);
  }

  ghost predicate AtRises(samples: seq<Sample>, below: int) {
    && (forall i :: 0 <= i < |samples| ==> samples[i].at <= below)
    && forall i, j :: 0 <= i < j < |samples| ==> samples[i].at < samples[j].at
  }

  /** At most one sample for each time, in order, each with everything observed by then. */
  lemma {:induction false} ObservedTells(name: string, c: real, t: real, obs: seq<Observation>, n: nat)
    requires n <= |obs| && Sorted(obs, AT)
    ensures forall i :: 0 <= i < |Observed(name, c, t, obs, n)| ==> Tells(Observed(name, c, t, obs, n)[i], name, c, t, obs)
    decreases n
  {
    if n > 0 {
      ObservedTells(name, c, t, obs, n - 1);
      if n == |obs| || obs[n].at != obs[n - 1].at {
        SampleTells(name, c, t, obs, n);
      }
    }
  }

  lemma {:induction false} ObservedRises(name: string, c: real, t: real, obs: seq<Observation>, n: nat)
    requires n <= |obs| && Sorted(obs, AT)
    ensures n > 0 ==> AtRises(Observed(name, c, t, obs, n), obs[n - 1].at)
    ensures 0 < n < |obs| && obs[n].at == obs[n - 1].at ==>
      forall i :: 0 <= i < |Observed(name, c, t, obs, n)| ==> Observed(name, c, t, obs, n)[i].at < obs[n].at
    decreases n
  {
    if n > 1 {
      ObservedRises(name, c, t, obs, n - 1);
      assert AT(obs[n - 2]) <= AT(obs[n - 1]);
    }
  }

  /** Every time at which something was observed has its sample. */
  lemma {:induction false} TimeIsSampled(name: string, c: real, t: real, obs: seq<Observation>, i: nat, n: nat)
    requires i < n <= |obs| && Sorted(obs, AT) && (n == |obs| || obs[n].at != obs[i].at)
    ensures exists s :: s in Observed(name, c, t, obs, n) && s.at == obs[i].at
    decreases n
  {
    var here := Observed(name, c, t, obs, n);
    if obs[n - 1].at == obs[i].at {
      assert here[|here| - 1].at == obs[i].at;
    } else {
      TimeIsSampled(name, c, t, obs, i, n - 1);
      var s :| s in Observed(name, c, t, obs, n - 1) && s.at == obs[i].at;
      assert s in here;
    }
  }
}
