/**
 The topological sort of crates/utils/src/topological.rs: Kahn's algorithm over a multigraph, with
 duplicate edges and self-loops allowed.
 */
module Topological {
  import opened Basics

  // ---------------------------------------------------------------- graphs

  type Edge<T> = (T, T)

  function Nodes<T>(es: seq<Edge<T>>): set<T> {
    if es == [] then {} else Nodes(es[..|es| - 1]) + {es[|es| - 1].0, es[|es| - 1].1}
  }

  /** Where the edges from `from` lead, in the order they were inserted. */
  function Targets<T(==)>(es: seq<Edge<T>>, from: T): seq<T> {
    if es == [] then []
    else
      var last := es[|es| - 1];
      Targets(es[..|es| - 1], from) + if last.0 == from then [last.1] else []
  }

  function Occurrences<T(==)>(s: seq<T>, x: T): nat {
    if s == [] then 0 else (if s[0] == x then 1 else 0) + Occurrences(s[1..], x)
  }

  /** How many edges into `to` come from nodes outside `gone`. */
  function Pending<T(==)>(es: seq<Edge<T>>, gone: seq<T>, to: T): nat {
    if es == [] then 0
    else
      var last := es[|es| - 1];
      Pending(es[..|es| - 1], gone, to) + if last.1 == to && last.0 !in gone then 1 else 0
  }

  ghost predicate NoDup<T>(s: seq<T>) {
    forall i, j :: 0 <= i < j < |s| ==> s[i] != s[j]
  }

  /** No node stands before one of its predecessors. */
  ghost predicate Ordered<T>(es: seq<Edge<T>>, order: seq<T>) {
    forall j, k :: 0 <= j < |order| && 0 <= k < |es| && es[k].1 == order[j] ==> es[k].0 in order[..j]
  }

  ghost predicate IsWalk<T>(es: seq<Edge<T>>, w: seq<T>) {
    w != [] && forall i :: 0 <= i < |w| - 1 ==> (w[i], w[i + 1]) in es
  }

  ghost predicate IsCycle<T>(es: seq<Edge<T>>, w: seq<T>) {
    |w| >= 2 && IsWalk(es, w) && w[0] == w[|w| - 1]
  }

  ghost predicate Acyclic<T(!new)>(es: seq<Edge<T>>) {
    !exists w :: IsCycle(es, w)
  }

  /** A walk to `n` that comes past some node twice: `n` can be reached from a cycle. */
  ghost predicate LoopsTo<T>(es: seq<Edge<T>>, w: seq<T>, i: nat, j: nat, n: T) {
    IsWalk(es, w) && w[|w| - 1] == n && i < j < |w| && w[i] == w[j]
  }

  ghost predicate BehindCycle<T(!new)>(es: seq<Edge<T>>, n: T) {
    exists w, i: nat, j: nat :: LoopsTo(es, w, i, j, n)
  }

  // ---------------------------------------------------------------- counting

  lemma {:induction false} NodesOf<T>(es: seq<Edge<T>>, k: nat)
    requires k < |es|
    ensures es[k].0 in Nodes(es) && es[k].1 in Nodes(es)
  {
    if k < |es| - 1 {
      NodesOf(es[..|es| - 1], k);
    }
  }

  lemma {:induction false} NodeHasEdge<T>(es: seq<Edge<T>>, n: T) returns (k: nat)
    requires n in Nodes(es)
    ensures k < |es| && (es[k].0 == n || es[k].1 == n)
  {
    var last := |es| - 1;
    if es[last].0 == n || es[last].1 == n {
      k := last;
    } else {
      k := NodeHasEdge(es[..last], n);
    }
  }

  lemma {:induction false} OccurrencesAppend<T>(s: seq<T>, t: seq<T>, x: T)
    ensures Occurrences(s + t, x) == Occurrences(s, x) + Occurrences(t, x)
  {
    if s == [] {
      assert s + t == t;
    } else {
      assert (s + t)[1..] == s[1..] + t;
      OccurrencesAppend(s[1..], t, x);
    }
  }

  lemma {:induction false} OccursIn<T>(s: seq<T>, x: T)
    ensures x in s <==> Occurrences(s, x) > 0
  {
    if s != [] {
      OccursIn(s[1..], x);
    }
  }

  lemma {:induction false} TargetsAreNodes<T>(es: seq<Edge<T>>, from: T, x: T)
    requires x in Targets(es, from)
    ensures x in Nodes(es)
  {
    if es != [] && x in Targets(es[..|es| - 1], from) {
      TargetsAreNodes(es[..|es| - 1], from, x);
    }
  }

  /** When a node goes, exactly its edges stop pending. */
  lemma {:induction false} PendingWithout<T>(es: seq<Edge<T>>, gone: seq<T>, v: T, to: T)
    requires v !in gone
    ensures Pending(es, gone, to) == Pending(es, gone + [v], to) + Occurrences(Targets(es, v), to)
  {
    if es != [] {
      var last := es[|es| - 1];
      PendingWithout(es[..|es| - 1], gone, v, to);
      OccurrencesAppend(Targets(es[..|es| - 1], v), if last.0 == v then [last.1] else [], to);
    }
  }

  lemma {:induction false} PendingZero<T>(es: seq<Edge<T>>, gone: seq<T>, to: T, k: nat)
    requires Pending(es, gone, to) == 0 && k < |es| && es[k].1 == to
    ensures es[k].0 in gone
  {
    if k < |es| - 1 {
      PendingZero(es[..|es| - 1], gone, to, k);
    }
  }

  lemma {:induction false} PendingFrom<T>(es: seq<Edge<T>>, gone: seq<T>, to: T) returns (k: nat)
    requires Pending(es, gone, to) > 0
    ensures k < |es| && es[k].1 == to && es[k].0 !in gone
  {
    var last := |es| - 1;
    if es[last].1 == to && es[last].0 !in gone {
      k := last;
    } else {
      k := PendingFrom(es[..last], gone, to);
    }
  }

  // ---------------------------------------------------------------- cycles

  lemma {:induction false} Repeats<T>(w: seq<T>, s: set<T>) returns (i: nat, j: nat)
    requires (forall k :: 0 <= k < |w| ==> w[k] in s) && |w| > |s|
    ensures i < j < |w| && w[i] == w[j]
    decreases |w|
  {
    var x := w[0];
    if k :| 0 < k < |w| && w[k] == x {
      return 0, k;
    }
    forall k | 0 <= k < |w[1..]| ensures w[1..][k] in s - {x} {
      assert w[1..][k] == w[k + 1];
    }
    i, j := Repeats(w[1..], s - {x});
    i, j := i + 1, j + 1;
  }

  /** Every node left over has a predecessor that is left over too. */
  ghost predicate Stuck<T(!new)>(es: seq<Edge<T>>, left: set<T>) {
    forall n {:trigger EdgeWithin(es, left, n)} :: n in left ==> EdgeWithin(es, left, n)
  }

  ghost predicate EdgeWithin<T>(es: seq<Edge<T>>, left: set<T>, n: T) {
    exists k :: 0 <= k < |es| && es[k].1 == n && es[k].0 in left
  }

  lemma {:induction false} WalkPrepend<T>(es: seq<Edge<T>>, k: nat, w: seq<T>)
    requires k < |es| && IsWalk(es, w) && es[k].1 == w[0]
    ensures IsWalk(es, [es[k].0] + w)
  {
    var longer := [es[k].0] + w;
    forall i | 0 <= i < |longer| - 1 ensures (longer[i], longer[i + 1]) in es {
      if i > 0 {
        assert longer[i] == w[i - 1] && longer[i + 1] == w[i];
        assert (w[i - 1], w[i - 1 + 1]) in es;
      } else {
        assert es[k] == (longer[0], longer[1]);
      }
    }
  }

  lemma {:induction false} WalkSlice<T>(es: seq<Edge<T>>, w: seq<T>, i: nat, j: nat)
    requires IsWalk(es, w) && i < j <= |w|
    ensures IsWalk(es, w[i..j])
  {
    forall k | 0 <= k < |w[i..j]| - 1 ensures (w[i..j][k], w[i..j][k + 1]) in es {
      assert (w[i + k], w[i + k + 1]) in es;
    }
  }

  /** A walk to `n` of any length, inside what is left. */
  lemma {:induction false} WalkBack<T(!new)>(es: seq<Edge<T>>, left: set<T>, n: T, len: nat) returns (w: seq<T>)
    requires Stuck(es, left) && n in left && len > 0
    ensures |w| == len && IsWalk(es, w) && w[|w| - 1] == n
    ensures forall k :: 0 <= k < |w| ==> w[k] in left
    decreases len
  {
    if len == 1 {
      return [n];
    }
    var tail := WalkBack(es, left, n, len - 1);
    assert EdgeWithin(es, left, tail[0]);
    var k :| 0 <= k < |es| && es[k].1 == tail[0] && es[k].0 in left;
    w := [es[k].0] + tail;
    WalkPrepend(es, k, tail);
  }

  lemma {:induction false} StuckIsBehindCycle<T(!new)>(es: seq<Edge<T>>, left: set<T>, n: T)
    requires Stuck(es, left) && n in left
    ensures BehindCycle(es, n)
  {
    var w := WalkBack(es, left, n, |left| + 1);
    var i, j := Repeats(w, left);
    assert LoopsTo(es, w, i, j, n);
  }

  /** Along a walk that ends in an ordered list, positions in the list go up. */
  lemma {:induction false} WalkAscends<T>(es: seq<Edge<T>>, order: seq<T>, w: seq<T>, at: nat) returns (first: nat)
    requires Ordered(es, order) && IsWalk(es, w) && at < |order| && order[at] == w[|w| - 1]
    ensures first < |order| && order[first] == w[0] && (|w| > 1 ==> first < at) && first <= at
    decreases |w|
  {
    if |w| == 1 {
      return at;
    }
    var n := |w| - 2;
    assert (w[n], w[n + 1]) in es;
    var k :| 0 <= k < |es| && es[k] == (w[n], w[n + 1]);
    assert w[n] in order[..at];
    var p :| 0 <= p < at && order[p] == w[n];
    var front := w[0..n + 1];
    WalkSlice(es, w, 0, n + 1);
    first := WalkAscends(es, order, front, p);
  }

  lemma {:induction false} OrderedIsNotBehindCycle<T(!new)>(es: seq<Edge<T>>, order: seq<T>, n: T)
    requires NoDup(order) && Ordered(es, order) && n in order
    ensures !BehindCycle(es, n)
  {
    if w, i: nat, j: nat :| LoopsTo(es, w, i, j, n) {
      var at :| 0 <= at < |order| && order[at] == n;
      var back := w[j..|w|];
      WalkSlice(es, w, j, |w|);
      var mid := WalkAscends(es, order, back, at);
      WalkSlice(es, w, i, j + 1);
      var first := WalkAscends(es, order, w[i..j + 1], mid);
    }
  }

  lemma {:induction false} CycleIsBehindItself<T(!new)>(es: seq<Edge<T>>, w: seq<T>)
    requires IsCycle(es, w)
    ensures BehindCycle(es, w[0]) && w[0] in Nodes(es)
  {
    assert LoopsTo(es, w, 0, |w| - 1, w[0]);
    assert (w[0], w[1]) in es;
    var k :| 0 <= k < |es| && es[k] == (w[0], w[1]);
    NodesOf(es, k);
  }

  lemma {:induction false} BehindCycleHasCycle<T(!new)>(es: seq<Edge<T>>, n: T)
    requires BehindCycle(es, n)
    ensures !Acyclic(es)
  {
    var w, i: nat, j: nat :| LoopsTo(es, w, i, j, n);
    WalkSlice(es, w, i, j + 1);
    assert IsCycle(es, w[i..j + 1]);
  }

  /** Kahn's theorem: when an ordered list cannot be continued, it holds exactly the nodes that no cycle
      leads to, and nothing is left over exactly when there is no cycle. */
  lemma {:induction false} Exhausted<T(!new)>(es: seq<Edge<T>>, order: seq<T>, left: set<T>)
    requires NoDup(order) && Ordered(es, order) && Stuck(es, left)
    requires forall n :: n in Nodes(es) <==> n in order || n in left
    ensures forall n :: n in Nodes(es) ==> (n in order <==> !BehindCycle(es, n))
    ensures left == {} <==> Acyclic(es)
  {
    forall n | n in Nodes(es) ensures n in order <==> !BehindCycle(es, n) {
      if n in order {
        OrderedIsNotBehindCycle(es, order, n);
      } else {
        StuckIsBehindCycle(es, left, n);
      }
    }
    if w :| IsCycle(es, w) {
      CycleIsBehindItself(es, w);
    }
    if n :| n in left {
      StuckIsBehindCycle(es, left, n);
      BehindCycleHasCycle(es, n);
    }
  }

  // ---------------------------------------------------------------- the sort

  /** The adjacency lists of `es`. */
  ghost predicate Adjacent<T(!new)>(edges: map<T, seq<T>>, es: seq<Edge<T>>) {
    forall n :: Targets(es, n) == if n in edges then edges[n] else []
  }

  lemma {:induction false} TargetsSnoc<T>(es: seq<Edge<T>>, from: T, to: T, n: T)
    ensures Targets(es + [(from, to)], n) == Targets(es, n) + (if n == from then [to] else [])
  {
    assert (es + [(from, to)])[..|es|] == es;
  }

  lemma {:induction false} InsertAdjacent<T(!new)>(es: seq<Edge<T>>, edges: map<T, seq<T>>, from: T, to: T)
    requires Adjacent(edges, es)
    ensures Adjacent(edges[from := (if from in edges then edges[from] else []) + [to]], es + [(from, to)])
  {
    var after := edges[from := (if from in edges then edges[from] else []) + [to]];
    forall n ensures Targets(es + [(from, to)], n) == if n in after then after[n] else [] {
      TargetsSnoc(es, from, to, n);
    }
  }

  /** The incoming edges counted for every node. */
  ghost predicate Counts<T(!new)>(count: map<T, nat>, es: seq<Edge<T>>) {
    count.Keys == Nodes(es) && forall n :: n in count ==> count[n] == Pending(es, [], n)
  }

  lemma {:induction false} InsertCounts<T(!new)>(es: seq<Edge<T>>, count: map<T, nat>, from: T, to: T)
    requires Counts(count, es)
    ensures
      var c1 := if from in count then count else count[from := 0];
      var c2 := if to in c1 then c1 else c1[to := 0];
      Counts(c2[to := c2[to] + 1], es + [(from, to)])
  {
    assert (es + [(from, to)])[..|es|] == es;
    if from !in count {
      NoPending(es, [], from);
    }
    if to !in count {
      NoPending(es, [], to);
    }
  }

  class TopologicalSort<T(==, !new)> {
    var edges: map<T, seq<T>>
    var count: map<T, nat>
    ghost var inserted: seq<Edge<T>>

    ghost predicate Valid()
      reads this
    {
      Adjacent(edges, inserted) && Counts(count, inserted)
    }

    constructor ()
      ensures Valid() && inserted == []
    {
      edges, count, inserted := map[], map[], [];
    }

    method Insert(from: T, to: T)
      requires Valid()
      modifies this
      ensures Valid() && inserted == old(inserted) + [(from, to)]
    {
      InsertAdjacent(inserted, edges, from, to);
      InsertCounts(inserted, count, from, to);
      if from !in count {
        count := count[from := 0];
      }
      edges := edges[from := (if from in edges then edges[from] else []) + [to]];
      if to !in count {
        count := count[to := 0];
      }
      count := count[to := count[to] + 1];
      inserted := inserted + [(from, to)];
    }

    /** The hash map's order is not the caller's to choose: any order of the nodes without predecessors. */
    method IntoIterator() returns (it: TopologicalSortIterator<T>)
      requires Valid()
      ensures fresh(it) && it.Valid() && it.inserted == inserted && it.emitted == []
    {
      var noEdges: seq<T> := [];
      var rest := count;
      var todo := count.Keys;
      while todo != {}
        invariant todo <= count.Keys && NoDup(noEdges)
        invariant rest.Keys <= count.Keys && todo <= rest.Keys
        invariant forall n :: n in rest ==> rest[n] == count[n]
        invariant forall n :: n in count && n !in todo ==> (n in rest <==> count[n] > 0) && (n in noEdges <==> count[n] == 0)
        invariant forall n :: n in noEdges ==> n in count && n !in todo && n !in rest
      {
        var node :| node in todo;
        todo := todo - {node};
        if count[node] == 0 {
          noEdges := noEdges + [node];
          rest := rest - {node};
        }
      }
      it := new TopologicalSortIterator(edges, rest, noEdges, inserted);
    }
  }

  lemma {:induction false} NoPending<T>(es: seq<Edge<T>>, gone: seq<T>, n: T)
    requires n !in Nodes(es)
    ensures Pending(es, gone, n) == 0
  {
    if es != [] {
      NoPending(es[..|es| - 1], gone, n);
    }
  }

  /** What holds between two calls of `next`: waiting nodes count their edges from nodes not yet
      emitted, and every other node has none. */
  ghost predicate Consistent<T(!new)>(es: seq<Edge<T>>, emitted: seq<T>, count: map<T, nat>, ready: seq<T>) {
    && NoDup(emitted + ready)
    && (forall n :: n in Nodes(es) <==> n in emitted || n in ready || n in count)
    && (forall n :: n in count ==> n !in emitted && n !in ready && count[n] == Pending(es, emitted, n) > 0)
    && (forall n :: n in emitted || n in ready ==> Pending(es, emitted, n) == 0)
    && Ordered(es, emitted)
  }

  /** The same inside `next`, with the edges to `rest` still to be taken off. */
  ghost predicate Halfway<T(!new)>(es: seq<Edge<T>>, emitted: seq<T>, count: map<T, nat>, ready: seq<T>, rest: seq<T>) {
    && NoDup(emitted + ready)
    && (forall n :: n in Nodes(es) <==> n in emitted || n in ready || n in count)
    && (forall n :: n in count ==> n !in emitted && n !in ready && count[n] == Pending(es, emitted, n) + Occurrences(rest, n) > 0)
    && (forall n :: n in emitted || n in ready ==> Pending(es, emitted, n) == 0 && Occurrences(rest, n) == 0)
    && Ordered(es, emitted)
    && (forall n :: n in rest ==> n in Nodes(es))
  }

  lemma {:induction false} OrderedExtends<T>(es: seq<Edge<T>>, emitted: seq<T>, v: T)
    requires Ordered(es, emitted) && Pending(es, emitted, v) == 0
    ensures Ordered(es, emitted + [v])
  {
    var longer := emitted + [v];
    forall j, k | 0 <= j < |longer| && 0 <= k < |es| && es[k].1 == longer[j] ensures es[k].0 in longer[..j] {
      assert longer[..j] == emitted[..j];
      if j == |emitted| {
        PendingZero(es, emitted, v, k);
        assert emitted[..j] == emitted;
      }
    }
  }

  /** Emitting the last ready node. */
  lemma {:induction false} Emit<T(!new)>(es: seq<Edge<T>>, emitted: seq<T>, count: map<T, nat>, ready: seq<T>)
    requires Consistent(es, emitted, count, ready) && ready != []
    ensures
      var v := ready[|ready| - 1];
      Halfway(es, emitted + [v], count, ready[..|ready| - 1], Targets(es, v))
  {
    var v, rest := ready[|ready| - 1], ready[..|ready| - 1];
    assert v == (emitted + ready)[|emitted| + |ready| - 1];
    assert v !in emitted && v !in rest by {
      assert forall i :: 0 <= i < |emitted| ==> (emitted + ready)[i] == emitted[i];
      assert forall i :: 0 <= i < |rest| ==> (emitted + ready)[|emitted| + i] == rest[i];
    }
    assert ready == rest + [v];
    assert NoDup((emitted + [v]) + rest) by {
      assert forall i :: 0 <= i < |emitted| ==> (emitted + ready)[i] == emitted[i];
      assert forall i :: 0 <= i < |rest| ==> (emitted + ready)[|emitted| + i] == rest[i];
    }
    forall n ensures Pending(es, emitted, n) == Pending(es, emitted + [v], n) + Occurrences(Targets(es, v), n) {
      PendingWithout(es, emitted, v, n);
    }
    OrderedExtends(es, emitted, v);
    forall n | n in Targets(es, v) ensures n in Nodes(es) {
      TargetsAreNodes(es, v, n);
    }
  }

  lemma {:induction false} NoDupInsert<T>(a: seq<T>, n: T, b: seq<T>)
    requires NoDup(a + b) && n !in a && n !in b
    ensures NoDup(a + ([n] + b))
  {
    var before, after := a + b, a + ([n] + b);
    forall i, j | 0 <= i < j < |after| ensures after[i] != after[j] {
      var i', j' := if i < |a| then i else i - 1, if j < |a| then j else j - 1;
      if i != |a| && j != |a| {
        assert after[i] == before[i'] && after[j] == before[j'] && i' < j';
      } else if i == |a| {
        assert after[j] == b[j - |a| - 1];
      } else {
        assert after[i] == a[i];
      }
    }
  }

  lemma {:induction false} Released<T(!new)>(es: seq<Edge<T>>, emitted: seq<T>, count: map<T, nat>, ready: seq<T>, rest: seq<T>)
    requires Halfway(es, emitted, count, ready, rest) && rest != []
    ensures rest[0] in count && count[rest[0]] > 0
    ensures
      var n := rest[0];
      if count[n] == 1 then Halfway(es, emitted, count - {n}, [n] + ready, rest[1..])
      else Halfway(es, emitted, count[n := count[n] - 1], ready, rest[1..])
  {
    var n := rest[0];
    assert Occurrences(rest, n) > 0;
    assert n in count;
    if count[n] == 1 {
      NoDupInsert(emitted, n, ready);
    }
  }

  class TopologicalSortIterator<T(==, !new)> {
    var edges: map<T, seq<T>>
    var count: map<T, nat>
    var noEdges: seq<T>
    ghost var inserted: seq<Edge<T>>
    ghost var emitted: seq<T>

    ghost predicate Valid()
      reads this
    {
      Adjacent(edges, inserted) && Consistent(inserted, emitted, count, noEdges)
    }

    constructor (edges: map<T, seq<T>>, count: map<T, nat>, noEdges: seq<T>, ghost inserted: seq<Edge<T>>)
      requires Adjacent(edges, inserted) && Consistent(inserted, [], count, noEdges)
      ensures Valid() && this.inserted == inserted && this.emitted == []
    {
      this.edges, this.count, this.noEdges := edges, count, noEdges;
      this.inserted, this.emitted := inserted, [];
    }

    method Next() returns (r: Option<T>)
      requires Valid()
      modifies this
      ensures Valid() && inserted == old(inserted)
      ensures r.None? ==> noEdges == [] && emitted == old(emitted)
      ensures r.Some? ==> emitted == old(emitted) + [r.value]
    {
      if noEdges == [] {
        return None;
      }
      var v := noEdges[|noEdges| - 1];
      Emit(inserted, emitted, count, noEdges);
      noEdges := noEdges[..|noEdges| - 1];
      emitted := emitted + [v];
      if v in edges {
        Release(edges[v]);
      }
      return Some(v);
    }

    /** The loop of `next`: takes off the edges of the node just emitted. */
    method Release(targets: seq<T>)
      requires Halfway(inserted, emitted, count, noEdges, targets)
      modifies this`count, this`noEdges
      ensures Consistent(inserted, emitted, count, noEdges)
    {
      for i := 0 to |targets|
        invariant Halfway(inserted, emitted, count, noEdges, targets[i..])
      {
        var neighbor := targets[i];
        assert targets[i..][1..] == targets[i + 1..];
        Released(inserted, emitted, count, noEdges, targets[i..]);
        if neighbor in count {
          ghost var before := count;
          count := count[neighbor := count[neighbor] - 1];
          if count[neighbor] == 0 {
            count := count - {neighbor};
            assert count == before - {neighbor};
            noEdges := [neighbor] + noEdges;
          }
        }
      }
    }

    /** At any time, no node is left waiting, which only an acyclic graph allows; once no node is free
        either, it says exactly that the graph is acyclic. */
    method IsValid() returns (r: bool)
      requires Valid()
      ensures r <==> forall n :: n in Nodes(inserted) ==> n in emitted || n in noEdges
      ensures r ==> Acyclic(inserted)
      ensures noEdges == [] ==> (r <==> Acyclic(inserted))
    {
      r := count == map[];
      if r {
        NoneWaiting(inserted, emitted, noEdges);
      } else if noEdges == [] {
        Finished(inserted, emitted, count);
      }
    }
  }

  /** The free nodes may follow the emitted ones in any order. */
  lemma {:induction false} ReadyFollow<T(!new)>(es: seq<Edge<T>>, emitted: seq<T>, count: map<T, nat>, ready: seq<T>)
    requires Consistent(es, emitted, count, ready)
    ensures Ordered(es, emitted + ready)
  {
    var all := emitted + ready;
    forall j, k | 0 <= j < |all| && 0 <= k < |es| && es[k].1 == all[j] ensures es[k].0 in all[..j] {
      if j < |emitted| {
        assert all[..j] == emitted[..j];
      } else {
        assert all[j] in ready;
        PendingZero(es, emitted, all[j], k);
        assert all[..j] == emitted + ready[..j - |emitted|];
      }
    }
  }

  lemma {:induction false} NoneWaiting<T(!new)>(es: seq<Edge<T>>, emitted: seq<T>, ready: seq<T>)
    requires Consistent(es, emitted, map[], ready)
    ensures Acyclic(es)
  {
    ReadyFollow(es, emitted, map[], ready);
    Exhausted(es, emitted + ready, {});
  }

  lemma {:induction false} AllEmitted<T(!new)>(es: seq<Edge<T>>, emitted: seq<T>, count: map<T, nat>)
    requires Consistent(es, emitted, count, [])
    ensures Stuck(es, count.Keys)
  {
    forall n | n in count.Keys ensures EdgeWithin(es, count.Keys, n) {
      var k := PendingFrom(es, emitted, n);
      NodesOf(es, k);
    }
  }

  lemma {:induction false} Finished<T(!new)>(es: seq<Edge<T>>, order: seq<T>, count: map<T, nat>)
    requires Consistent(es, order, count, [])
    ensures NoDup(order) && Ordered(es, order)
    ensures forall n :: n in order <==> n in Nodes(es) && !BehindCycle(es, n)
    ensures count.Keys == {} <==> Acyclic(es)
    ensures count.Keys == {} ==> forall n :: n in Nodes(es) ==> n in order
  {
    AllEmitted(es, order, count);
    assert order + [] == order;
    Exhausted(es, order, count.Keys);
  }

  method Load<T(==, !new)>(es: seq<Edge<T>>) returns (sort: TopologicalSort<T>)
    ensures fresh(sort) && sort.Valid() && sort.inserted == es
  {
    sort := new TopologicalSort<T>();
    for i := 0 to |es|
      invariant fresh(sort) && sort.Valid() && sort.inserted == es[..i]
    {
      sort.Insert(es[i].0, es[i].1);
      assert es[..i + 1] == es[..i] + [es[i]];
    }
    assert es[..|es|] == es;
  }

  /** Calls `next` until it answers `None`. */
  method Exhaust<T(==, !new)>(it: TopologicalSortIterator<T>) returns (order: seq<T>)
    requires it.Valid() && it.emitted == []
    modifies it
    ensures it.Valid() && it.inserted == old(it.inserted) && it.emitted == order && it.noEdges == []
  {
    order := [];
    var more := true;
    while more
      invariant it.Valid() && it.inserted == old(it.inserted) && it.emitted == order
      invariant !more ==> it.noEdges == []
      decreases more, Unsorted(it.inserted, order)
    {
      ghost var before := order;
      var r := it.Next();
      match r {
        case None =>
          more := false;
        case Some(n) =>
          order := order + [n];
          EmittedOnce(it.inserted, before, n, it.count, it.noEdges);
          SortedOneMore(it.inserted, before, n);
      }
    }
  }

  lemma {:induction false} EmittedOnce<T(!new)>(es: seq<Edge<T>>, before: seq<T>, n: T, count: map<T, nat>, ready: seq<T>)
    requires Consistent(es, before + [n], count, ready)
    ensures n in Nodes(es) && n !in before
  {
    var all := (before + [n]) + ready;
    assert n in before + [n];
    assert forall i :: 0 <= i < |before| ==> all[i] == before[i] && all[i] != all[|before|];
  }

  /** Sorting any list of edges to exhaustion: each node comes out at most once and after all its
      predecessors, exactly the nodes no cycle leads to come out, and the result is called valid exactly
      when the edges contain no cycle. */
  method Sort<T(==, !new)>(es: seq<Edge<T>>) returns (order: seq<T>, valid: bool)
    ensures NoDup(order) && Ordered(es, order)
    ensures forall n :: n in order <==> n in Nodes(es) && !BehindCycle(es, n)
    ensures valid <==> Acyclic(es)
    ensures valid ==> forall n :: n in Nodes(es) ==> n in order
  {
    var sort := Load(es);
    var it := sort.IntoIterator();
    order := Exhaust(it);
    valid := it.IsValid();
    Finished(es, order, it.count);
  }

  /** How many nodes are not in the order yet. */
  ghost function Unsorted<T(!new)>(es: seq<Edge<T>>, order: seq<T>): nat {
    |Nodes(es) - set n | n in order|
  }

  lemma {:induction false} SortedOneMore<T(!new)>(es: seq<Edge<T>>, order: seq<T>, n: T)
    requires n in Nodes(es) && n !in order
    ensures Unsorted(es, order + [n]) < Unsorted(es, order)
  {
    var was := Nodes(es) - set m | m in order;
    var now := Nodes(es) - set m | m in order + [n];
    assert now == was - {n};
  }
}
