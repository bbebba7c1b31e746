/**
 The event store of console/src/lib/traceStore.ts: batches that may be resent, may overlap and may
 hold rows the database rejects become rows stored once each, and the delivery traces follow them.
 The tables are sequences and maps, a statement either happens or fails as a whole, and ids come from
 a sequence that may skip numbers.
 */
module TraceStore {
  import opened Basics
  import opened TraceEvents

  datatype Row = Row(hash: string, span: Option<string>, event: Event)

  datatype Stored = Stored(id: nat, row: Row)

  datatype Db = Db(events: seq<Stored>, nextId: nat, traces: map<string, Trace>)

  const INSERT_CHUNK: nat := 500

  // ---------------------------------------------------------------- one row per hash

  /** `Map.set`: a known key keeps its place and takes the new value. */
  function SetRow(rows: seq<Row>, r: Row): seq<Row> {
    if rows == [] then [r]
    else if rows[0].hash == r.hash then [r] + rows[1..]
    else [rows[0]] + SetRow(rows[1..], r)
  }

  function Unique(rows: seq<Row>): seq<Row> {
    if rows == [] then [] else SetRow(Unique(rows[..|rows| - 1]), rows[|rows| - 1])
  }

  function HashList(rows: seq<Row>): seq<string> {
    if rows == [] then [] else [rows[0].hash] + HashList(rows[1..])
  }

  function Hashes(rows: seq<Row>): set<string> {
    set r | r in rows :: r.hash
  }

  ghost predicate DistinctHashes(rows: seq<Row>) {
    forall i, j :: 0 <= i < j < |rows| ==> rows[i].hash != rows[j].hash
  }

  lemma {:induction false} HashListConcat(a: seq<Row>, b: seq<Row>)
    ensures HashList(a + b) == HashList(a) + HashList(b)
    decreases |a|
  {
    if a == [] {
      assert a + b == b;
    } else {
      assert (a + b)[1..] == a[1..] + b;
      HashListConcat(a[1..], b);
    }
  }

  lemma {:induction false} HashListAt(rows: seq<Row>)
    ensures |HashList(rows)| == |rows| && forall i :: 0 <= i < |rows| ==> HashList(rows)[i] == rows[i].hash
    decreases |rows|
  {
    if rows != [] {
      HashListAt(rows[1..]);
      forall i | 0 < i < |rows| ensures HashList(rows)[i] == rows[i].hash {
        assert HashList(rows)[i] == HashList(rows[1..])[i - 1];
      }
    }
  }

  lemma {:induction false} SetRowHashes(rows: seq<Row>, r: Row)
    ensures HashList(SetRow(rows, r)) == AddNew(HashList(rows), r.hash)
    decreases |rows|
  {
    if rows != [] {
      if rows[0].hash == r.hash {
        assert ([r] + rows[1..])[1..] == rows[1..];
      } else {
        SetRowHashes(rows[1..], r);
        assert ([rows[0]] + SetRow(rows[1..], r))[1..] == SetRow(rows[1..], r);
      }
    }
  }

  lemma {:induction false} SetRowMember(rows: seq<Row>, r: Row, x: Row)
    requires DistinctHashes(rows)
    ensures x in SetRow(rows, r) <==> x == r || (x in rows && x.hash != r.hash)
    decreases |rows|
  {
    if rows != [] {
      assert rows == [rows[0]] + rows[1..];
      if rows[0].hash != r.hash {
        SetRowMember(rows[1..], r, x);
      }
    }
  }

  /** The hashes of a batch, each where it first occurs. */
  lemma {:induction false} UniqueHashes(rows: seq<Row>)
    ensures HashList(Unique(rows)) == Distinct(HashList(rows)) && DistinctHashes(Unique(rows))
    decreases |rows|
  {
    if rows != [] {
      var front, last := rows[..|rows| - 1], rows[|rows| - 1];
      UniqueHashes(front);
      SetRowHashes(Unique(front), last);
      assert rows == front + [last];
      HashListConcat(front, [last]);
      DistinctSnoc(HashList(front), last.hash);
    }
    DistinctMeans(HashList(rows));
    HashListAt(Unique(rows));
  }

  /** Row `r` of the batch, with no later row of its hash. */
  ghost predicate LastOfItsHash(rows: seq<Row>, r: Row, i: nat) {
    i < |rows| && rows[i] == r && forall j :: i < j < |rows| ==> rows[j].hash != r.hash
  }

  lemma {:induction false} LastSnoc(front: seq<Row>, last: Row, r: Row)
    ensures (exists i :: LastOfItsHash(front + [last], r, i))
       <==> r == last || (r.hash != last.hash && exists i :: LastOfItsHash(front, r, i))
  {
    var rows := front + [last];
    if r == last {
      assert LastOfItsHash(rows, r, |front|);
    }
    if i: nat :| LastOfItsHash(rows, r, i) {
      if i < |front| {
        assert rows[|front|] == last;
        assert LastOfItsHash(front, r, i) by {
          forall j | i < j < |front| ensures front[j].hash != r.hash {
            assert rows[j] == front[j];
          }
        }
      }
    }
    if r.hash != last.hash {
      if i: nat :| LastOfItsHash(front, r, i) {
        assert LastOfItsHash(rows, r, i);
      }
    }
  }

  /** Of rows with one hash, the last in the batch is the one stored. */
  lemma {:induction false} UniqueRows(rows: seq<Row>, r: Row)
    ensures r in Unique(rows) <==> exists i :: LastOfItsHash(rows, r, i)
    decreases |rows|
  {
    if rows != [] {
      var front, last := rows[..|rows| - 1], rows[|rows| - 1];
      UniqueHashes(front);
      SetRowMember(Unique(front), last, r);
      UniqueRows(front, r);
      LastSnoc(front, last, r);
      assert rows == front + [last];
    }
  }

  // ---------------------------------------------------------------- inserting

  function Rows(events: seq<Stored>): seq<Row> {
    if events == [] then [] else Rows(events[..|events| - 1]) + [events[|events| - 1].row]
  }

  function Where(events: seq<Stored>, p: Stored -> bool): seq<Stored> {
    if events == [] then []
    else Where(events[..|events| - 1], p) + if p(events[|events| - 1]) then [events[|events| - 1]] else []
  }

  /** Rows that are accepted and not stored yet. */
  function FreshOf(seen: set<string>, rows: seq<Row>, ok: Row -> bool): seq<Row> {
    if rows == [] then []
    else
      var r := rows[|rows| - 1];
      FreshOf(seen, rows[..|rows| - 1], ok) + if ok(r) && r.hash !in seen then [r] else []
  }

  function RejectedOf(rows: seq<Row>, ok: Row -> bool): seq<Row> {
    if rows == [] then []
    else
      var r := rows[|rows| - 1];
      RejectedOf(rows[..|rows| - 1], ok) + if ok(r) then [] else [r]
  }

  /** Ids rise along the table and the sequence stands above them all. */
  ghost predicate Ordered(events: seq<Stored>, nextId: nat) {
    && (forall i :: 0 <= i < |events| ==> 0 < events[i].id < nextId)
    && forall i, j :: 0 <= i < j < |events| ==> events[i].id < events[j].id
  }

  /** From this place on, ids that the sequence had not given out. */
  ghost predicate IdsFrom(events: seq<Stored>, from: nat, id: nat) {
    forall i :: from <= i < |events| ==> events[i].id >= id
  }

  /** The table gained exactly these rows, at its end. */
  ghost predicate Grown(a: seq<Stored>, an: nat, b: seq<Stored>, bn: nat, added: seq<Row>) {
    a <= b && Rows(b) == Rows(a) + added && an <= bn && Ordered(b, bn) && IdsFrom(b, |a|, an)
  }

  lemma {:induction false} GrownMore(
      a: seq<Stored>, an: nat, b: seq<Stored>, bn: nat, c: seq<Stored>, cn: nat, f: seq<Row>, g: seq<Row>)
    requires Grown(a, an, b, bn, f) && Grown(b, bn, c, cn, g)
    ensures Grown(a, an, c, cn, f + g)
  {
    assert (Rows(a) + f) + g == Rows(a) + (f + g);
    forall i | |a| <= i < |c| ensures c[i].id >= an {
      if i < |b| {
        assert c[i] == b[i];
      }
    }
  }

  lemma {:induction false} FreshConcat(seen: set<string>, a: seq<Row>, b: seq<Row>, ok: Row -> bool)
    ensures FreshOf(seen, a + b, ok) == FreshOf(seen, a, ok) + FreshOf(seen, b, ok)
    decreases |b|
  {
    if b == [] {
      assert a + b == a;
    } else {
      assert (a + b)[..|a + b| - 1] == a + b[..|b| - 1];
      FreshConcat(seen, a, b[..|b| - 1], ok);
    }
  }

  lemma {:induction false} FreshMember(seen: set<string>, rows: seq<Row>, ok: Row -> bool, r: Row)
    ensures r in FreshOf(seen, rows, ok) <==> r in rows && ok(r) && r.hash !in seen
    decreases |rows|
  {
    if rows != [] {
      FreshMember(seen, rows[..|rows| - 1], ok, r);
      assert rows == rows[..|rows| - 1] + [rows[|rows| - 1]];
    }
  }

  lemma {:induction false} FreshDistinct(seen: set<string>, rows: seq<Row>, ok: Row -> bool)
    requires DistinctHashes(rows)
    ensures DistinctHashes(FreshOf(seen, rows, ok))
    decreases |rows|
  {
    if rows != [] {
      var front := rows[..|rows| - 1];
      FreshDistinct(seen, front, ok);
      var added := FreshOf(seen, front, ok);
      forall i | 0 <= i < |added| ensures added[i].hash != rows[|rows| - 1].hash {
        FreshMember(seen, front, ok, added[i]);
      }
    }
  }

  /** Rows stored a moment ago do not make other rows stale. */
  lemma {:induction false} FreshUnaffected(seen: set<string>, more: set<string>, rows: seq<Row>, ok: Row -> bool)
    requires forall r :: r in rows ==> r.hash !in more
    ensures FreshOf(seen + more, rows, ok) == FreshOf(seen, rows, ok)
    decreases |rows|
  {
    if rows != [] {
      FreshUnaffected(seen, more, rows[..|rows| - 1], ok);
      assert rows[|rows| - 1] in rows;
    }
  }

  lemma {:induction false} HashesConcat(a: seq<Row>, b: seq<Row>)
    ensures Hashes(a + b) == Hashes(a) + Hashes(b)
  {
    forall h ensures h in Hashes(a + b) <==> h in Hashes(a) || h in Hashes(b) {
      if h in Hashes(a + b) {
        var r :| r in a + b && r.hash == h;
        assert r in a || r in b;
      }
      if h in Hashes(a) {
        var r :| r in a && r.hash == h;
        assert r in a + b;
      }
      if h in Hashes(b) {
        var r :| r in b && r.hash == h;
        assert r in a + b;
      }
    }
  }

  // ---------------------------------------------------------------- traces

  /** A span's events, in the order of their ids. */
  function OfSpan(rows: seq<Row>, span: string): seq<Event> {
    if rows == [] then []
    else
      var r := rows[|rows| - 1];
      OfSpan(rows[..|rows| - 1], span) + if r.span == Some(span) then [r.event] else []
  }

  lemma {:induction false} OfSpanConcat(a: seq<Row>, b: seq<Row>, span: string)
    ensures OfSpan(a + b, span) == OfSpan(a, span) + OfSpan(b, span)
    decreases |b|
  {
    if b == [] {
      assert a + b == a;
    } else {
      assert (a + b)[..|a + b| - 1] == a + b[..|b| - 1];
      OfSpanConcat(a, b[..|b| - 1], span);
    }
  }

  /** The spans of these rows, each once. */
  function SpansOf(rows: seq<Row>): seq<string> {
    if rows == [] then []
    else
      var spans := SpansOf(rows[..|rows| - 1]);
      var span := rows[|rows| - 1].span;
      if span.Some? then AddNew(spans, span.value) else spans
  }

  lemma {:induction false} UntouchedSpan(rows: seq<Row>, span: string)
    requires span !in SpansOf(rows)
    ensures OfSpan(rows, span) == []
    decreases |rows|
  {
    if rows != [] {
      UntouchedSpan(rows[..|rows| - 1], span);
    }
  }

  /** What a span's stored events say. */
  function Says(rows: seq<Row>): string -> Option<Trace> {
    (span: string) => Summary(span, OfSpan(rows, span))
  }

  /** An upsert for each key that has a value; the others stay as they are. */
  function Upserted<V>(table: map<string, V>, says: string -> Option<V>, keys: seq<string>): map<string, V> {
    if keys == [] then table
    else
      var before := Upserted(table, says, keys[..|keys| - 1]);
      var key := keys[|keys| - 1];
      if says(key).Some? then before[key := says(key).value] else before
  }

  lemma {:induction false} UpsertedAt<V>(table: map<string, V>, says: string -> Option<V>, keys: seq<string>, key: string)
    ensures At(Upserted(table, says, keys), key) == if key in keys && says(key).Some? then says(key) else At(table, key)
    decreases |keys|
  {
    if keys != [] {
      UpsertedAt(table, says, keys[..|keys| - 1], key);
      assert keys == keys[..|keys| - 1] + [keys[|keys| - 1]];
    }
  }

  /** `delivery_traces` holds, for every span, what its stored events say, and nothing else. */
  ghost predicate View(traces: map<string, Trace>, rows: seq<Row>) {
    forall span :: At(traces, span) == Says(rows)(span)
  }

  lemma {:induction false} TouchedSpan(traces: map<string, Trace>, rows: seq<Row>, added: seq<Row>, span: string)
    requires At(traces, span) == Says(rows)(span)
    ensures Says(rows + added)(span).None? ==> At(traces, span).None?
  {
    SummaryExists(span, OfSpan(rows, span));
    SummaryExists(span, OfSpan(rows + added, span));
    OfSpanConcat(rows, added, span);
    TraceStays(OfSpan(rows, span), OfSpan(added, span));
  }

  lemma {:induction false} UntouchedSays(rows: seq<Row>, added: seq<Row>, span: string)
    requires span !in SpansOf(added)
    ensures Says(rows + added)(span) == Says(rows)(span)
  {
    OfSpanConcat(rows, added, span);
    UntouchedSpan(added, span);
    assert OfSpan(rows, span) + [] == OfSpan(rows, span);
  }

  /** Regrouping the spans a batch touched is enough: the view is that of all stored events again. */
  lemma {:induction false} RegroupKeepsView(traces: map<string, Trace>, rows: seq<Row>, added: seq<Row>)
    requires View(traces, rows)
    ensures View(Upserted(traces, Says(rows + added), SpansOf(added)), rows + added)
  {
    var says, spans := Says(rows + added), SpansOf(added);
    forall span ensures At(Upserted(traces, says, spans), span) == says(span) {
      UpsertedAt(traces, says, spans, span);
      if span in spans {
        TouchedSpan(traces, rows, added, span);
      } else {
        UntouchedSays(rows, added, span);
      }
    }
  }

  lemma {:induction false} TraceStays(a: seq<Event>, b: seq<Event>)
    ensures (exists e :: e in a && Starts(e)) ==> exists e :: e in a + b && Starts(e)
  {
    if e :| e in a && Starts(e) {
      assert e in a + b;
    }
  }

  // ---------------------------------------------------------------- deleting

  /** What `pruneTraces` leaves. */
  function YoungEvent(before: int): Stored -> bool {
    (e: Stored) => e.row.event.at >= before
  }

  function YoungTraces(traces: map<string, Trace>, before: int): map<string, Trace> {
    map span | span in traces && traces[span].startedAt >= before :: traces[span]
  }

  lemma {:induction false} WhereMember(events: seq<Stored>, p: Stored -> bool, e: Stored)
    ensures e in Where(events, p) <==> e in events && p(e)
    decreases |events|
  {
    if events != [] {
      WhereMember(events[..|events| - 1], p, e);
      assert events == events[..|events| - 1] + [events[|events| - 1]];
    }
  }

  lemma {:induction false} OrderedWhere(events: seq<Stored>, nextId: nat, p: Stored -> bool)
    requires Ordered(events, nextId)
    ensures Ordered(Where(events, p), nextId)
    decreases |events|
  {
    if events != [] {
      var front, last := events[..|events| - 1], events[|events| - 1];
      OrderedWhere(front, nextId, p);
      forall i | 0 <= i < |Where(front, p)| ensures Where(front, p)[i].id < last.id {
        WhereMember(front, p, Where(front, p)[i]);
      }
    }
  }

  // ---------------------------------------------------------------- whole runs

  /** One committed call of `insertTraceEvents`. */
  ghost predicate Committed(db: Db, next: Db, rows: seq<Row>, added: seq<Row>, rejected: seq<Row>, ok: Row -> bool) {
    && added == FreshOf(Hashes(Rows(db.events)), Unique(rows), ok)
    && rejected == RejectedOf(Unique(rows), ok)
    && Grown(db.events, db.nextId, next.events, next.nextId, added)
    && next.traces == Upserted(db.traces, Says(Rows(next.events)), SpansOf(added))
  }

  /** A batch that committed, or a transaction rolled back, which may only use up ids. */
  datatype Step = Batch(rows: seq<Row>, added: seq<Row>, rejected: seq<Row>) | RolledBack

  ghost predicate IsStep(db: Db, step: Step, next: Db, ok: Row -> bool) {
    match step
    case Batch(rows, added, rejected) => Committed(db, next, rows, added, rejected, ok)
    case RolledBack => next.events == db.events && next.traces == db.traces && db.nextId <= next.nextId
  }

  ghost predicate IsRun(dbs: seq<Db>, steps: seq<Step>, ok: Row -> bool) {
    && |dbs| == |steps| + 1
    && dbs[0].events == [] && dbs[0].traces == map[]
    && forall i {:trigger steps[i]} :: 0 <= i < |steps| ==> IsStep(dbs[i], steps[i], dbs[i + 1], ok)
  }

  lemma {:induction false} RunFront(dbs: seq<Db>, steps: seq<Step>, ok: Row -> bool)
    requires IsRun(dbs, steps, ok) && steps != []
    ensures
      var n := |steps| - 1;
      IsRun(dbs[..n + 1], steps[..n], ok) && IsStep(dbs[n], steps[n], dbs[n + 1], ok)
  {
    var n := |steps| - 1;
    var front, shorter := steps[..n], dbs[..n + 1];
    forall i {:trigger front[i]} | 0 <= i < n ensures IsStep(shorter[i], front[i], shorter[i + 1], ok) {
      assert steps[i] == front[i];
    }
  }

  /** Everything the calls returned as fresh, in order. */
  function AllFresh(steps: seq<Step>): seq<Row> {
    if steps == [] then []
    else
      var last := steps[|steps| - 1];
      AllFresh(steps[..|steps| - 1]) + if last.Batch? then last.added else []
  }

  /** Some batch of the run brought an acceptable row of this hash. */
  ghost predicate Offered(steps: seq<Step>, hash: string, ok: Row -> bool) {
    exists i, r :: OfferedBy(steps, i, r, hash, ok)
  }

  ghost predicate OfferedBy(steps: seq<Step>, i: nat, r: Row, hash: string, ok: Row -> bool) {
    i < |steps| && steps[i].Batch? && r in Unique(steps[i].rows) && ok(r) && r.hash == hash
  }

  /** What holds after every step of a run. */
  ghost predicate Inv(db: Db, steps: seq<Step>, ok: Row -> bool) {
    && Ordered(db.events, db.nextId)
    && DistinctHashes(Rows(db.events))
    && Rows(db.events) == AllFresh(steps)
    && View(db.traces, Rows(db.events))
  }

  lemma {:induction false} DistinctConcat(a: seq<Row>, b: seq<Row>)
    requires DistinctHashes(a) && DistinctHashes(b) && forall r :: r in b ==> r.hash !in Hashes(a)
    ensures DistinctHashes(a + b)
  {
    forall i, j | 0 <= i < j < |a + b| ensures (a + b)[i].hash != (a + b)[j].hash {
      if i < |a| <= j {
        assert (a + b)[i] in a && (a + b)[j] in b;
      }
    }
  }

  lemma {:induction false} FreshKeepsDistinct(stored: seq<Row>, rows: seq<Row>, ok: Row -> bool)
    requires DistinctHashes(stored)
    ensures DistinctHashes(stored + FreshOf(Hashes(stored), Unique(rows), ok))
  {
    var added := FreshOf(Hashes(stored), Unique(rows), ok);
    UniqueHashes(rows);
    FreshDistinct(Hashes(stored), Unique(rows), ok);
    forall r | r in added ensures r.hash !in Hashes(stored) {
      FreshMember(Hashes(stored), Unique(rows), ok, r);
    }
    DistinctConcat(stored, added);
  }

  lemma {:induction false} StepKeeps(db: Db, step: Step, next: Db, steps: seq<Step>, ok: Row -> bool)
    requires Inv(db, steps, ok) && IsStep(db, step, next, ok)
    ensures Inv(next, steps + [step], ok)
  {
    assert (steps + [step])[..|steps|] == steps;
    match step
    case Batch(rows, added, rejected) =>
      FreshKeepsDistinct(Rows(db.events), rows, ok);
      RegroupKeepsView(db.traces, Rows(db.events), added);
    case RolledBack =>
      assert AllFresh(steps) + [] == AllFresh(steps);
  }

  lemma {:induction false} EmptyView()
    ensures View(map[], [])
  {
    forall span ensures Says([])(span) == None {
      SummaryExists(span, []);
    }
  }

  /**
   After any run: every row stored was returned as fresh exactly once, no hash is stored twice, and the
   delivery traces are what all the stored events say.
   */
  lemma {:induction false} StoredIsFresh(dbs: seq<Db>, steps: seq<Step>, ok: Row -> bool)
    requires IsRun(dbs, steps, ok)
    ensures Inv(dbs[|steps|], steps, ok)
    decreases |steps|
  {
    if steps == [] {
      EmptyView();
    } else {
      var n := |steps| - 1;
      var front := steps[..n];
      RunFront(dbs, steps, ok);
      StoredIsFresh(dbs[..n + 1], front, ok);
      StepKeeps(dbs[n], steps[n], dbs[n + 1], front, ok);
      assert front + [steps[n]] == steps;
    }
  }

  lemma {:induction false} OfferedSnoc(steps: seq<Step>, step: Step, hash: string, ok: Row -> bool)
    ensures Offered(steps + [step], hash, ok)
       <==> Offered(steps, hash, ok) || (step.Batch? && exists r :: r in Unique(step.rows) && ok(r) && r.hash == hash)
  {
    var all := steps + [step];
    if Offered(all, hash, ok) {
      var i: nat, r :| OfferedBy(all, i, r, hash, ok);
      if i < |steps| {
        assert OfferedBy(steps, i, r, hash, ok);
      }
    }
    if Offered(steps, hash, ok) {
      var i: nat, r :| OfferedBy(steps, i, r, hash, ok);
      assert OfferedBy(all, i, r, hash, ok);
    }
    if step.Batch? {
      if r :| r in Unique(step.rows) && ok(r) && r.hash == hash {
        assert OfferedBy(all, |steps|, r, hash, ok);
      }
    }
  }

  lemma {:induction false} HashStored(stored: seq<Row>, rows: seq<Row>, hash: string, ok: Row -> bool)
    ensures hash in Hashes(stored + FreshOf(Hashes(stored), rows, ok))
       <==> hash in Hashes(stored) || exists r :: r in rows && ok(r) && r.hash == hash
  {
    var added := FreshOf(Hashes(stored), rows, ok);
    HashesConcat(stored, added);
    if hash in Hashes(added) {
      var r :| r in added && r.hash == hash;
      FreshMember(Hashes(stored), rows, ok, r);
    }
    if r :| r in rows && ok(r) && r.hash == hash {
      FreshMember(Hashes(stored), rows, ok, r);
    }
  }

  /** A hash is stored exactly when some batch of the run brought an acceptable row of it. */
  lemma {:induction false} OfferedIsStored(dbs: seq<Db>, steps: seq<Step>, hash: string, ok: Row -> bool)
    requires IsRun(dbs, steps, ok)
    ensures hash in Hashes(Rows(dbs[|steps|].events)) <==> Offered(steps, hash, ok)
    decreases |steps|
  {
    if steps != [] {
      var n := |steps| - 1;
      var front := steps[..n];
      RunFront(dbs, steps, ok);
      OfferedIsStored(dbs[..n + 1], front, hash, ok);
      OfferedSnoc(front, steps[n], hash, ok);
      assert front + [steps[n]] == steps;
      if steps[n].Batch? {
        HashStored(Rows(dbs[n].events), Unique(steps[n].rows), hash, ok);
      }
    }
  }
}
