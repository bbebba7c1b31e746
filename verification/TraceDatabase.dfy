/** `insertTraceEvents` and `saveTraces` as they run against the tables, statement by statement. */
module TraceDatabase {
  import opened Basics
  import opened Sorting
  import opened TraceEvents
  import opened TraceStore

  predicate AllOk(rows: seq<Row>, ok: Row -> bool) {
    forall r :: r in rows ==> ok(r)
  }

  /** Whether a row conflicts does not depend on other rows of its batch. */
  lemma {:induction false} ConflictIsOld(stored: seq<Row>, rows: seq<Row>, r: Row, ok: Row -> bool)
    requires forall x :: x in rows ==> x.hash != r.hash
    ensures r.hash in Hashes(stored + FreshOf(Hashes(stored), rows, ok)) <==> r.hash in Hashes(stored)
  {
    HashStored(stored, rows, r.hash, ok);
  }

  lemma {:induction false} FreshSnoc(seen: set<string>, rows: seq<Row>, i: nat, ok: Row -> bool)
    requires i < |rows|
    ensures FreshOf(seen, rows[..i + 1], ok)
         == FreshOf(seen, rows[..i], ok) + if ok(rows[i]) && rows[i].hash !in seen then [rows[i]] else []
  {
    assert rows[..i + 1][..i] == rows[..i];
  }

  lemma {:induction false} HashesSnoc(rows: seq<Row>, r: Row)
    ensures Hashes(rows + [r]) == Hashes(rows) + {r.hash}
  {
    HashesConcat(rows, [r]);
  }

  lemma {:induction false} GrownNone(events: seq<Stored>, nextId: nat, more: nat)
    requires Ordered(events, nextId) && nextId <= more
    ensures Grown(events, nextId, events, more, [])
  {
    assert Rows(events) + [] == Rows(events);
  }

  lemma {:induction false} GrownOne(a: seq<Stored>, an: nat, b: seq<Stored>, bn: nat, added: seq<Row>, r: Row)
    requires Grown(a, an, b, bn, added) && bn > 0
    ensures Grown(a, an, b + [Stored(bn, r)], bn + 1, added + [r])
  {
    var c := b + [Stored(bn, r)];
    assert c[..|c| - 1] == b;
    assert (Rows(a) + added) + [r] == Rows(a) + (added + [r]);
  }

  lemma {:induction false} GrownSkip(a: seq<Stored>, an: nat, b: seq<Stored>, bn: nat, more: nat, added: seq<Row>)
    requires Grown(a, an, b, bn, added) && bn <= more
    ensures Grown(a, an, b, more, added)
  {}

  /** The rows whose hash the statements returned. */
  function Kept(rows: seq<Row>, inserted: set<string>): seq<Row> {
    if rows == [] then []
    else
      var r := rows[|rows| - 1];
      Kept(rows[..|rows| - 1], inserted) + if r.hash in inserted then [r] else []
  }

  lemma {:induction false} KeptWhere(rows: seq<Row>, inserted: set<string>, seen: set<string>, ok: Row -> bool)
    requires forall r :: r in rows ==> (r.hash in inserted <==> ok(r) && r.hash !in seen)
    ensures Kept(rows, inserted) == FreshOf(seen, rows, ok)
    decreases |rows|
  {
    if rows != [] {
      assert rows[|rows| - 1] in rows;
      KeptWhere(rows[..|rows| - 1], inserted, seen, ok);
    }
  }

  lemma {:induction false} KeptIsFresh(rows: seq<Row>, seen: set<string>, ok: Row -> bool)
    requires DistinctHashes(rows)
    ensures Kept(rows, Hashes(FreshOf(seen, rows, ok))) == FreshOf(seen, rows, ok)
  {
    var added := FreshOf(seen, rows, ok);
    forall r | r in rows ensures r.hash in Hashes(added) <==> ok(r) && r.hash !in seen {
      FreshMember(seen, rows, ok, r);
      if r.hash in Hashes(added) {
        var x :| x in added && x.hash == r.hash;
        FreshMember(seen, rows, ok, x);
        assert x == r;
      }
    }
    KeptWhere(rows, Hashes(added), seen, ok);
  }

  lemma {:induction false} NoneRejected(rows: seq<Row>, ok: Row -> bool)
    requires AllOk(rows, ok)
    ensures RejectedOf(rows, ok) == []
    decreases |rows|
  {
    if rows != [] {
      assert rows[|rows| - 1] in rows;
      NoneRejected(rows[..|rows| - 1], ok);
    }
  }

  lemma {:induction false} SortedSame(span: string, events: seq<Event>)
    ensures Summary(span, SortByTime(events)) == Summary(span, events)
  {
    SortSorts(events, TIME);
    SortedStays(SortByTime(events), TIME);
  }

  method Dedupe(rows: seq<Row>) returns (unique: seq<Row>)
    ensures unique == Unique(rows) && DistinctHashes(unique)
  {
    unique := [];
    assert rows[..0] == [];
    for i := 0 to |rows|
      invariant unique == Unique(rows[..i])
    {
      assert rows[..i + 1][..i] == rows[..i];
      unique := SetRow(unique, rows[i]);
    }
    assert rows[..|rows|] == rows;
    UniqueHashes(rows);
  }

  class Database {
    var events: seq<Stored>
    var nextId: nat
    var traces: map<string, Trace>

    constructor ()
      ensures Valid() && events == [] && traces == map[]
    {
      events, nextId, traces := [], 1, map[];
    }

    ghost predicate Valid()
      reads this
    {
      nextId > 0 && Ordered(events, nextId)
    }

    ghost function State(): Db
      reads this
    {
      Db(events, nextId, traces)
    }

    /** One row with `on conflict do nothing`: its id is used up either way. */
    method InsertRow(r: Row) returns (inserted: bool)
      requires Valid()
      modifies this`events, this`nextId
      ensures Valid() && nextId == old(nextId) + 1
      ensures inserted <==> r.hash !in Hashes(Rows(old(events)))
      ensures events == old(events) + if inserted then [Stored(old(nextId), r)] else []
    {
      inserted := r.hash !in Hashes(Rows(events));
      if inserted {
        events := events + [Stored(nextId, r)];
      }
      nextId := nextId + 1;
    }

    /** `insertChunk`: all its rows, or nothing and an error when one is rejected. */
    method InsertChunk(rows: seq<Row>, ok: Row -> bool) returns (r: Option<set<string>>)
      requires Valid() && DistinctHashes(rows)
      modifies this`events, this`nextId
      ensures Valid() && (r.Some? <==> AllOk(rows, ok))
      ensures r.None? ==> events == old(events) && old(nextId) <= nextId
      ensures r.Some? ==>
        var added := FreshOf(Hashes(Rows(old(events))), rows, ok);
        Grown(old(events), old(nextId), events, nextId, added) && r.value == Hashes(added)
    {
      if !AllOk(rows, ok) {
        var lost: nat :| lost >= 0;
        nextId := nextId + lost;
        return None;
      }
      ghost var stored := Rows(events);
      ghost var seen := Hashes(stored);
      var hashes := {};
      assert rows[..0] == [];
      GrownNone(events, nextId, nextId);
      for i := 0 to |rows|
        invariant Valid()
        invariant Grown(old(events), old(nextId), events, nextId, FreshOf(seen, rows[..i], ok))
        invariant hashes == Hashes(FreshOf(seen, rows[..i], ok))
      {
        ghost var before, beforeId, done := events, nextId, FreshOf(seen, rows[..i], ok);
        ConflictIsOld(stored, rows[..i], rows[i], ok);
        FreshSnoc(seen, rows, i, ok);
        assert rows[i] in rows;
        var inserted := InsertRow(rows[i]);
        if inserted {
          hashes := hashes + {rows[i].hash};
          HashesSnoc(done, rows[i]);
          GrownOne(old(events), old(nextId), before, beforeId, done, rows[i]);
        } else {
          GrownSkip(old(events), old(nextId), before, beforeId, nextId, done);
          assert done + [] == done && before + [] == before;
        }
      }
      assert rows[..|rows|] == rows;
      return Some(hashes);
    }

    /** Every chunk of the batch, until one fails. */
    method InsertBatch(rows: seq<Row>, ok: Row -> bool) returns (r: Option<set<string>>)
      requires Valid() && DistinctHashes(rows)
      modifies this`events, this`nextId
      ensures nextId >= old(nextId) && (r.Some? <==> AllOk(rows, ok))
      ensures r.Some? ==>
        var added := FreshOf(Hashes(Rows(old(events))), rows, ok);
        Valid() && Grown(old(events), old(nextId), events, nextId, added) && r.value == Hashes(added)
    {
      var hashes, start := {}, 0;
      assert rows[..0] == [];
      GrownNone(events, nextId, nextId);
      ghost var stored := Rows(events);
      while start < |rows|
        invariant 0 <= start <= |rows| && Valid() && AllOk(rows[..start], ok)
        invariant Grown(old(events), old(nextId), events, nextId, FreshOf(Hashes(stored), rows[..start], ok))
        invariant hashes == Hashes(FreshOf(Hashes(stored), rows[..start], ok))
      {
        var stop := if start + INSERT_CHUNK < |rows| then start + INSERT_CHUNK else |rows|;
        ghost var before, beforeId := events, nextId;
        assert rows[start..stop] <= rows[start..];
        var chunk := InsertChunk(rows[start..stop], ok);
        if chunk.None? {
          assert exists x :: x in rows[start..stop] && !ok(x);
          return None;
        }
        ChunkAdds(stored, rows, start, stop, ok);
        GrownMore(old(events), old(nextId), before, beforeId, events, nextId,
          FreshOf(Hashes(stored), rows[..start], ok), FreshOf(Hashes(stored), rows[start..stop], ok));
        hashes := hashes + chunk.value;
        start := stop;
      }
      assert rows[..|rows|] == rows;
      return Some(hashes);
    }

    /** The fallback: each row in its own savepoint, the rejected ones reported. */
    method InsertEach(rows: seq<Row>, ok: Row -> bool) returns (hashes: set<string>, rejected: seq<Row>)
      requires Valid() && DistinctHashes(rows)
      modifies this`events, this`nextId
      ensures Valid() && rejected == RejectedOf(rows, ok)
      ensures
        var added := FreshOf(Hashes(Rows(old(events))), rows, ok);
        Grown(old(events), old(nextId), events, nextId, added) && hashes == Hashes(added)
    {
      hashes, rejected := {}, [];
      assert rows[..0] == [];
      GrownNone(events, nextId, nextId);
      ghost var stored := Rows(events);
      for i := 0 to |rows|
        invariant Valid() && rejected == RejectedOf(rows[..i], ok)
        invariant Grown(old(events), old(nextId), events, nextId, FreshOf(Hashes(stored), rows[..i], ok))
        invariant hashes == Hashes(FreshOf(Hashes(stored), rows[..i], ok))
      {
        ghost var before, beforeId, done := events, nextId, FreshOf(Hashes(stored), rows[..i], ok);
        var chunk := InsertChunk([rows[i]], ok);
        OneAdds(stored, rows, i, ok);
        if chunk.Some? {
          GrownMore(old(events), old(nextId), before, beforeId, events, nextId,
            done, FreshOf(Hashes(stored), [rows[i]], ok));
          hashes := hashes + chunk.value;
        } else {
          GrownSkip(old(events), old(nextId), before, beforeId, nextId, done);
          rejected := rejected + [rows[i]];
        }
      }
      assert rows[..|rows|] == rows;
    }

    /** Regroups the traces of these spans from all their stored events. */
    method SaveTraces(spans: seq<string>)
      modifies this`traces
      ensures traces == Upserted(old(traces), Says(Rows(events)), spans)
    {
      assert spans[..0] == [];
      for i := 0 to |spans|
        invariant traces == Upserted(old(traces), Says(Rows(events)), spans[..i])
      {
        assert spans[..i + 1][..i] == spans[..i];
        var span := spans[i];
        var ordered := Sort(OfSpan(Rows(events), span), TIME);
        SortedSame(span, OfSpan(Rows(events), span));
        var trace := SummarizeSpan(span, ordered);
        assert trace == Says(Rows(events))(span);
        if trace.Some? {
          traces := traces[span := trace.value];
        }
      }
      assert spans[..|spans|] == spans;
    }

    /**
     `insertTraceEvents`: whichever way the batch went in, the table gains the acceptable new rows and
     no others, those are returned, the rejected rows are reported, and the traces follow.
     */
    method InsertTraceEvents(rows: seq<Row>, ok: Row -> bool) returns (added: seq<Row>, rejected: seq<Row>)
      requires Valid()
      modifies this
      ensures Valid() && Committed(old(State()), State(), rows, added, rejected, ok)
    {
      var unique := Dedupe(rows);
      ghost var seen := Hashes(Rows(events));
      GrownNone(events, nextId, nextId);
      if unique == [] {
        return [], [];
      }
      var savepoint := events;
      var bulk := InsertBatch(unique, ok);
      var hashes: set<string>;
      if bulk.Some? {
        NoneRejected(unique, ok);
        hashes, rejected := bulk.value, [];
      } else {
        ghost var later := nextId;
        events := savepoint;
        hashes, rejected := InsertEach(unique, ok);
        GrownNone(savepoint, old(nextId), later);
        assert Grown(savepoint, later, events, nextId, FreshOf(seen, unique, ok));
        GrownMore(savepoint, old(nextId), savepoint, later, events, nextId, [], FreshOf(seen, unique, ok));
        assert [] + FreshOf(seen, unique, ok) == FreshOf(seen, unique, ok);
      }
      KeptIsFresh(unique, seen, ok);
      added := Kept(unique, hashes);
      SaveTraces(SpansOf(added));
    }

    /** `pruneTraces`: row by row, events and then traces, each with a time of its own. */
    method PruneTraces(eventsBefore: int, tracesBefore: int) returns (deleted: nat)
      requires Valid()
      modifies this`events, this`traces
      ensures Valid()
      ensures events == Where(old(events), YoungEvent(eventsBefore)) && traces == YoungTraces(old(traces), tracesBefore)
      ensures deleted == |old(events)| - |events| + |old(traces)| - |traces|
    {
      OrderedWhere(events, nextId, YoungEvent(eventsBefore));
      var kept := KeepEvents(events, eventsBefore);
      var left := KeepTraces(traces, tracesBefore);
      deleted := |events| - |kept| + |traces| - |left|;
      events, traces := kept, left;
    }
  }

  method KeepEvents(events: seq<Stored>, before: int) returns (kept: seq<Stored>)
    ensures kept == Where(events, YoungEvent(before)) && |kept| <= |events|
  {
    kept := [];
    assert events[..0] == [];
    for i := 0 to |events|
      invariant kept == Where(events[..i], YoungEvent(before)) && |kept| <= i
    {
      assert events[..i + 1][..i] == events[..i];
      if events[i].row.event.at >= before {
        kept := kept + [events[i]];
      }
    }
    assert events[..|events|] == events;
  }

  method KeepTraces(traces: map<string, Trace>, before: int) returns (left: map<string, Trace>)
    ensures left == YoungTraces(traces, before) && |left| <= |traces|
  {
    left := traces;
    var spans := traces.Keys;
    while spans != {}
      invariant spans <= traces.Keys && |left| <= |traces|
      invariant forall k :: k in left <==> k in traces && (k in spans || traces[k].startedAt >= before)
      invariant forall k :: k in left ==> left[k] == traces[k]
    {
      var span :| span in spans;
      spans := spans - {span};
      if traces[span].startedAt < before {
        RemoveTrace(left, span);
        left := left - {span};
      }
    }
    assert left == YoungTraces(traces, before);
  }

  lemma {:induction false} RemoveTrace(traces: map<string, Trace>, span: string)
    requires span in traces
    ensures |traces - {span}| == |traces| - 1
  {
    assert (traces - {span}).Keys == traces.Keys - {span};
  }

  lemma {:induction false} ChunkAdds(stored: seq<Row>, rows: seq<Row>, start: nat, stop: nat, ok: Row -> bool)
    requires start <= stop <= |rows| && DistinctHashes(rows) && AllOk(rows[..start], ok) && AllOk(rows[start..stop], ok)
    ensures
      var first, chunk := FreshOf(Hashes(stored), rows[..start], ok), FreshOf(Hashes(stored), rows[start..stop], ok);
      && FreshOf(Hashes(stored + first), rows[start..stop], ok) == chunk
      && FreshOf(Hashes(stored), rows[..stop], ok) == first + chunk
      && Hashes(first + chunk) == Hashes(first) + Hashes(chunk)
    ensures AllOk(rows[..stop], ok)
  {
    var a, b := rows[..start], rows[start..stop];
    var first := FreshOf(Hashes(stored), a, ok);
    assert rows[..stop] == a + b;
    FreshConcat(Hashes(stored), a, b, ok);
    HashesConcat(first, FreshOf(Hashes(stored), b, ok));
    HashesConcat(stored, first);
    forall r | r in b ensures r.hash !in Hashes(first) {
      if r.hash in Hashes(first) {
        var x :| x in first && x.hash == r.hash;
        FreshMember(Hashes(stored), a, ok, x);
        Elsewhere(rows, start, stop, x, r);
      }
    }
    FreshUnaffected(Hashes(stored), Hashes(first), b, ok);
  }

  lemma {:induction false} Elsewhere(rows: seq<Row>, start: nat, stop: nat, x: Row, r: Row)
    requires start <= stop <= |rows| && DistinctHashes(rows) && x in rows[..start] && r in rows[start..stop]
    ensures x.hash != r.hash
  {
    var i :| 0 <= i < start && rows[i] == x;
    var j :| 0 <= j < stop - start && rows[start..stop][j] == r;
    assert rows[start + j] == r;
  }

  lemma {:induction false} OneAdds(stored: seq<Row>, rows: seq<Row>, i: nat, ok: Row -> bool)
    requires i < |rows| && DistinctHashes(rows)
    ensures
      var first, one := FreshOf(Hashes(stored), rows[..i], ok), FreshOf(Hashes(stored), [rows[i]], ok);
      && FreshOf(Hashes(stored + first), [rows[i]], ok) == one
      && FreshOf(Hashes(stored), rows[..i + 1], ok) == first + one
      && Hashes(first + one) == Hashes(first) + Hashes(one)
    ensures !ok(rows[i]) ==> FreshOf(Hashes(stored), [rows[i]], ok) == []
    ensures RejectedOf(rows[..i + 1], ok) == RejectedOf(rows[..i], ok) + if ok(rows[i]) then [] else [rows[i]]
  {
    var first := FreshOf(Hashes(stored), rows[..i], ok);
    assert rows[..i + 1] == rows[..i] + [rows[i]];
    assert rows[..i + 1][..i] == rows[..i] && [rows[i]][..0] == [];
    FreshConcat(Hashes(stored), rows[..i], [rows[i]], ok);
    HashesConcat(first, FreshOf(Hashes(stored), [rows[i]], ok));
    ConflictIsOld(stored, rows[..i], rows[i], ok);
  }
}
