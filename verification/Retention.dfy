/**
 `pruneTraces` of console/src/lib/traceStore.ts beside everything else: batches that commit or roll back, and
 deletions of old events and of old traces, in any order; and a live feed that polls in between.
 */
module Retention {
  import opened Basics
  import opened TraceEvents
  import opened TraceStore
  import L = LiveFeed

  /** What happens to the tables; times before which rows go are inputs. */
  datatype Move = Commit(step: Step) | PruneEvents(before: int) | PruneTraces(before: int)

  ghost predicate IsMove(db: Db, move: Move, next: Db, ok: Row -> bool) {
    match move
    case Commit(step) => IsStep(db, step, next, ok)
    case PruneEvents(before) => next == Db(Where(db.events, YoungEvent(before)), db.nextId, db.traces)
    case PruneTraces(before) => next == Db(db.events, db.nextId, YoungTraces(db.traces, before))
  }

  ghost predicate IsLife(dbs: seq<Db>, moves: seq<Move>, ok: Row -> bool) {
    && |dbs| == |moves| + 1
    && dbs[0].events == [] && dbs[0].traces == map[]
    && forall i {:trigger moves[i]} :: 0 <= i < |moves| ==> IsMove(dbs[i], moves[i], dbs[i + 1], ok)
  }

  lemma {:induction false} LifeFront(dbs: seq<Db>, moves: seq<Move>, ok: Row -> bool)
    requires IsLife(dbs, moves, ok) && moves != []
    ensures
      var n := |moves| - 1;
      IsLife(dbs[..n + 1], moves[..n], ok) && IsMove(dbs[n], moves[n], dbs[n + 1], ok)
  {
    var n := |moves| - 1;
    var front, shorter := moves[..n], dbs[..n + 1];
    forall i {:trigger front[i]} | 0 <= i < n ensures IsMove(shorter[i], front[i], shorter[i + 1], ok) {
      assert moves[i] == front[i];
    }
  }

  // ---------------------------------------------------------------- the history of a table

  /** An event ever stored, and the move that stored it. */
  datatype Entry = Entry(stored: Stored, move: nat)

  function Entries(events: seq<Stored>, move: nat): seq<Entry> {
    seq(|events|, i requires 0 <= i < |events| => Entry(events[i], move))
  }

  /** All events ever stored, in order. */
  function History(dbs: seq<Db>, moves: seq<Move>): seq<Entry>
    requires |dbs| == |moves| + 1
    decreases |moves|
  {
    if moves == [] then []
    else
      var n := |moves| - 1;
      History(dbs[..n + 1], moves[..n])
        + if moves[n].Commit? && |dbs[n].events| <= |dbs[n + 1].events|
          then Entries(dbs[n + 1].events[|dbs[n].events|..], n) else []
  }

  function Log(h: seq<Entry>): seq<Stored> {
    seq(|h|, i requires 0 <= i < |h| => h[i].stored)
  }

  /** A later deletion took it. */
  predicate Taken(e: Entry, moves: seq<Move>) {
    exists k :: e.move < k < |moves| && Takes(moves[k], e.stored)
  }

  predicate Takes(move: Move, e: Stored) {
    move.PruneEvents? && e.row.event.at < move.before
  }

  function Untaken(h: seq<Entry>, moves: seq<Move>): seq<Stored> {
    if h == [] then []
    else Untaken(h[..|h| - 1], moves) + if Taken(h[|h| - 1], moves) then [] else [h[|h| - 1].stored]
  }

  ghost predicate MovesBelow(h: seq<Entry>, n: nat) {
    forall i :: 0 <= i < |h| ==> h[i].move < n
  }

  lemma {:induction false} TakenSnoc(e: Entry, moves: seq<Move>, move: Move)
    requires e.move <= |moves|
    ensures Taken(e, moves + [move]) <==> Taken(e, moves) || (e.move < |moves| && Takes(move, e.stored))
  {
    var all := moves + [move];
    if Taken(e, all) {
      var k :| e.move < k < |all| && Takes(all[k], e.stored);
      if k < |moves| {
        assert Takes(moves[k], e.stored);
      }
    }
    if Taken(e, moves) {
      var k :| e.move < k < |moves| && Takes(moves[k], e.stored);
      assert Takes(all[k], e.stored);
    }
    if e.move < |moves| && Takes(move, e.stored) {
      assert Takes(all[|moves|], e.stored);
    }
  }

  lemma {:induction false} UntakenStays(h: seq<Entry>, moves: seq<Move>, move: Move)
    requires MovesBelow(h, |moves|) && !move.PruneEvents?
    ensures Untaken(h, moves + [move]) == Untaken(h, moves)
    decreases |h|
  {
    if h != [] {
      UntakenStays(h[..|h| - 1], moves, move);
      TakenSnoc(h[|h| - 1], moves, move);
    }
  }

  lemma {:induction false} UntakenPruned(h: seq<Entry>, moves: seq<Move>, before: int)
    requires MovesBelow(h, |moves|)
    ensures Untaken(h, moves + [PruneEvents(before)]) == Where(Untaken(h, moves), YoungEvent(before))
    decreases |h|
  {
    if h != [] {
      var front, last := h[..|h| - 1], h[|h| - 1];
      UntakenPruned(front, moves, before);
      TakenSnoc(last, moves, PruneEvents(before));
      L.WhereConcat(Untaken(front, moves), if Taken(last, moves) then [] else [last.stored], YoungEvent(before));
      if !Taken(last, moves) {
        WhereOne(last.stored, YoungEvent(before));
      }
    }
  }

  lemma {:induction false} WhereOne(e: Stored, p: Stored -> bool)
    ensures Where([e], p) == if p(e) then [e] else []
  {
    assert [e][..0] == [];
  }

  lemma {:induction false} UntakenConcat(a: seq<Entry>, b: seq<Entry>, moves: seq<Move>)
    ensures Untaken(a + b, moves) == Untaken(a, moves) + Untaken(b, moves)
    decreases |b|
  {
    if b == [] {
      assert a + b == a;
    } else {
      assert (a + b)[..|a + b| - 1] == a + b[..|b| - 1];
      UntakenConcat(a, b[..|b| - 1], moves);
    }
  }

  lemma {:induction false} UntakenNew(events: seq<Stored>, moves: seq<Move>, n: nat)
    requires |moves| <= n + 1
    ensures Untaken(Entries(events, n), moves) == events
    decreases |events|
  {
    if events != [] {
      var front := events[..|events| - 1];
      assert Entries(events, n)[..|events| - 1] == Entries(front, n);
      UntakenNew(front, moves, n);
      assert !Taken(Entry(events[|events| - 1], n), moves);
      assert events == front + [events[|events| - 1]];
    }
  }

  /** What a move adds to the history. */
  function NewEntries(db: Db, move: Move, next: Db, n: nat): seq<Entry> {
    if move.Commit? && |db.events| <= |next.events| then Entries(next.events[|db.events|..], n) else []
  }

  lemma {:induction false} CommitKeepsTable(db: Db, step: Step, next: Db, h: seq<Entry>, moves: seq<Move>)
    requires MovesBelow(h, |moves|) && db.events == Untaken(h, moves) && db.events <= next.events
    ensures next.events == Untaken(h + NewEntries(db, Commit(step), next, |moves|), moves + [Commit(step)])
  {
    var more := next.events[|db.events|..];
    UntakenConcat(h, Entries(more, |moves|), moves + [Commit(step)]);
    UntakenStays(h, moves, Commit(step));
    UntakenNew(more, moves + [Commit(step)], |moves|);
    assert next.events == db.events + more;
  }

  lemma {:induction false} MoveKeepsTable(db: Db, move: Move, next: Db, h: seq<Entry>, moves: seq<Move>, ok: Row -> bool)
    requires IsMove(db, move, next, ok) && MovesBelow(h, |moves|) && db.events == Untaken(h, moves)
    ensures next.events == Untaken(h + NewEntries(db, move, next, |moves|), moves + [move])
  {
    match move
    case Commit(step) =>
      L.StepExtends(db, step, next, ok);
      CommitKeepsTable(db, step, next, h, moves);
    case PruneEvents(before) =>
      assert h + [] == h;
      UntakenPruned(h, moves, before);
    case PruneTraces(before) =>
      assert h + [] == h;
      UntakenStays(h, moves, move);
  }

  // ---------------------------------------------------------------- hashes and ids

  /** The same event is stored again only after a deletion took it. */
  ghost predicate AgainOnlyAfterTaken(h: seq<Entry>, moves: seq<Move>) {
    forall i, j :: 0 <= i < j < |h| && h[i].stored.row.hash == h[j].stored.row.hash ==>
      h[j].move <= |moves| && Taken(h[i], moves[..h[j].move])
  }

  /** Ids of all events ever stored rise, below the next. */
  ghost predicate LogOrdered(h: seq<Entry>, nextId: nat) {
    Ordered(Log(h), nextId)
  }

  lemma {:induction false} UntakenMember(h: seq<Entry>, moves: seq<Move>, i: nat)
    requires i < |h| && !Taken(h[i], moves)
    ensures h[i].stored in Untaken(h, moves)
    decreases |h|
  {
    if i < |h| - 1 {
      assert h[..|h| - 1][i] == h[i];
      UntakenMember(h[..|h| - 1], moves, i);
    }
  }

  lemma {:induction false} RowsMember(events: seq<Stored>, e: Stored)
    requires e in events
    ensures e.row in Rows(events)
    decreases |events|
  {
    if e != events[|events| - 1] {
      assert events == events[..|events| - 1] + [events[|events| - 1]];
      RowsMember(events[..|events| - 1], e);
    }
  }

  lemma {:induction false} RowsAt(events: seq<Stored>)
    ensures |Rows(events)| == |events| && forall i :: 0 <= i < |events| ==> Rows(events)[i] == events[i].row
    decreases |events|
  {
    if events != [] {
      RowsAt(events[..|events| - 1]);
    }
  }

  lemma {:induction false} RowsConcat(a: seq<Stored>, b: seq<Stored>)
    ensures Rows(a + b) == Rows(a) + Rows(b)
    decreases |b|
  {
    if b == [] {
      assert a + b == a;
    } else {
      assert (a + b)[..|a + b| - 1] == a + b[..|b| - 1];
      RowsConcat(a, b[..|b| - 1]);
    }
  }

  ghost predicate DistinctStored(events: seq<Stored>) {
    forall i, j :: 0 <= i < j < |events| ==> events[i].row.hash != events[j].row.hash
  }

  lemma {:induction false} DistinctIff(events: seq<Stored>)
    ensures DistinctHashes(Rows(events)) <==> DistinctStored(events)
  {
    RowsAt(events);
    if DistinctHashes(Rows(events)) {
      forall i, j | 0 <= i < j < |events| ensures events[i].row.hash != events[j].row.hash {
        assert Rows(events)[i].hash != Rows(events)[j].hash;
      }
    }
  }

  lemma {:induction false} DistinctWhere(events: seq<Stored>, p: Stored -> bool)
    requires DistinctStored(events)
    ensures DistinctStored(Where(events, p))
    decreases |events|
  {
    if events != [] {
      var front, last := events[..|events| - 1], events[|events| - 1];
      DistinctWhere(front, p);
      forall i | 0 <= i < |Where(front, p)| ensures Where(front, p)[i].row.hash != last.row.hash {
        WhereMember(front, p, Where(front, p)[i]);
      }
    }
  }

  /** What every move keeps of ids and hashes. */
  ghost predicate Sound(db: Db, h: seq<Entry>, moves: seq<Move>) {
    && Ordered(db.events, db.nextId) && DistinctHashes(Rows(db.events))
    && MovesBelow(h, |moves|) && db.events == Untaken(h, moves)
    && LogOrdered(h, db.nextId) && AgainOnlyAfterTaken(h, moves)
  }

  lemma {:induction false} LogGrows(h: seq<Entry>, db: Db, next: Db, n: nat)
    requires LogOrdered(h, db.nextId) && db.events <= next.events && db.nextId <= next.nextId
    requires Ordered(next.events, next.nextId) && IdsFrom(next.events, |db.events|, db.nextId)
    ensures LogOrdered(h + Entries(next.events[|db.events|..], n), next.nextId)
  {
    var all := Log(h + Entries(next.events[|db.events|..], n));
    forall i | 0 <= i < |all| ensures 0 < all[i].id < next.nextId {
      LogAt(h, next.events[|db.events|..], n, i);
    }
    forall i, j | 0 <= i < j < |all| ensures all[i].id < all[j].id {
      LogAt(h, next.events[|db.events|..], n, i);
      LogAt(h, next.events[|db.events|..], n, j);
    }
  }

  lemma {:induction false} LogAt(h: seq<Entry>, more: seq<Stored>, n: nat, i: nat)
    requires i < |h| + |more|
    ensures Log(h + Entries(more, n))[i] == if i < |h| then Log(h)[i] else more[i - |h|]
  {}

  lemma {:induction false} LogOlder(h: seq<Entry>, nextId: nat, later: nat)
    requires LogOrdered(h, nextId) && nextId <= later
    ensures LogOrdered(h, later)
  {}

  lemma {:induction false} AgainStays(h: seq<Entry>, moves: seq<Move>, move: Move)
    requires AgainOnlyAfterTaken(h, moves) && MovesBelow(h, |moves|)
    ensures AgainOnlyAfterTaken(h, moves + [move])
  {
    forall i, j | 0 <= i < j < |h| && h[i].stored.row.hash == h[j].stored.row.hash
      ensures Taken(h[i], (moves + [move])[..h[j].move])
    {
      assert (moves + [move])[..h[j].move] == moves[..h[j].move];
    }
  }

  /** A batch stores a hash again only when no event that stands has it. */
  lemma {:induction false} AgainGrows(h: seq<Entry>, moves: seq<Move>, move: Move, more: seq<Stored>)
    requires AgainOnlyAfterTaken(h, moves) && MovesBelow(h, |moves|) && DistinctHashes(Rows(more))
    requires forall e :: e in more ==> e.row.hash !in Hashes(Rows(Untaken(h, moves)))
    ensures AgainOnlyAfterTaken(h + Entries(more, |moves|), moves + [move])
  {
    var all, next := h + Entries(more, |moves|), moves + [move];
    AgainStays(h, moves, move);
    RowsAt(more);
    forall i, j | 0 <= i < j < |more| ensures more[i].row.hash != more[j].row.hash {
      assert Rows(more)[i] == more[i].row && Rows(more)[j] == more[j].row;
    }
    forall i, j | 0 <= i < j < |all| && all[i].stored.row.hash == all[j].stored.row.hash
      ensures all[j].move <= |next| && Taken(all[i], next[..all[j].move])
    {
      if j < |h| {
        assert all[i] == h[i] && all[j] == h[j];
      } else {
        assert all[j] == Entry(more[j - |h|], |moves|) && next[..|moves|] == moves;
        if i < |h| {
          OldHashTaken(h, moves, more, i, j - |h|);
        }
      }
    }
  }

  lemma {:induction false} OldHashTaken(h: seq<Entry>, moves: seq<Move>, more: seq<Stored>, i: nat, j: nat)
    requires i < |h| && j < |more| && h[i].stored.row.hash == more[j].row.hash
    requires forall e :: e in more ==> e.row.hash !in Hashes(Rows(Untaken(h, moves)))
    ensures Taken(h[i], moves)
  {
    assert more[j] in more;
    if !Taken(h[i], moves) {
      UntakenMember(h, moves, i);
      RowsMember(Untaken(h, moves), h[i].stored);
    }
  }

  lemma {:induction false} BatchRows(db: Db, next: Db, rows: seq<Row>, added: seq<Row>, rejected: seq<Row>, ok: Row -> bool)
    requires Committed(db, next, rows, added, rejected, ok)
    ensures db.events <= next.events && Rows(next.events[|db.events|..]) == added
    ensures DistinctHashes(added) && forall r :: r in added ==> r.hash !in Hashes(Rows(db.events))
  {
    var more := next.events[|db.events|..];
    assert next.events == db.events + more;
    RowsConcat(db.events, more);
    assert Rows(next.events)[|Rows(db.events)|..] == added;
    UniqueHashes(rows);
    FreshDistinct(Hashes(Rows(db.events)), Unique(rows), ok);
    forall r | r in added ensures r.hash !in Hashes(Rows(db.events)) {
      FreshMember(Hashes(Rows(db.events)), Unique(rows), ok, r);
    }
  }

  lemma {:induction false} BatchKeeps(db: Db, step: Step, next: Db, h: seq<Entry>, moves: seq<Move>, ok: Row -> bool)
    requires Sound(db, h, moves) && step.Batch? && IsStep(db, step, next, ok)
    ensures
      var all := h + NewEntries(db, Commit(step), next, |moves|);
      && Ordered(next.events, next.nextId) && DistinctHashes(Rows(next.events))
      && LogOrdered(all, next.nextId) && AgainOnlyAfterTaken(all, moves + [Commit(step)])
  {
    BatchRows(db, next, step.rows, step.added, step.rejected, ok);
    var more := next.events[|db.events|..];
    FreshKeepsDistinct(Rows(db.events), step.rows, ok);
    LogGrows(h, db, next, |moves|);
    forall e | e in more ensures e.row.hash !in Hashes(Rows(Untaken(h, moves))) {
      RowsMember(more, e);
    }
    AgainGrows(h, moves, Commit(step), more);
  }

  lemma {:induction false} BelowGrows(h: seq<Entry>, more: seq<Stored>, n: nat)
    requires MovesBelow(h, n)
    ensures MovesBelow(h + Entries(more, n), n + 1) && MovesBelow(h + [], n + 1)
  {}

  lemma {:induction false} QuietKeeps(db: Db, move: Move, next: Db, h: seq<Entry>, moves: seq<Move>, ok: Row -> bool)
    requires Sound(db, h, moves) && IsMove(db, move, next, ok) && !(move.Commit? && move.step.Batch?)
    ensures
      && Ordered(next.events, next.nextId) && DistinctHashes(Rows(next.events))
      && NewEntries(db, move, next, |moves|) == []
      && LogOrdered(h, next.nextId) && AgainOnlyAfterTaken(h, moves + [move])
  {
    AgainStays(h, moves, move);
    LogOlder(h, db.nextId, next.nextId);
    if move.PruneEvents? {
      OrderedWhere(db.events, db.nextId, YoungEvent(move.before));
      DistinctIff(db.events);
      DistinctWhere(db.events, YoungEvent(move.before));
      DistinctIff(next.events);
    }
  }

  lemma {:induction false} MoveKeeps(db: Db, move: Move, next: Db, h: seq<Entry>, moves: seq<Move>, ok: Row -> bool)
    requires Sound(db, h, moves) && IsMove(db, move, next, ok)
    ensures Sound(next, h + NewEntries(db, move, next, |moves|), moves + [move])
  {
    MoveKeepsTable(db, move, next, h, moves, ok);
    BelowGrows(h, if |db.events| <= |next.events| then next.events[|db.events|..] else [], |moves|);
    if move.Commit? && move.step.Batch? {
      BatchKeeps(db, move.step, next, h, moves, ok);
    } else {
      QuietKeeps(db, move, next, h, moves, ok);
      assert h + [] == h;
    }
  }

  lemma {:induction false} EmptyIsSound(db: Db)
    requires db.events == []
    ensures Sound(db, [], [])
  {}

  lemma {:induction false} HistorySnoc(dbs: seq<Db>, moves: seq<Move>)
    requires |dbs| == |moves| + 1 && moves != []
    ensures
      var n := |moves| - 1;
      && moves == moves[..n] + [moves[n]] && dbs[..n + 1][n] == dbs[n]
      && History(dbs, moves) == History(dbs[..n + 1], moves[..n]) + NewEntries(dbs[n], moves[n], dbs[n + 1], n)
  {}

  /**
   Over any run with deletions: the table is the history less what a later deletion took, ids rise over the
   whole history, no hash stands twice, and one is stored again only after it was taken.
   */
  lemma {:induction false} TableIsUntaken(dbs: seq<Db>, moves: seq<Move>, ok: Row -> bool)
    requires IsLife(dbs, moves, ok)
    ensures Sound(dbs[|moves|], History(dbs, moves), moves)
    decreases |moves|
  {
    if moves == [] {
      EmptyIsSound(dbs[0]);
    } else {
      var n := |moves| - 1;
      var front, h := moves[..n], History(dbs[..n + 1], moves[..n]);
      LifeFront(dbs, moves, ok);
      TableIsUntaken(dbs[..n + 1], front, ok);
      HistorySnoc(dbs, moves);
      MoveKeeps(dbs[n], moves[n], dbs[n + 1], h, front, ok);
    }
  }

  // ---------------------------------------------------------------- everything stored was fresh

  /** What the calls returned as fresh. */
  function Returned(moves: seq<Move>): seq<Row> {
    if moves == [] then []
    else
      var last := moves[|moves| - 1];
      Returned(moves[..|moves| - 1]) + if last.Commit? && last.step.Batch? then last.step.added else []
  }

  lemma {:induction false} LogConcat(a: seq<Entry>, b: seq<Entry>)
    ensures Log(a + b) == Log(a) + Log(b)
  {}

  lemma {:induction false} NewRows(db: Db, move: Move, next: Db, n: nat, ok: Row -> bool)
    requires IsMove(db, move, next, ok)
    ensures Rows(Log(NewEntries(db, move, next, n))) == if move.Commit? && move.step.Batch? then move.step.added else []
  {
    if move.Commit? {
      var more := next.events[|db.events|..];
      assert Log(Entries(more, n)) == more;
      if move.step.Batch? {
        BatchRows(db, next, move.step.rows, move.step.added, move.step.rejected, ok);
      }
    }
  }

  /** Deletions or not, every event ever stored was returned as fresh, once, in order. */
  lemma {:induction false} HistoryIsFresh(dbs: seq<Db>, moves: seq<Move>, ok: Row -> bool)
    requires IsLife(dbs, moves, ok)
    ensures Rows(Log(History(dbs, moves))) == Returned(moves)
    decreases |moves|
  {
    if moves != [] {
      var n := |moves| - 1;
      LifeFront(dbs, moves, ok);
      HistoryIsFresh(dbs[..n + 1], moves[..n], ok);
      var before, more := History(dbs[..n + 1], moves[..n]), NewEntries(dbs[n], moves[n], dbs[n + 1], n);
      NewRows(dbs[n], moves[n], dbs[n + 1], n, ok);
      LogConcat(before, more);
      RowsConcat(Log(before), Log(more));
    }
  }

  // ---------------------------------------------------------------- traces of whole spans

  /** No event of the span was taken. */
  ghost predicate Whole(h: seq<Entry>, moves: seq<Move>, span: string) {
    forall i :: 0 <= i < |h| && h[i].stored.row.span == Some(span) ==> !Taken(h[i], moves)
  }

  /** A deletion of traces with a later time than this. */
  predicate TraceTaken(moves: seq<Move>, startedAt: int) {
    exists k :: 0 <= k < |moves| && moves[k].PruneTraces? && startedAt < moves[k].before
  }

  /** The trace of a span is what its events say, or was deleted for its age. */
  ghost predicate TraceHolds(db: Db, moves: seq<Move>, span: string) {
    var says := Says(Rows(db.events))(span);
    || At(db.traces, span) == says
    || (At(db.traces, span).None? && says.Some? && TraceTaken(moves, says.value.startedAt))
  }

  lemma {:induction false} TraceTakenLater(moves: seq<Move>, move: Move, startedAt: int)
    ensures TraceTaken(moves, startedAt) ==> TraceTaken(moves + [move], startedAt)
    ensures move.PruneTraces? && startedAt < move.before ==> TraceTaken(moves + [move], startedAt)
  {
    var all := moves + [move];
    if TraceTaken(moves, startedAt) {
      var k :| 0 <= k < |moves| && moves[k].PruneTraces? && startedAt < moves[k].before;
      assert all[k] == moves[k];
    }
    if move.PruneTraces? && startedAt < move.before {
      assert all[|moves|] == move;
    }
  }

  lemma {:induction false} WholeBefore(h: seq<Entry>, more: seq<Entry>, moves: seq<Move>, move: Move, span: string)
    requires Whole(h + more, moves + [move], span) && MovesBelow(h, |moves|)
    ensures Whole(h, moves, span)
  {
    forall i | 0 <= i < |h| && h[i].stored.row.span == Some(span) ensures !Taken(h[i], moves) {
      assert (h + more)[i] == h[i];
      TakenSnoc(h[i], moves, move);
    }
  }

  lemma {:induction false} SpanKept(events: seq<Stored>, p: Stored -> bool, span: string)
    requires forall i :: 0 <= i < |events| && events[i].row.span == Some(span) ==> p(events[i])
    ensures OfSpan(Rows(Where(events, p)), span) == OfSpan(Rows(events), span)
    decreases |events|
  {
    if events != [] {
      var front, last := events[..|events| - 1], events[|events| - 1];
      SpanKept(front, p, span);
      RowsConcat(Where(front, p), if p(last) then [last] else []);
      OfSpanConcat(Rows(Where(front, p)), Rows(if p(last) then [last] else []), span);
      OneOfSpan(last, span);
      assert Rows(events) == Rows(front) + [last.row];
      OfSpanConcat(Rows(front), [last.row], span);
    }
  }

  lemma {:induction false} OneOfSpan(e: Stored, span: string)
    ensures Rows([e]) == [e.row] && OfSpan([e.row], span) == if e.row.span == Some(span) then [e.row.event] else []
  {
    assert [e][..0] == [] && [e.row][..0] == [];
  }

  /** In the table of a whole span no event is old enough to go. */
  lemma {:induction false} WholeIsYoung(h: seq<Entry>, moves: seq<Move>, before: int, span: string, e: Stored)
    requires MovesBelow(h, |moves|) && Whole(h, moves + [PruneEvents(before)], span)
    requires e in Untaken(h, moves) && e.row.span == Some(span)
    ensures YoungEvent(before)(e)
    decreases |h|
  {
    var front, last := h[..|h| - 1], h[|h| - 1];
    if last.stored == e {
      assert !Taken(h[|h| - 1], moves + [PruneEvents(before)]);
      TakenSnoc(last, moves, PruneEvents(before));
    } else {
      forall i | 0 <= i < |front| && front[i].stored.row.span == Some(span)
        ensures !Taken(front[i], moves + [PruneEvents(before)])
      {
        assert front[i] == h[i];
      }
      WholeIsYoung(front, moves, before, span, e);
    }
  }

  lemma {:induction false} BatchTraces(db: Db, step: Step, next: Db, moves: seq<Move>, span: string, ok: Row -> bool)
    requires step.Batch? && IsStep(db, step, next, ok) && TraceHolds(db, moves, span)
    ensures TraceHolds(next, moves + [Commit(step)], span)
  {
    var rows := Rows(db.events);
    UpsertedAt(db.traces, Says(rows + step.added), SpansOf(step.added), span);
    if span in SpansOf(step.added) {
      SummaryExists(span, OfSpan(rows, span));
      SummaryExists(span, OfSpan(rows + step.added, span));
      OfSpanConcat(rows, step.added, span);
      TraceStays(OfSpan(rows, span), OfSpan(step.added, span));
    } else {
      UntouchedSays(rows, step.added, span);
      if Says(rows)(span).Some? {
        TraceTakenLater(moves, Commit(step), Says(rows)(span).value.startedAt);
      }
    }
  }

  lemma {:induction false} PruneEventsTraces(db: Db, before: int, h: seq<Entry>, moves: seq<Move>, span: string)
    requires MovesBelow(h, |moves|) && db.events == Untaken(h, moves)
    requires Whole(h, moves + [PruneEvents(before)], span) && TraceHolds(db, moves, span)
    ensures TraceHolds(Db(Where(db.events, YoungEvent(before)), db.nextId, db.traces), moves + [PruneEvents(before)], span)
  {
    forall i | 0 <= i < |db.events| && db.events[i].row.span == Some(span) ensures YoungEvent(before)(db.events[i]) {
      WholeIsYoung(h, moves, before, span, db.events[i]);
    }
    SpanKept(db.events, YoungEvent(before), span);
    var says := Says(Rows(db.events))(span);
    if says.Some? {
      TraceTakenLater(moves, PruneEvents(before), says.value.startedAt);
    }
  }

  lemma {:induction false} OtherTraces(db: Db, move: Move, next: Db, moves: seq<Move>, span: string, ok: Row -> bool)
    requires IsMove(db, move, next, ok) && TraceHolds(db, moves, span)
    requires move.PruneTraces? || (move.Commit? && move.step.RolledBack?)
    ensures TraceHolds(next, moves + [move], span)
  {
    var says := Says(Rows(db.events))(span);
    if says.Some? {
      TraceTakenLater(moves, move, says.value.startedAt);
    }
  }

  /** Of every span none of whose events was taken, the trace is what all its events say, or went for its age. */
  lemma {:induction false} WholeSpansAreExact(dbs: seq<Db>, moves: seq<Move>, ok: Row -> bool, span: string)
    requires IsLife(dbs, moves, ok) && Whole(History(dbs, moves), moves, span)
    ensures TraceHolds(dbs[|moves|], moves, span)
    decreases |moves|
  {
    if moves == [] {
      EmptyView();
    } else {
      var n := |moves| - 1;
      var front, move := moves[..n], moves[n];
      var h, more := History(dbs[..n + 1], front), NewEntries(dbs[n], move, dbs[n + 1], n);
      LifeFront(dbs, moves, ok);
      TableIsUntaken(dbs[..n + 1], front, ok);
      assert front + [move] == moves;
      WholeBefore(h, more, front, move, span);
      WholeSpansAreExact(dbs[..n + 1], front, ok, span);
      if move.PruneEvents? {
        assert h + [] == h;
        PruneEventsTraces(dbs[n], move.before, h, front, span);
      } else if move.Commit? && move.step.Batch? {
        BatchTraces(dbs[n], move.step, dbs[n + 1], front, span, ok);
      } else {
        OtherTraces(dbs[n], move, dbs[n + 1], front, span, ok);
      }
    }
  }

  // ---------------------------------------------------------------- a feed over tables that lose rows

  function Held(table: seq<Stored>): Stored -> bool {
    (e: Stored) => e in table
  }

  /** Tables that are what is left of logs that only grow. */
  ghost predicate Thinned(logs: seq<seq<Stored>>, tables: seq<seq<Stored>>) {
    && |logs| == |tables| && L.Snapshots(logs)
    && forall i :: 0 <= i < |tables| ==> tables[i] == Where(logs[i], Held(tables[i]))
  }

  /** The poll that moved the cursor past an id. */
  function PassedBy(tables: seq<seq<Stored>>, limits: seq<int>, start: nat, matches: Row -> bool, id: nat): nat
    requires |limits| == |tables| > 0
    ensures PassedBy(tables, limits, start, matches, id) < |tables|
    decreases |tables|
  {
    var n := |tables| - 1;
    if n > 0 && id <= L.Feed(tables[..n], limits[..n], start, matches).cursor
    then PassedBy(tables[..n], limits[..n], start, matches, id)
    else n
  }

  /** It matches, the feed has passed it, and it still stood when it did. */
  predicate Delivered(tables: seq<seq<Stored>>, limits: seq<int>, start: nat, matches: Row -> bool, e: Stored)
    requires |limits| == |tables| > 0
  {
    && start < e.id <= L.Feed(tables, limits, start, matches).cursor && matches(e.row)
    && e in tables[PassedBy(tables, limits, start, matches, e.id)]
  }

  function DeliveredBy(tables: seq<seq<Stored>>, limits: seq<int>, start: nat, matches: Row -> bool): Stored -> bool
    requires |limits| == |tables| > 0
  {
    (e: Stored) => Delivered(tables, limits, start, matches, e)
  }

  lemma {:induction false} WhereSame(s: seq<Stored>, p: Stored -> bool, q: Stored -> bool)
    requires forall i :: 0 <= i < |s| ==> p(s[i]) == q(s[i])
    ensures Where(s, p) == Where(s, q)
    decreases |s|
  {
    if s != [] {
      WhereSame(s[..|s| - 1], p, q);
    }
  }

  function Both(p: Stored -> bool, q: Stored -> bool): Stored -> bool {
    (e: Stored) => p(e) && q(e)
  }

  lemma {:induction false} WhereTwice(s: seq<Stored>, p: Stored -> bool, q: Stored -> bool)
    ensures Where(Where(s, p), q) == Where(s, Both(p, q))
    decreases |s|
  {
    if s != [] {
      var front, last := s[..|s| - 1], s[|s| - 1];
      WhereTwice(front, p, q);
      L.WhereConcat(Where(front, p), if p(last) then [last] else [], q);
      WhereOne(last, q);
    }
  }

  lemma {:induction false} RisingWhere(log: seq<Stored>, p: Stored -> bool)
    requires L.Rising(log)
    ensures L.Rising(Where(log, p))
    decreases |log|
  {
    if log != [] {
      var front, last := log[..|log| - 1], log[|log| - 1];
      RisingWhere(front, p);
      forall i | 0 <= i < |Where(front, p)| ensures Where(front, p)[i].id < last.id {
        WhereMember(front, p, Where(front, p)[i]);
      }
    }
  }

  /** A condition that holds of no event past a cursor selects before it. */
  lemma {:induction false} WhereUpTo(log: seq<Stored>, cursor: nat, p: Stored -> bool)
    requires L.Rising(log) && forall e :: e in log && p(e) ==> e.id <= cursor
    ensures L.Position(log, cursor) <= |log| && Where(log, p) == Where(log[..L.Position(log, cursor)], p)
  {
    L.PositionSplits(log, cursor);
    var k := L.Position(log, cursor);
    assert log == log[..k] + log[k..];
    L.WhereConcat(log[..k], log[k..], p);
    forall i | 0 <= i < |log[k..]| ensures !p(log[k..][i]) {
      assert log[k..][i] == log[k + i] && log[k + i] in log;
    }
    L.WhereNone(log[k..], p);
  }

  lemma {:induction false} WhereFrom(log: seq<Stored>, cursor: nat, p: Stored -> bool)
    requires L.Rising(log) && forall e :: e in log && p(e) ==> e.id > cursor
    ensures L.Position(log, cursor) <= |log| && Where(log, p) == Where(log[L.Position(log, cursor)..], p)
  {
    L.PositionSplits(log, cursor);
    var k := L.Position(log, cursor);
    assert log == log[..k] + log[k..];
    L.WhereConcat(log[..k], log[k..], p);
    forall i | 0 <= i < |log[..k]| ensures !p(log[..k][i]) {
      assert log[..k][i] == log[i] && log[i] in log;
    }
    L.WhereNone(log[..k], p);
  }

  /** What one poll of a thinned table answers, in terms of the log. */
  lemma {:induction false} PollDelivers(log: seq<Stored>, table: seq<Stored>, after: nat, limit: int, matches: Row -> bool)
    requires L.Rising(log) && table == Where(log, Held(table))
    ensures
      var answer := L.Poll(table, after, limit, matches);
      && after <= answer.cursor
      && answer.events == Where(log, Both(Held(table), Both(L.IdWithin(after, answer.cursor), L.Matching(matches))))
  {
    var answer := L.Poll(table, after, limit, matches);
    RisingWhere(log, Held(table));
    L.PollIsExact(table, after, limit, matches);
    var within, matching := L.IdWithin(after, answer.cursor), L.Matching(matches);
    WhereTwice(table, within, matching);
    WhereTwice(log, Held(table), Both(within, matching));
  }

  lemma {:induction false} FeedMoves(tables: seq<seq<Stored>>, logs: seq<seq<Stored>>, limits: seq<int>, start: nat, matches: Row -> bool)
    requires Thinned(logs, tables) && |limits| == |tables|
    ensures start <= L.Feed(tables, limits, start, matches).cursor
    decreases |tables|
  {
    if tables != [] {
      var n := |tables| - 1;
      ThinnedFront(logs, tables);
      FeedMoves(tables[..n], logs[..n], limits[..n], start, matches);
      PollDelivers(logs[n], tables[n], L.Feed(tables[..n], limits[..n], start, matches).cursor, limits[n], matches);
    }
  }

  lemma {:induction false} ThinnedFront(logs: seq<seq<Stored>>, tables: seq<seq<Stored>>)
    requires Thinned(logs, tables) && tables != []
    ensures
      var n := |tables| - 1;
      && Thinned(logs[..n], tables[..n]) && L.Rising(logs[n]) && tables[n] == Where(logs[n], Held(tables[n]))
      && (n > 0 ==> logs[n - 1] <= logs[n])
  {
    L.SnapshotsFront(logs);
    var n := |tables| - 1;
    forall i | 0 <= i < n ensures tables[..n][i] == Where(logs[..n][i], Held(tables[..n][i])) {
      assert tables[..n][i] == tables[i] && logs[..n][i] == logs[i];
    }
  }

  /** What was delivered before stood in a log before. */
  lemma {:induction false} DeliveredIsOld(logs: seq<seq<Stored>>, tables: seq<seq<Stored>>, e: Stored, k: nat)
    requires Thinned(logs, tables) && k < |tables| && e in tables[k]
    ensures e in logs[|logs| - 1]
  {
    WhereMember(logs[k], Held(tables[k]), e);
    if k < |logs| - 1 {
      assert logs[k] <= logs[|logs| - 1];
      var i :| 0 <= i < |logs[k]| && logs[k][i] == e;
      assert logs[|logs| - 1][i] == e;
    }
  }

  lemma {:induction false} NewIsNotPast(log: seq<Stored>, past: seq<Stored>, i: nat)
    requires L.Rising(log) && past <= log && |past| + i < |log|
    ensures log[|past|..][i] !in past
  {
    forall k | 0 <= k < |past| ensures past[k] != log[|past|..][i] {
      assert past[k] == log[k] && log[k].id < log[|past| + i].id;
    }
  }

  /** On a longer log the earlier deliveries select the same. */
  lemma {:induction false} EarlierDeliveries(
      logs: seq<seq<Stored>>, tables: seq<seq<Stored>>, limits: seq<int>, start: nat, matches: Row -> bool, log: seq<Stored>)
    requires Thinned(logs, tables) && |limits| == |tables| > 0
    requires L.Rising(log) && logs[|logs| - 1] <= log
    ensures Where(log, DeliveredBy(tables, limits, start, matches))
         == Where(logs[|logs| - 1], DeliveredBy(tables, limits, start, matches))
  {
    var past, p := logs[|logs| - 1], DeliveredBy(tables, limits, start, matches);
    var more := log[|past|..];
    assert log == past + more;
    L.WhereConcat(past, more, p);
    forall i | 0 <= i < |more| ensures !p(more[i]) {
      NewIsNotPast(log, past, i);
      if p(more[i]) {
        DeliveredIsOld(logs, tables, more[i], PassedBy(tables, limits, start, matches, more[i].id));
      }
    }
    L.WhereNone(more, p);
  }

  /** What the last poll of a feed selects from the log. */
  function LastPoll(tables: seq<seq<Stored>>, limits: seq<int>, start: nat, matches: Row -> bool): Stored -> bool
    requires |limits| == |tables| > 0
  {
    var n := |tables| - 1;
    var after := L.Feed(tables[..n], limits[..n], start, matches).cursor;
    Both(Held(tables[n]), Both(L.IdWithin(after, L.Feed(tables, limits, start, matches).cursor), L.Matching(matches)))
  }

  lemma {:induction false} LastPollDelivers(
      logs: seq<seq<Stored>>, tables: seq<seq<Stored>>, limits: seq<int>, start: nat, matches: Row -> bool)
    requires Thinned(logs, tables) && |limits| == |tables| > 0
    ensures
      var n := |tables| - 1;
      var before, feed := L.Feed(tables[..n], limits[..n], start, matches), L.Feed(tables, limits, start, matches);
      && before.cursor <= feed.cursor
      && feed.events == before.events + Where(logs[n], LastPoll(tables, limits, start, matches))
  {
    var n := |tables| - 1;
    ThinnedFront(logs, tables);
    PollDelivers(logs[n], tables[n], L.Feed(tables[..n], limits[..n], start, matches).cursor, limits[n], matches);
  }

  lemma {:induction false} FirstDelivers(
      logs: seq<seq<Stored>>, tables: seq<seq<Stored>>, limits: seq<int>, start: nat, matches: Row -> bool)
    requires Thinned(logs, tables) && |limits| == |tables| == 1
    ensures L.Feed(tables, limits, start, matches).events == Where(logs[0], DeliveredBy(tables, limits, start, matches))
  {
    LastPollDelivers(logs, tables, limits, start, matches);
    var p, q := LastPoll(tables, limits, start, matches), DeliveredBy(tables, limits, start, matches);
    assert L.Feed(tables[..0], limits[..0], start, matches) == L.Answer(start, []);
    assert [] + Where(logs[0], p) == Where(logs[0], p);
    forall i | 0 <= i < |logs[0]| ensures p(logs[0][i]) == q(logs[0][i]) {
      FirstIsAll(tables, limits, start, matches, logs[0][i]);
    }
    WhereSame(logs[0], p, q);
  }

  lemma {:induction false} FirstIsAll(tables: seq<seq<Stored>>, limits: seq<int>, start: nat, matches: Row -> bool, e: Stored)
    requires |limits| == |tables| == 1
    ensures Delivered(tables, limits, start, matches, e) <==> LastPoll(tables, limits, start, matches)(e)
  {
    assert L.Feed(tables[..0], limits[..0], start, matches) == L.Answer(start, []);
  }

  /**
   Whatever commits and whatever is deleted between the polls, the answers joined together are exactly the
   matching events that the feed has passed and that no deletion took before it did, in order.
   */
  lemma {:induction false} FeedDelivers(
      logs: seq<seq<Stored>>, tables: seq<seq<Stored>>, limits: seq<int>, start: nat, matches: Row -> bool)
    requires Thinned(logs, tables) && |limits| == |tables| > 0
    ensures L.Feed(tables, limits, start, matches).events
         == Where(logs[|logs| - 1], DeliveredBy(tables, limits, start, matches))
    decreases |tables|
  {
    var n := |tables| - 1;
    if n == 0 {
      FirstDelivers(logs, tables, limits, start, matches);
    } else {
      ThinnedFront(logs, tables);
      FeedDelivers(logs[..n], tables[..n], limits[..n], start, matches);
      EarlierDeliveries(logs[..n], tables[..n], limits[..n], start, matches, logs[n]);
      FeedMoves(tables[..n], logs[..n], limits[..n], start, matches);
      LastPollDelivers(logs, tables, limits, start, matches);
      DeliveriesJoin(logs[n], tables, limits, start, matches);
    }
  }

  /** The deliveries up to a cursor are those of the polls that reached it. */
  lemma {:induction false} EarlyDeliveries(
      log: seq<Stored>, tables: seq<seq<Stored>>, limits: seq<int>, start: nat, matches: Row -> bool, k: nat)
    requires L.Rising(log) && |limits| == |tables| > 1
    requires
      var n := |tables| - 1;
      var cursor := L.Feed(tables[..n], limits[..n], start, matches).cursor;
      k == L.Position(log, cursor) <= |log| && cursor <= L.Feed(tables, limits, start, matches).cursor
    ensures
      var n := |tables| - 1;
      Where(log[..k], DeliveredBy(tables, limits, start, matches))
        == Where(log, DeliveredBy(tables[..n], limits[..n], start, matches))
  {
    var n := |tables| - 1;
    var cursor := L.Feed(tables[..n], limits[..n], start, matches).cursor;
    var all, early := DeliveredBy(tables, limits, start, matches), DeliveredBy(tables[..n], limits[..n], start, matches);
    L.PositionSplits(log, cursor);
    WhereUpTo(log, cursor, early);
    forall i | 0 <= i < |log[..k]| ensures all(log[..k][i]) == early(log[..k][i]) {
      assert log[..k][i] == log[i];
      EarlyIsAll(tables, limits, start, matches, log[i]);
    }
    WhereSame(log[..k], all, early);
  }

  lemma {:induction false} LateDeliveries(
      log: seq<Stored>, tables: seq<seq<Stored>>, limits: seq<int>, start: nat, matches: Row -> bool, k: nat)
    requires L.Rising(log) && |limits| == |tables| > 1
    requires
      var n := |tables| - 1;
      var cursor := L.Feed(tables[..n], limits[..n], start, matches).cursor;
      k == L.Position(log, cursor) <= |log| && start <= cursor
    ensures Where(log[k..], DeliveredBy(tables, limits, start, matches)) == Where(log, LastPoll(tables, limits, start, matches))
  {
    var n := |tables| - 1;
    var cursor := L.Feed(tables[..n], limits[..n], start, matches).cursor;
    var all, late := DeliveredBy(tables, limits, start, matches), LastPoll(tables, limits, start, matches);
    L.PositionSplits(log, cursor);
    WhereFrom(log, cursor, late);
    forall i | 0 <= i < |log[k..]| ensures all(log[k..][i]) == late(log[k..][i]) {
      assert log[k..][i] == log[k + i];
      LateIsAll(tables, limits, start, matches, log[k + i]);
    }
    WhereSame(log[k..], all, late);
  }

  /** Deliveries up to a cursor, and those of the poll that starts there. */
  lemma {:induction false} DeliveriesJoin(
      log: seq<Stored>, tables: seq<seq<Stored>>, limits: seq<int>, start: nat, matches: Row -> bool)
    requires L.Rising(log) && |limits| == |tables| > 1
    requires
      var n := |tables| - 1;
      var before := L.Feed(tables[..n], limits[..n], start, matches);
      start <= before.cursor <= L.Feed(tables, limits, start, matches).cursor
    ensures
      var n := |tables| - 1;
      Where(log, DeliveredBy(tables, limits, start, matches))
        == Where(log, DeliveredBy(tables[..n], limits[..n], start, matches)) + Where(log, LastPoll(tables, limits, start, matches))
  {
    var n := |tables| - 1;
    var cursor := L.Feed(tables[..n], limits[..n], start, matches).cursor;
    var k := L.Position(log, cursor);
    L.PositionSplits(log, cursor);
    assert log == log[..k] + log[k..];
    L.WhereConcat(log[..k], log[k..], DeliveredBy(tables, limits, start, matches));
    EarlyDeliveries(log, tables, limits, start, matches, k);
    LateDeliveries(log, tables, limits, start, matches, k);
  }

  lemma {:induction false} EarlyIsAll(tables: seq<seq<Stored>>, limits: seq<int>, start: nat, matches: Row -> bool, e: Stored)
    requires |limits| == |tables| > 1
    requires
      var n := |tables| - 1;
      e.id <= L.Feed(tables[..n], limits[..n], start, matches).cursor <= L.Feed(tables, limits, start, matches).cursor
    ensures
      var n := |tables| - 1;
      Delivered(tables, limits, start, matches, e) <==> Delivered(tables[..n], limits[..n], start, matches, e)
  {}

  lemma {:induction false} LateIsAll(tables: seq<seq<Stored>>, limits: seq<int>, start: nat, matches: Row -> bool, e: Stored)
    requires |limits| == |tables| > 1
    requires
      var n := |tables| - 1;
      start <= L.Feed(tables[..n], limits[..n], start, matches).cursor < e.id
    ensures Delivered(tables, limits, start, matches, e) <==> LastPoll(tables, limits, start, matches)(e)
  {}

  // ---------------------------------------------------------------- the store behind it

  /** All that was ever stored, by a moment of a run. */
  function LogBy(dbs: seq<Db>, moves: seq<Move>, i: nat): seq<Stored>
    requires |dbs| == |moves| + 1 && i <= |moves|
  {
    Log(History(dbs[..i + 1], moves[..i]))
  }

  function Logs(dbs: seq<Db>, moves: seq<Move>): seq<seq<Stored>>
    requires |dbs| == |moves| + 1
  {
    seq(|dbs|, i requires 0 <= i < |dbs| => LogBy(dbs, moves, i))
  }

  lemma {:induction false} UntakenIsHeld(h: seq<Entry>, moves: seq<Move>)
    requires L.Rising(Log(h))
    ensures Untaken(h, moves) == Where(Log(h), Held(Untaken(h, moves)))
    decreases |h|
  {
    if h != [] {
      var front, last := h[..|h| - 1], h[|h| - 1];
      assert Log(h)[..|h| - 1] == Log(front);
      RisingFront(Log(h));
      UntakenIsHeld(front, moves);
      HeldFront(h, moves);
      WhereSame(Log(front), Held(Untaken(front, moves)), Held(Untaken(h, moves)));
      LastHeld(h, moves);
    }
  }

  lemma {:induction false} RisingFront(log: seq<Stored>)
    requires L.Rising(log) && log != []
    ensures L.Rising(log[..|log| - 1])
    ensures forall e :: e in log[..|log| - 1] ==> e.id < log[|log| - 1].id
  {}

  lemma {:induction false} UntakenInLog(h: seq<Entry>, moves: seq<Move>, e: Stored)
    requires e in Untaken(h, moves)
    ensures e in Log(h)
    decreases |h|
  {
    var front := h[..|h| - 1];
    if e == h[|h| - 1].stored {
      assert Log(h)[|h| - 1] == e;
    } else {
      UntakenInLog(front, moves, e);
      var i :| 0 <= i < |front| && Log(front)[i] == e;
      assert Log(h)[i] == e;
    }
  }

  lemma {:induction false} HeldFront(h: seq<Entry>, moves: seq<Move>)
    requires h != [] && L.Rising(Log(h))
    ensures
      var front := h[..|h| - 1];
      forall i :: 0 <= i < |Log(front)| ==> (Held(Untaken(front, moves))(Log(front)[i]) <==> Held(Untaken(h, moves))(Log(front)[i]))
  {
    var front, last := h[..|h| - 1], h[|h| - 1];
    forall i | 0 <= i < |Log(front)|
      ensures Held(Untaken(front, moves))(Log(front)[i]) <==> Held(Untaken(h, moves))(Log(front)[i])
    {
      assert Log(h)[i] == Log(front)[i] && Log(h)[|h| - 1] == last.stored;
      assert Log(front)[i].id < last.stored.id;
    }
  }

  lemma {:induction false} LastHeld(h: seq<Entry>, moves: seq<Move>)
    requires h != [] && L.Rising(Log(h))
    ensures h[|h| - 1].stored in Untaken(h, moves) <==> !Taken(h[|h| - 1], moves)
  {
    var front, last := h[..|h| - 1], h[|h| - 1];
    assert Log(h)[..|h| - 1] == Log(front) && Log(h)[|h| - 1] == last.stored;
    RisingFront(Log(h));
    if last.stored in Untaken(front, moves) {
      UntakenInLog(front, moves, last.stored);
    }
  }

  lemma {:induction false} HistoryGrows(dbs: seq<Db>, moves: seq<Move>, i: nat, j: nat)
    requires |dbs| == |moves| + 1 && i <= j <= |moves|
    ensures History(dbs[..i + 1], moves[..i]) <= History(dbs[..j + 1], moves[..j])
    decreases j
  {
    if i < j {
      HistoryGrows(dbs, moves, i, j - 1);
      assert dbs[..j + 1][..j] == dbs[..j] && moves[..j][..j - 1] == moves[..j - 1];
    }
  }

  lemma {:induction false} LifePrefix(dbs: seq<Db>, moves: seq<Move>, ok: Row -> bool, i: nat)
    requires IsLife(dbs, moves, ok) && i <= |moves|
    ensures IsLife(dbs[..i + 1], moves[..i], ok)
  {
    var front, shorter := moves[..i], dbs[..i + 1];
    forall k {:trigger front[k]} | 0 <= k < i ensures IsMove(shorter[k], front[k], shorter[k + 1], ok) {
      assert moves[k] == front[k];
    }
  }

  lemma {:induction false} LogPrefix(a: seq<Entry>, b: seq<Entry>)
    requires a <= b
    ensures Log(a) <= Log(b)
  {}

  lemma {:induction false} LogsGrow(dbs: seq<Db>, moves: seq<Move>, i: nat, j: nat)
    requires |dbs| == |moves| + 1 && i <= j <= |moves|
    ensures LogBy(dbs, moves, i) <= LogBy(dbs, moves, j)
  {
    var a, b := History(dbs[..i + 1], moves[..i]), History(dbs[..j + 1], moves[..j]);
    assert a <= b by {
      HistoryGrows(dbs, moves, i, j);
    }
    LogPrefix(a, b);
  }

  lemma {:induction false} MomentIsThinned(dbs: seq<Db>, moves: seq<Move>, ok: Row -> bool, i: nat)
    requires IsLife(dbs, moves, ok) && i <= |moves|
    ensures L.Rising(LogBy(dbs, moves, i)) && dbs[i].events == Where(LogBy(dbs, moves, i), Held(dbs[i].events))
  {
    LifePrefix(dbs, moves, ok, i);
    TableIsUntaken(dbs[..i + 1], moves[..i], ok);
    UntakenIsHeld(History(dbs[..i + 1], moves[..i]), moves[..i]);
  }

  lemma {:induction false} ThinnedFrom(logs: seq<seq<Stored>>, tables: seq<seq<Stored>>)
    requires |logs| == |tables|
    requires forall i :: 0 <= i < |tables| ==> L.Rising(logs[i]) && tables[i] == Where(logs[i], Held(tables[i]))
    requires forall i, j :: 0 <= i < j < |logs| ==> logs[i] <= logs[j]
    ensures Thinned(logs, tables)
  {}

  /** The tables of any run with deletions are what is left of its growing history. */
  lemma {:induction false} StoreGivesThinned(dbs: seq<Db>, moves: seq<Move>, ok: Row -> bool)
    requires IsLife(dbs, moves, ok)
    ensures Thinned(Logs(dbs, moves), L.Tables(dbs))
  {
    var logs, tables := Logs(dbs, moves), L.Tables(dbs);
    forall i | 0 <= i < |tables| ensures L.Rising(logs[i]) && tables[i] == Where(logs[i], Held(tables[i])) {
      assert logs[i] == LogBy(dbs, moves, i) && tables[i] == dbs[i].events;
      MomentIsThinned(dbs, moves, ok, i);
    }
    forall i, j | 0 <= i < j < |logs| ensures logs[i] <= logs[j] {
      assert logs[i] == LogBy(dbs, moves, i) && logs[j] == LogBy(dbs, moves, j);
      LogsGrow(dbs, moves, i, j);
    }
    ThinnedFrom(logs, tables);
  }
}
