/**
 The live feed of console/src/lib/traceStore.ts: a client polls with the cursor of its last answer while
 batches go on committing. `matches` is the keyword and filter condition of the query.
 */
module LiveFeed {
  import opened Basics
  import opened TraceStore

  const SCAN_LIMIT: nat := 5000

  function Clamp(limit: int): nat {
    if limit < 1 then 1 else if limit > 500 then 500 else limit
  }

  /** The first `n` rows of an answer. */
  function Take<T>(s: seq<T>, n: nat): seq<T> {
    if |s| <= n then s else s[..n]
  }

  /** The last `n` rows, as `order by id desc limit n` picks them. */
  function Newest<T>(s: seq<T>, n: nat): seq<T> {
    if |s| <= n then s else s[|s| - n..]
  }

  function IdAbove(after: nat): Stored -> bool {
    (e: Stored) => e.id > after
  }

  function IdWithin(after: nat, upTo: nat): Stored -> bool {
    (e: Stored) => after < e.id <= upTo
  }

  function Since(since: int): Stored -> bool {
    (e: Stored) => e.row.event.at >= since
  }

  function Matching(matches: Row -> bool): Stored -> bool {
    (e: Stored) => matches(e.row)
  }

  datatype Answer = Answer(cursor: nat, events: seq<Stored>)

  /** A poll that continues after a cursor. */
  function Poll(events: seq<Stored>, after: nat, limit: int, matches: Row -> bool): Answer {
    var scanned := Take(Where(events, IdAbove(after)), SCAN_LIMIT);
    var matched := Take(Where(scanned, Matching(matches)), Clamp(limit));
    if |matched| == Clamp(limit) then Answer(matched[|matched| - 1].id, matched)
    else if scanned == [] then Answer(after, matched)
    else Answer(scanned[|scanned| - 1].id, matched)
  }

  /** The first poll: the newest matching events since a time, and a cursor after everything stored. */
  function FirstPoll(events: seq<Stored>, since: int, limit: int, matches: Row -> bool): Answer {
    var recent := Newest(Where(events, Since(since)), SCAN_LIMIT);
    var matched := Newest(Where(recent, Matching(matches)), Clamp(limit));
    Answer(if events == [] then 0 else events[|events| - 1].id, matched)
  }

  // ---------------------------------------------------------------- filters

  lemma {:induction false} WhereConcat(a: seq<Stored>, b: seq<Stored>, p: Stored -> bool)
    ensures Where(a + b, p) == Where(a, p) + Where(b, p)
    decreases |b|
  {
    if b == [] {
      assert a + b == a;
    } else {
      assert (a + b)[..|a + b| - 1] == a + b[..|b| - 1];
      WhereConcat(a, b[..|b| - 1], p);
    }
  }

  lemma {:induction false} WhereAll(s: seq<Stored>, p: Stored -> bool)
    requires forall i :: 0 <= i < |s| ==> p(s[i])
    ensures Where(s, p) == s
    decreases |s|
  {
    if s != [] {
      WhereAll(s[..|s| - 1], p);
    }
  }

  lemma {:induction false} WhereNone(s: seq<Stored>, p: Stored -> bool)
    requires forall i :: 0 <= i < |s| ==> !p(s[i])
    ensures Where(s, p) == []
    decreases |s|
  {
    if s != [] {
      WhereNone(s[..|s| - 1], p);
    }
  }

  ghost predicate Rising(events: seq<Stored>) {
    forall i, j :: 0 <= i < j < |events| ==> events[i].id < events[j].id
  }

  /** Where the events after a cursor begin. */
  function Position(events: seq<Stored>, after: nat): nat {
    if events == [] || events[|events| - 1].id <= after then |events|
    else Position(events[..|events| - 1], after)
  }

  lemma {:induction false} PositionSplits(events: seq<Stored>, after: nat)
    requires Rising(events)
    ensures Position(events, after) <= |events|
    ensures forall i :: 0 <= i < |events| ==> (events[i].id <= after <==> i < Position(events, after))
    decreases |events|
  {
    if events != [] && events[|events| - 1].id > after {
      var front := events[..|events| - 1];
      PositionSplits(front, after);
      forall i | 0 <= i < |events| ensures events[i].id <= after <==> i < Position(events, after) {
        if i < |front| {
          assert front[i] == events[i];
        }
      }
    }
  }

  /** On rising ids, a condition on ids selects one stretch of the table. */
  lemma {:induction false} Stretch(events: seq<Stored>, a: nat, b: nat, p: Stored -> bool)
    requires a <= b <= |events|
    requires forall i :: 0 <= i < |events| ==> (p(events[i]) <==> a <= i < b)
    ensures Where(events, p) == events[a..b]
  {
    var x, y, z := events[..a], events[a..b], events[b..];
    assert events == (x + y) + z;
    WhereConcat(x + y, z, p);
    WhereConcat(x, y, p);
    WhereNone(x, p);
    WhereAll(y, p);
    WhereNone(z, p);
  }

  lemma {:induction false} AboveIsSuffix(events: seq<Stored>, after: nat)
    requires Rising(events)
    ensures Position(events, after) <= |events|
    ensures Where(events, IdAbove(after)) == events[Position(events, after)..]
  {
    PositionSplits(events, after);
    Stretch(events, Position(events, after), |events|, IdAbove(after));
  }

  lemma {:induction false} PositionGrows(events: seq<Stored>, after: nat, upTo: nat)
    requires after <= upTo
    ensures Position(events, after) <= Position(events, upTo) <= |events|
    decreases |events|
  {
    if events != [] && events[|events| - 1].id > after {
      PositionGrows(events[..|events| - 1], after, upTo);
    }
  }

  lemma {:induction false} WithinIsStretch(events: seq<Stored>, after: nat, upTo: nat)
    requires Rising(events) && after <= upTo
    ensures Position(events, after) <= Position(events, upTo) <= |events|
    ensures Where(events, IdWithin(after, upTo)) == events[Position(events, after)..Position(events, upTo)]
  {
    PositionGrows(events, after, upTo);
    PositionSplits(events, after);
    PositionSplits(events, upTo);
    Stretch(events, Position(events, after), Position(events, upTo), IdWithin(after, upTo));
  }

  lemma {:induction false} PositionOfEvent(events: seq<Stored>, i: nat)
    requires Rising(events) && i < |events|
    ensures Position(events, events[i].id) == i + 1
  {
    PositionSplits(events, events[i].id);
    if i + 1 < |events| {
      assert events[i].id < events[i + 1].id;
    }
  }

  // ---------------------------------------------------------------- one poll

  /** The first `n` matches end a prefix of what was scanned. */
  lemma {:induction false} TakeEndsPrefix(s: seq<Stored>, n: nat, p: Stored -> bool) returns (k: nat)
    requires 0 < n <= |Where(s, p)|
    ensures 0 < k <= |s| && Where(s[..k], p) == Where(s, p)[..n] && s[k - 1] == Where(s, p)[n - 1]
    decreases |s|
  {
    var front, last := s[..|s| - 1], s[|s| - 1];
    var before := Where(front, p);
    assert Where(s, p) == before + if p(last) then [last] else [];
    if |before| >= n {
      k := TakeEndsPrefix(front, n, p);
      assert front[..k] == s[..k];
    } else {
      k := |s|;
      assert s[..k] == s;
      assert Where(s, p)[..n] == Where(s, p);
    }
  }

  /** An answer holds the matches of some prefix of the events after the cursor, and ends with it. */
  lemma {:induction false} PollPrefix(events: seq<Stored>, after: nat, limit: int, matches: Row -> bool) returns (k: nat)
    ensures
      var above := Where(events, IdAbove(after));
      var answer := Poll(events, after, limit, matches);
      && k <= |above|
      && answer.events == Where(above[..k], Matching(matches))
      && answer.cursor == (if k == 0 then after else above[k - 1].id)
      && (above != [] ==> k > 0)
      && (|answer.events| < Clamp(limit) && |above| <= SCAN_LIMIT ==> k == |above|)
  {
    var above := Where(events, IdAbove(after));
    var scanned := Take(above, SCAN_LIMIT);
    var found := Where(scanned, Matching(matches));
    if |found| >= Clamp(limit) {
      k := TakeEndsPrefix(scanned, Clamp(limit), Matching(matches));
      assert scanned[..k] == above[..k];
      assert Take(found, Clamp(limit)) == found[..Clamp(limit)];
    } else {
      k := |scanned|;
      assert scanned == above[..k];
    }
  }

  /** The answer holds exactly the matching events between its cursors, in order. */
  ghost predicate Exact(events: seq<Stored>, after: nat, answer: Answer, matches: Row -> bool) {
    && after <= answer.cursor && ReachedIn(events, after, answer.cursor)
    && answer.events == Where(Where(events, IdWithin(after, answer.cursor)), Matching(matches))
  }

  ghost predicate ReachedIn(events: seq<Stored>, start: nat, cursor: nat) {
    cursor == start || exists i :: 0 <= i < |events| && events[i].id == cursor
  }

  /** The cursor after the next `k` events. */
  function CursorAfter(events: seq<Stored>, after: nat, k: nat): nat
    requires Position(events, after) + k <= |events|
  {
    if k == 0 then after else events[Position(events, after) + k - 1].id
  }

  lemma {:induction false} CursorMoves(events: seq<Stored>, after: nat, k: nat)
    requires Rising(events) && Position(events, after) + k <= |events|
    ensures
      var cursor := CursorAfter(events, after, k);
      && after <= cursor && ReachedIn(events, after, cursor)
      && Position(events, cursor) == Position(events, after) + k
  {
    if k > 0 {
      PositionSplits(events, after);
      PositionOfEvent(events, Position(events, after) + k - 1);
    }
  }

  lemma {:induction false} PrefixEvents(events: seq<Stored>, after: nat, k: nat, matches: Row -> bool)
    requires Rising(events) && Position(events, after) + k <= |events|
    ensures
      var p := Position(events, after);
      Where(events[p..p + k], Matching(matches))
        == Where(Where(events, IdWithin(after, CursorAfter(events, after, k))), Matching(matches))
  {
    CursorMoves(events, after, k);
    WithinIsStretch(events, after, CursorAfter(events, after, k));
  }

  lemma {:induction false} PrefixIsExact(events: seq<Stored>, after: nat, k: nat, answer: Answer, matches: Row -> bool)
    requires Rising(events) && Position(events, after) + k <= |events|
    requires
      var p := Position(events, after);
      answer.events == Where(events[p..p + k], Matching(matches)) && answer.cursor == CursorAfter(events, after, k)
    ensures Exact(events, after, answer, matches)
  {
    CursorMoves(events, after, k);
    PrefixEvents(events, after, k, matches);
  }

  lemma {:induction false} PrefixOfSuffix(events: seq<Stored>, p: nat, k: nat)
    requires p + k <= |events|
    ensures events[p..][..k] == events[p..p + k] && (k > 0 ==> events[p..][k - 1] == events[p + k - 1])
  {}

  lemma {:induction false} AnswerIsExact(events: seq<Stored>, after: nat, k: nat, answer: Answer, matches: Row -> bool)
    requires Rising(events)
    requires
      var above := Where(events, IdAbove(after));
      && k <= |above|
      && answer.events == Where(above[..k], Matching(matches))
      && answer.cursor == (if k == 0 then after else above[k - 1].id)
    ensures Exact(events, after, answer, matches)
  {
    AboveIsSuffix(events, after);
    PrefixOfSuffix(events, Position(events, after), k);
    PrefixIsExact(events, after, k, answer, matches);
  }

  lemma {:induction false} PollIsExact(events: seq<Stored>, after: nat, limit: int, matches: Row -> bool)
    requires Rising(events)
    ensures Exact(events, after, Poll(events, after, limit, matches), matches)
  {
    var k := PollPrefix(events, after, limit, matches);
    AnswerIsExact(events, after, k, Poll(events, after, limit, matches), matches);
  }

  /** A poll with anything left to look at moves the cursor on. */
  lemma {:induction false} PollAdvances(events: seq<Stored>, after: nat, limit: int, matches: Row -> bool)
    requires Rising(events) && Where(events, IdAbove(after)) != []
    ensures Poll(events, after, limit, matches).cursor > after
  {
    var k := PollPrefix(events, after, limit, matches);
    var p := Position(events, after);
    AboveIsSuffix(events, after);
    PositionSplits(events, after);
    assert events[p..][k - 1] == events[p + k - 1];
  }

  /** An answer short of the limit, with no more to look at than one scan, has reached the end. */
  lemma {:induction false} ShortAnswerIsCaughtUp(events: seq<Stored>, after: nat, limit: int, matches: Row -> bool)
    requires Rising(events)
    requires |Where(events, IdAbove(after))| <= SCAN_LIMIT && |Poll(events, after, limit, matches).events| < Clamp(limit)
    ensures Where(events, IdAbove(Poll(events, after, limit, matches).cursor)) == []
  {
    var k := PollPrefix(events, after, limit, matches);
    var p := Position(events, after);
    var cursor := Poll(events, after, limit, matches).cursor;
    AboveIsSuffix(events, after);
    AboveIsSuffix(events, cursor);
    if k > 0 {
      assert events[p..][k - 1] == events[|events| - 1];
      PositionOfEvent(events, |events| - 1);
    }
  }

  // ---------------------------------------------------------------- whole runs

  /** What the table held at each poll: it only grows, by events with higher ids. */
  ghost predicate Snapshots(tables: seq<seq<Stored>>) {
    && (forall i :: 0 <= i < |tables| ==> Rising(tables[i]))
    && forall i, j :: 0 <= i < j < |tables| ==> tables[i] <= tables[j]
  }

  /** All the answers of a client that polls each table in turn, joined, and the cursor it ends with. Every
      poll has its own limit. */
  function Feed(tables: seq<seq<Stored>>, limits: seq<int>, start: nat, matches: Row -> bool): Answer
    requires |limits| == |tables|
  {
    if tables == [] then Answer(start, [])
    else
      var n := |tables| - 1;
      var before := Feed(tables[..n], limits[..n], start, matches);
      var answer := Poll(tables[n], before.cursor, limits[n], matches);
      Answer(answer.cursor, before.events + answer.events)
  }

  /** Events that commit later do not slip in behind a cursor. */
  lemma {:induction false} LaterEventsStayAhead(earlier: seq<Stored>, later: seq<Stored>, after: nat, upTo: nat)
    requires Rising(later) && earlier <= later && after <= upTo
    requires upTo == after || exists i :: 0 <= i < |earlier| && earlier[i].id == upTo
    ensures Where(later, IdWithin(after, upTo)) == Where(earlier, IdWithin(after, upTo))
  {
    var more := later[|earlier|..];
    assert later == earlier + more;
    WhereConcat(earlier, more, IdWithin(after, upTo));
    forall i | 0 <= i < |more| ensures !IdWithin(after, upTo)(more[i]) {
      if upTo != after {
        var k :| 0 <= k < |earlier| && earlier[k].id == upTo;
        assert later[k] == earlier[k] && later[|earlier| + i] == more[i];
      }
    }
    WhereNone(more, IdWithin(after, upTo));
  }

  lemma {:induction false} WithinJoins(events: seq<Stored>, a: nat, b: nat, c: nat)
    requires Rising(events) && a <= b <= c
    ensures Where(events, IdWithin(a, b)) + Where(events, IdWithin(b, c)) == Where(events, IdWithin(a, c))
  {
    WithinIsStretch(events, a, b);
    WithinIsStretch(events, b, c);
    WithinIsStretch(events, a, c);
  }

  lemma {:induction false} ReachedLater(a: seq<Stored>, b: seq<Stored>, start: nat, cursor: nat)
    requires a <= b && ReachedIn(a, start, cursor)
    ensures ReachedIn(b, start, cursor)
  {
    if cursor != start {
      var i :| 0 <= i < |a| && a[i].id == cursor;
      assert b[i] == a[i];
    }
  }

  /** One more exact answer, to a table that has grown, continues the answers before it. */
  lemma {:induction false} ExactContinues(
      earlier: seq<Stored>, table: seq<Stored>, start: nat, before: Answer, answer: Answer, matches: Row -> bool)
    requires Rising(table) && earlier <= table
    requires Exact(earlier, start, before, matches) && Exact(table, before.cursor, answer, matches)
    ensures Exact(table, start, Answer(answer.cursor, before.events + answer.events), matches)
  {
    LaterEventsStayAhead(earlier, table, start, before.cursor);
    ReachedLater(earlier, table, start, before.cursor);
    WithinJoins(table, start, before.cursor, answer.cursor);
    WhereConcat(
      Where(table, IdWithin(start, before.cursor)), Where(table, IdWithin(before.cursor, answer.cursor)), Matching(matches));
  }

  lemma {:induction false} SnapshotsFront(tables: seq<seq<Stored>>)
    requires Snapshots(tables) && tables != []
    ensures Snapshots(tables[..|tables| - 1]) && Rising(tables[|tables| - 1])
    ensures |tables| > 1 ==> tables[|tables| - 2] <= tables[|tables| - 1]
  {}

  /**
   Whatever commits between the polls, the answers joined together are exactly the matching events with
   ids above the first cursor and up to the last, in order: none missing, none twice.
   */
  lemma {:induction false} FeedIsExact(tables: seq<seq<Stored>>, limits: seq<int>, start: nat, matches: Row -> bool)
    requires Snapshots(tables) && tables != [] && |limits| == |tables|
    ensures Exact(tables[|tables| - 1], start, Feed(tables, limits, start, matches), matches)
    decreases |tables|
  {
    var n := |tables| - 1;
    var before := Feed(tables[..n], limits[..n], start, matches);
    SnapshotsFront(tables);
    PollIsExact(tables[n], before.cursor, limits[n], matches);
    var answer := Poll(tables[n], before.cursor, limits[n], matches);
    if n == 0 {
      assert [] + answer.events == answer.events;
    } else {
      FeedIsExact(tables[..n], limits[..n], start, matches);
      ExactContinues(tables[n - 1], tables[n], start, before, answer, matches);
    }
  }

  ghost predicate Positive(events: seq<Stored>) {
    forall i :: 0 <= i < |events| ==> events[i].id > 0
  }

  lemma {:induction false} NewestEndsTable(first: seq<Stored>, table: seq<Stored>)
    requires first <= table && Rising(table) && Positive(table)
    ensures Position(table, if first == [] then 0 else first[|first| - 1].id) == |first|
  {
    if first == [] {
      PositionSplits(table, 0);
      if table != [] {
        assert table[0].id > 0;
      }
    } else {
      assert first[|first| - 1] == table[|first| - 1];
      PositionOfEvent(table, |first| - 1);
    }
  }

  lemma {:induction false} SnapshotsTail(first: seq<Stored>, tables: seq<seq<Stored>>)
    requires Snapshots([first] + tables)
    ensures Snapshots(tables) && (tables != [] ==> first <= tables[|tables| - 1])
  {
    var all := [first] + tables;
    forall i | 0 <= i < |tables| ensures Rising(tables[i]) {
      assert tables[i] == all[i + 1];
    }
    forall i, j | 0 <= i < j < |tables| ensures tables[i] <= tables[j] {
      assert tables[i] == all[i + 1] && tables[j] == all[j + 1];
    }
    if tables != [] {
      assert all[0] == first && all[|tables|] == tables[|tables| - 1];
    }
  }

  /** A feed that begins with a first poll goes on with the events that commit after it. */
  lemma {:induction false} FeedContinuesFirstPoll(
      first: seq<Stored>, tables: seq<seq<Stored>>, since: int, limit: int, limits: seq<int>, matches: Row -> bool)
    requires Snapshots([first] + tables) && tables != [] && |limits| == |tables| && Positive(tables[|tables| - 1])
    ensures
      var feed := Feed(tables, limits, FirstPoll(first, since, limit, matches).cursor, matches);
      var table := tables[|tables| - 1];
      && |first| <= Position(table, feed.cursor) <= |table|
      && feed.events == Where(table[|first|..Position(table, feed.cursor)], Matching(matches))
  {
    SnapshotsTail(first, tables);
    var table := tables[|tables| - 1];
    var start := FirstPoll(first, since, limit, matches).cursor;
    NewestEndsTable(first, table);
    FeedIsExact(tables, limits, start, matches);
    WithinIsStretch(table, start, Feed(tables, limits, start, matches).cursor);
  }

  /** The first answer is the end of all the matching events since the time asked for. */
  lemma {:induction false} FirstAnswerIsNewest(events: seq<Stored>, since: int, limit: int, matches: Row -> bool)
    ensures
      var wanted := Where(Where(events, Since(since)), Matching(matches));
      var answer := FirstPoll(events, since, limit, matches).events;
      && |answer| <= |wanted| && answer == wanted[|wanted| - |answer|..] && |answer| <= Clamp(limit)
      && (|wanted| <= Clamp(limit) && |Where(events, Since(since))| <= SCAN_LIMIT ==> answer == wanted)
  {
    var all := Where(events, Since(since));
    var recent := Newest(all, SCAN_LIMIT);
    var older := all[..|all| - |recent|];
    assert all == older + recent;
    WhereConcat(older, recent, Matching(matches));
  }

  // ---------------------------------------------------------------- the store behind it

  lemma {:induction false} StoredRises(events: seq<Stored>, nextId: nat)
    requires Ordered(events, nextId)
    ensures Rising(events) && Positive(events)
  {}

  lemma {:induction false} TablesSnoc(dbs: seq<Db>)
    requires dbs != []
    ensures Tables(dbs) == Tables(dbs[..|dbs| - 1]) + [dbs[|dbs| - 1].events]
  {}

  lemma {:induction false} StepExtends(db: Db, step: Step, next: Db, ok: Row -> bool)
    requires IsStep(db, step, next, ok)
    ensures db.events <= next.events
  {}

  /** The tables of any run of the event store are such snapshots, and their ids are positive. */
  lemma {:induction false} StoreGivesSnapshots(dbs: seq<Db>, steps: seq<Step>, ok: Row -> bool)
    requires IsRun(dbs, steps, ok)
    ensures Snapshots(Tables(dbs)) && Positive(dbs[|steps|].events)
    decreases |steps|
  {
    var n := |steps|;
    StoredIsFresh(dbs, steps, ok);
    StoredRises(dbs[n].events, dbs[n].nextId);
    TablesSnoc(dbs);
    if steps == [] {
      assert Tables(dbs) == [dbs[0].events];
    } else {
      RunFront(dbs, steps, ok);
      StoreGivesSnapshots(dbs[..n], steps[..n - 1], ok);
      StepExtends(dbs[n - 1], steps[n - 1], dbs[n], ok);
      var front := Tables(dbs[..n]);
      assert front[|front| - 1] == dbs[n - 1].events;
      SnapshotsGrow(front, dbs[n].events);
    }
  }

  function Tables(dbs: seq<Db>): seq<seq<Stored>> {
    seq(|dbs|, i requires 0 <= i < |dbs| => dbs[i].events)
  }

  lemma {:induction false} SnapshotsGrow(tables: seq<seq<Stored>>, table: seq<Stored>)
    requires tables != [] && Snapshots(tables) && tables[|tables| - 1] <= table && Rising(table)
    ensures Snapshots(tables + [table])
  {
    var all := tables + [table];
    forall i, j | 0 <= i < j < |all| ensures all[i] <= all[j] {
      if j == |tables| && i < |tables| - 1 {
        assert tables[i] <= tables[|tables| - 1];
      }
    }
  }
}
