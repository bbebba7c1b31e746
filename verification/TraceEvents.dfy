/**
 The delivery trace a span's events make (console/src/lib/traceEvents.ts). An event carries the values
 read out of its data: lower-cased addresses and words, the queue id, the size and the remote address.
 */
module TraceEvents {
  import opened Basics
  import opened Sorting

  datatype Data = Data(
    from: Option<string>, to: seq<string>, queueId: Option<string>,
    size: Option<real>, remoteIp: Option<string>, words: seq<string>)

  datatype Event = Event(kind: string, at: int, data: Data)

  datatype Trace = Trace(
    spanId: string, kind: string, startedAt: int, sender: Option<string>, recipients: seq<string>,
    size: Option<real>, queueIds: seq<string>, remoteIp: Option<string>, search: string)

  const INBOUND_TRACE := "smtp.connection-start"
  const OUTBOUND_TRACE := "delivery.attempt-start"

  predicate Starts(e: Event) {
    e.kind == INBOUND_TRACE || e.kind == OUTBOUND_TRACE
  }

  // ---------------------------------------------------------------- order in time

  const TIME := (e: Event) => e.at

  function SortByTime(es: seq<Event>): seq<Event> {
    SortBy(es, TIME)
  }

  // ---------------------------------------------------------------- the summary

  /** The first event that starts a trace. */
  function RootFrom(es: seq<Event>, i: nat): Option<nat>
    requires i <= |es|
    decreases |es| - i
  {
    if i == |es| then None else if Starts(es[i]) then Some(i) else RootFrom(es, i + 1)
  }

  lemma {:induction false} RootIsFirst(es: seq<Event>, i: nat)
    requires i <= |es|
    ensures
      match RootFrom(es, i)
      case None => forall j :: i <= j < |es| ==> !Starts(es[j])
      case Some(k) => i <= k < |es| && Starts(es[k]) && forall j :: i <= j < k ==> !Starts(es[j])
    decreases |es| - i
  {
    if i < |es| && !Starts(es[i]) {
      RootIsFirst(es, i + 1);
    }
  }

  predicate Describes(es: seq<Event>, root: nat, i: nat)
    requires root < |es| && i < |es|
  {
    if es[root].kind == OUTBOUND_TRACE then i == root
    else es[i].kind in ["smtp.mail-from", "smtp.rcpt-to", "queue.message-queued"]
  }

  /** The data of those of the first `n` events that describe the delivery. */
  function Described(es: seq<Event>, root: nat, n: nat): seq<Data>
    requires root < |es| && n <= |es|
  {
    if n == 0 then []
    else Described(es, root, n - 1) + if Describes(es, root, n - 1) then [es[n - 1].data] else []
  }

  function AllData(es: seq<Event>, n: nat): seq<Data>
    requires n <= |es|
  {
    if n == 0 then [] else AllData(es, n - 1) + [es[n - 1].data]
  }

  function OptionSeq<T>(o: Option<T>): seq<T> {
    if o.Some? then [o.value] else []
  }

  /** Everything `f` reads out of the data, in order. */
  function Collect<T>(ds: seq<Data>, f: Data -> seq<T>): seq<T> {
    if ds == [] then [] else Collect(ds[..|ds| - 1], f) + f(ds[|ds| - 1])
  }

  function First<T>(s: seq<T>): Option<T> {
    if s == [] then None else Some(s[0])
  }

  function AddNew<T(==)>(s: seq<T>, x: T): seq<T> {
    if x in s then s else s + [x]
  }

  /** Each value where it first occurs. */
  function Distinct<T(==)>(s: seq<T>): seq<T> {
    if s == [] then [] else AddNew(Distinct(s[..|s| - 1]), s[|s| - 1])
  }

  lemma {:induction false} DistinctMeans<T>(s: seq<T>)
    ensures forall x :: x in Distinct(s) <==> x in s
    ensures forall i, j :: 0 <= i < j < |Distinct(s)| ==> Distinct(s)[i] != Distinct(s)[j]
    decreases |s|
  {
    if s != [] {
      DistinctMeans(s[..|s| - 1]);
      assert s == s[..|s| - 1] + [s[|s| - 1]];
    }
  }

  function Larger(a: real, b: real): real {
    if a < b then b else a
  }

  /** The largest size, negative ones counting as none at all. */
  function Largest(s: seq<real>): Option<real> {
    if s == [] then None
    else
      var before := Largest(s[..|s| - 1]);
      Some(Larger(if before.Some? then before.value else 0.0, s[|s| - 1]))
  }

  lemma {:induction false} LargestMeans(s: seq<real>)
    ensures Largest(s).Some? <==> s != []
    ensures s != [] ==>
      (forall x :: x in s ==> x <= Largest(s).value) && (Largest(s).value == 0.0 || Largest(s).value in s)
    ensures s != [] ==> Largest(s).value >= 0.0
    decreases |s|
  {
    if s != [] {
      LargestMeans(s[..|s| - 1]);
      assert s == s[..|s| - 1] + [s[|s| - 1]];
    }
  }

  function Join(words: seq<string>): string {
    if words == [] then "" else if |words| == 1 then words[0] else words[0] + " " + Join(words[1..])
  }

  function NonEmpty(words: seq<string>): seq<string> {
    if words == [] then []
    else (if words[0] == "" then [] else [words[0]]) + NonEmpty(words[1..])
  }

  function Search(
      sender: Option<string>, recipients: seq<string>, queueIds: seq<string>, ip: Option<string>, words: seq<string>): string {
    Join(NonEmpty(OptionSeq(sender) + recipients + queueIds + OptionSeq(ip) + words))
  }

  const FROM := (d: Data) => OptionSeq(d.from)
  const TO := (d: Data) => d.to
  const QUEUE_ID := (d: Data) => OptionSeq(d.queueId)
  const SIZE := (d: Data) => OptionSeq(d.size)
  const REMOTE_IP := (d: Data) => OptionSeq(d.remoteIp)
  const WORDS := (d: Data) => d.words

  /** What a span's events say, field by field. */
  function Summary(spanId: string, events: seq<Event>): Option<Trace> {
    var es := SortByTime(events);
    RootIsFirst(es, 0);
    match RootFrom(es, 0)
    case None => None
    case Some(root) =>
      var described := Described(es, root, |es|);
      var all := AllData(es, |es|);
      var sender := First(Collect(described, FROM));
      var recipients := Distinct(Collect(described, TO));
      var queueIds := Distinct(Collect(described, QUEUE_ID));
      var ip := First(Collect(all, REMOTE_IP));
      Some(Trace(
        spanId, es[root].kind, es[root].at, sender, recipients, Largest(Collect(described, SIZE)), queueIds, ip,
        Search(sender, recipients, queueIds, ip, Distinct(Collect(all, WORDS)))))
  }

  /** A span has a trace exactly when one of its events starts one; more events never take it away. */
  lemma {:induction false} SummaryExists(spanId: string, events: seq<Event>)
    ensures Summary(spanId, events).Some? <==> exists e :: e in events && Starts(e)
  {
    var es := SortByTime(events);
    SortSorts(events, TIME);
    RootIsFirst(es, 0);
    forall e ensures e in events <==> e in es {
      assert e in events <==> e in multiset(events);
      assert e in es <==> e in multiset(es);
    }
    if e :| e in events && Starts(e) {
      assert e in es;
    }
    if RootFrom(es, 0).Some? {
      assert es[RootFrom(es, 0).value] in events;
    }
  }

  /** The trace does not depend on the order in which the events arrived. */
  lemma {:induction false} ArrivalOrderIsFree(spanId: string, a: seq<Event>, b: seq<Event>)
    requires multiset(a) == multiset(b) && DistinctKeys(a, TIME)
    ensures Summary(spanId, a) == Summary(spanId, b)
  {
    SortSorts(a, TIME);
    SortSorts(b, TIME);
    var x := SortByTime(a);
    forall e | e in x ensures e in a {
      assert e in multiset(x);
    }
    assert DistinctKeys(x, TIME);
    SameOrder(x, SortByTime(b), TIME);
  }

  // ---------------------------------------------------------------- one pass

  lemma {:induction false} CollectSnoc<T>(ds: seq<Data>, d: Data, f: Data -> seq<T>)
    ensures Collect(ds + [d], f) == Collect(ds, f) + f(d)
  {
    assert (ds + [d])[..|ds|] == ds;
  }

  lemma {:induction false} DistinctSnoc<T>(s: seq<T>, x: T)
    ensures Distinct(s + [x]) == AddNew(Distinct(s), x)
  {
    assert (s + [x])[..|s|] == s;
  }

  lemma {:induction false} LargestSnoc(s: seq<real>, x: real)
    ensures Largest(s + [x]) == Some(Larger(if Largest(s).Some? then Largest(s).value else 0.0, x))
  {
    assert (s + [x])[..|s|] == s;
  }

  method AddAll<T(==)>(s: seq<T>, xs: seq<T>, ghost seen: seq<T>) returns (r: seq<T>)
    requires s == Distinct(seen)
    ensures r == Distinct(seen + xs)
  {
    r := s;
    assert seen + xs[..0] == seen;
    for i := 0 to |xs|
      invariant r == Distinct(seen + xs[..i])
    {
      DistinctSnoc(seen + xs[..i], xs[i]);
      assert (seen + xs[..i]) + [xs[i]] == seen + xs[..i + 1];
      r := AddNew(r, xs[i]);
    }
    assert xs[..|xs|] == xs;
  }

  /** What the loop has gathered from the events before one, against the fields they hold. */
  datatype Gathered = Gathered(sender: Option<string>, recipients: seq<string>, queueIds: seq<string>, size: Option<real>)

  ghost predicate Gathers(g: Gathered, ds: seq<Data>) {
    && g.sender == First(Collect(ds, FROM))
    && g.recipients == Distinct(Collect(ds, TO))
    && g.queueIds == Distinct(Collect(ds, QUEUE_ID))
    && g.size == Largest(Collect(ds, SIZE))
  }

  lemma {:induction false} FirstPlus<T>(s: seq<T>, o: Option<T>)
    ensures First(s + OptionSeq(o)) == if s == [] then o else First(s)
  {}

  method GatherOne(g: Gathered, d: Data, ghost ds: seq<Data>) returns (r: Gathered)
    requires Gathers(g, ds)
    ensures Gathers(r, ds + [d])
  {
    CollectSnoc(ds, d, FROM);
    CollectSnoc(ds, d, TO);
    CollectSnoc(ds, d, QUEUE_ID);
    CollectSnoc(ds, d, SIZE);
    FirstPlus(Collect(ds, FROM), d.from);
    var sender := if g.sender.None? then d.from else g.sender;
    var recipients := AddAll(g.recipients, d.to, Collect(ds, TO));
    var queueIds := g.queueIds;
    var size := g.size;
    ghost var ids, sizes := Collect(ds, QUEUE_ID), Collect(ds, SIZE);
    assert ids + [] == ids && sizes + [] == sizes;
    if d.queueId.Some? {
      DistinctSnoc(ids, d.queueId.value);
      queueIds := AddNew(queueIds, d.queueId.value);
    }
    if d.size.Some? {
      LargestSnoc(sizes, d.size.value);
      size := Some(Larger(if size.Some? then size.value else 0.0, d.size.value));
    }
    r := Gathered(sender, recipients, queueIds, size);
  }

  method FindRoot(es: seq<Event>) returns (root: Option<nat>)
    ensures root == RootFrom(es, 0)
  {
    var i := 0;
    while i < |es|
      invariant 0 <= i <= |es| && RootFrom(es, i) == RootFrom(es, 0)
    {
      if Starts(es[i]) {
        return Some(i);
      }
      i := i + 1;
    }
    return None;
  }

  /** The words and the remote address gathered from every event before one. */
  ghost predicate Remarks(words: seq<string>, ip: Option<string>, ds: seq<Data>) {
    words == Distinct(Collect(ds, WORDS)) && ip == First(Collect(ds, REMOTE_IP))
  }

  method RemarkOne(words: seq<string>, ip: Option<string>, d: Data, ghost ds: seq<Data>)
    returns (words': seq<string>, ip': Option<string>)
    requires Remarks(words, ip, ds)
    ensures Remarks(words', ip', ds + [d])
  {
    CollectSnoc(ds, d, WORDS);
    CollectSnoc(ds, d, REMOTE_IP);
    FirstPlus(Collect(ds, REMOTE_IP), d.remoteIp);
    ip' := if ip.None? then d.remoteIp else ip;
    words' := AddAll(words, d.words, Collect(ds, WORDS));
  }

  method GatherAll(es: seq<Event>, root: nat) returns (g: Gathered, words: seq<string>, ip: Option<string>)
    requires root < |es|
    ensures Gathers(g, Described(es, root, |es|)) && Remarks(words, ip, AllData(es, |es|))
  {
    g, words, ip := Gathered(None, [], [], None), [], None;
    for i := 0 to |es|
      invariant Gathers(g, Described(es, root, i))
      invariant Remarks(words, ip, AllData(es, i))
    {
      if Describes(es, root, i) {
        g := GatherOne(g, es[i].data, Described(es, root, i));
      } else {
        assert Described(es, root, i + 1) == Described(es, root, i);
      }
      words, ip := RemarkOne(words, ip, es[i].data, AllData(es, i));
    }
  }

  /** `summarizeSpan`: one pass over the events in time order gathers every field. */
  method SummarizeSpan(spanId: string, events: seq<Event>) returns (trace: Option<Trace>)
    ensures trace == Summary(spanId, events)
  {
    var es := Sort(events, TIME);
    var found := FindRoot(es);
    RootIsFirst(es, 0);
    if found.None? {
      return None;
    }
    var root := found.value;
    var g, words, ip := GatherAll(es, root);
    trace := Some(Trace(
      spanId, es[root].kind, es[root].at, g.sender, g.recipients, g.size, g.queueIds, ip,
      Search(g.sender, g.recipients, g.queueIds, ip, words)));
  }
}
