/**
 The token verifier of console/src/lib/auth.ts as a machine over its steps.

 A step is a `verify` call up to its first wait, the answer of a running check, or the moment a
 finished check is taken out of `checking`; steps of different calls come in any order.  What the
 mail server answers, the clock and the token's hash are inputs.
 */
module TokenVerifier {
  import opened Basics
  import opened RateLimit

  /** The SHA-256 of a token, taken to be injective. */
  type Key = string

  // ---------------------------------------------------------------- insertion-ordered maps

  /** A JavaScript `Map`: its entries, and its keys in the order they were first set. */
  datatype Table<V> = Table(order: seq<Key>, entries: map<Key, V>)

  ghost predicate TableOk<V>(t: Table<V>) {
    && (forall i, j :: 0 <= i < j < |t.order| ==> t.order[i] != t.order[j])
    && (forall k :: k in t.order <==> k in t.entries)
  }

  function Size<V>(t: Table<V>): nat {
    |t.order|
  }

  function EmptyTable<V>(): Table<V> {
    Table([], map[])
  }

  function Put<V>(t: Table<V>, key: Key, value: V): Table<V> {
    Table(if key in t.entries then t.order else t.order + [key], t.entries[key := value])
  }

  function KeepKeys(order: seq<Key>, keep: set<Key>): (r: seq<Key>)
    ensures forall k :: k in r <==> k in order && k in keep
  {
    if order == [] then [] else (if order[0] in keep then [order[0]] else []) + KeepKeys(order[1..], keep)
  }

  function Remove<V>(t: Table<V>, gone: set<Key>): Table<V> {
    Table(KeepKeys(t.order, t.entries.Keys - gone), t.entries - gone)
  }

  // ---------------------------------------------------------------- the state

  datatype Options = Options(cacheMs: int, maxEntries: nat, budget: Budget)

  /** What a check found out; the server being unreachable is no verdict. */
  datatype Verdict = Passed(expiresAt: int) | Refused

  datatype Cached = Cached(yes: bool, expiresAt: int)

  /** A running check: for whom, since when, and whether only its removal is left. */
  datatype Check = Check(key: Key, began: int, settled: bool)

  /** A check that came to a verdict. */
  datatype Conclusion = Conclusion(key: Key, began: int, verdict: Verdict)

  datatype State = State(
    cache: Table<Cached>, checking: map<Key, nat>, passed: Table<int>, limiter: Limiter,
    running: map<nat, Check>, nextId: nat, concluded: seq<Conclusion>, now: int)

  function Initial(now: int): State {
    State(EmptyTable(), map[], EmptyTable(), Limiter(map[], []), map[], 0, [], now)
  }

  // ---------------------------------------------------------------- the steps

  /** `rememberPassed`: when full, expired sessions go, and if that is not enough the oldest. */
  function RememberPassed(o: Options, t: Table<int>, key: Key, expiresAt: int, at: int): Table<int> {
    Put(if Size(t) >= o.maxEntries * 10 then DropOldest(o, DropExpired(t, at)) else t, key, expiresAt)
  }

  function DropExpired(t: Table<int>, at: int): Table<int> {
    Remove(t, set k | k in t.entries && t.entries[k] <= at)
  }

  function DropOldest(o: Options, t: Table<int>): Table<int> {
    if Size(t) >= o.maxEntries * 10 && t.order != [] then Remove(t, {t.order[0]}) else t
  }

  /** `remember`: when full, the oldest answer goes. */
  function Remember(o: Options, t: Table<Cached>, key: Key, value: Cached): Table<Cached> {
    Put(if Size(t) >= o.maxEntries && t.order != [] then Remove(t, {t.order[0]}) else t, key, value)
  }

  /** What a `verify` call does before it waits. */
  datatype Answer = Served(yes: bool) | Joined(id: nat) | Started(id: nat, counted: bool, limited: bool)

  /** Whether the answer is still remembered at `t`. */
  predicate Fresh(s: State, key: Key, t: int) {
    key in s.cache.entries && s.cache.entries[key].expiresAt > t
  }

  /** Whether a check costs budget: sessions that passed and have not expired are checked for free. */
  predicate Costs(s: State, key: Key, at: int) {
    (if key in s.passed.entries then s.passed.entries[key] else 0) <= at
  }

  function AnswerOf(o: Options, s: State, key: Key, client: Option<string>, t1: int, t2: int): Answer {
    if Fresh(s, key, t1) then Served(s.cache.entries[key].yes)
    else if key in s.checking then Joined(s.checking[key])
    else
      var costs := Costs(s, key, t2);
      Started(s.nextId, costs, costs && !Admits(s.limiter.windows, o.budget, client, t2))
  }

  /** `verify` up to its first wait; `t1` when it looks at the cache, `t2` when its check begins. */
  function Verify(o: Options, s: State, key: Key, client: Option<string>, t1: int, t2: int): State {
    match AnswerOf(o, s, key, client, t1, t2)
    case Served(_) => s.(now := t1)
    case Joined(_) => s.(cache := Remove(s.cache, {key}), now := t1)
    case Started(id, counted, limited) =>
      s.(cache := Remove(s.cache, {key}),
         checking := s.checking[key := id],
         limiter := if counted then Count(s.limiter, o.budget, client, t2) else s.limiter,
         running := s.running[id := Check(key, t2, limited)],
         nextId := s.nextId + 1,
         now := t2)
  }

  function Min(a: int, b: int): int {
    if a <= b then a else b
  }

  /** The end of a check: its verdict is remembered, if it came to one. */
  function Conclude(o: Options, s: State, id: nat, verdict: Option<Verdict>, t: int): State
    requires id in s.running
  {
    var c := s.running[id];
    var s1 := s.(running := s.running[id := c.(settled := true)], now := t);
    match verdict
    case None => s1
    case Some(Refused) =>
      s1.(passed := Remove(s.passed, {c.key}),
          cache := Remember(o, s.cache, c.key, Cached(false, c.began + o.cacheMs)),
          concluded := s.concluded + [Conclusion(c.key, c.began, Refused)])
    case Some(Passed(exp)) =>
      s1.(passed := RememberPassed(o, s.passed, c.key, exp, c.began),
          cache := Remember(o, s.cache, c.key, Cached(true, Min(c.began + o.cacheMs, exp))),
          concluded := s.concluded + [Conclusion(c.key, c.began, Passed(exp))])
  }

  /** `finally`: the finished check is no longer in progress. */
  function Settle(s: State, id: nat, t: int): State
    requires id in s.running
  {
    s.(checking := s.checking - {s.running[id].key}, running := s.running - {id}, now := t)
  }

  datatype Action =
    | DoVerify(key: Key, client: Option<string>, t1: int, t2: int)
    | DoConclude(id: nat, verdict: Option<Verdict>, t: int)
    | DoSettle(id: nat, t: int)

  /** A clock that does not go back; a check ends once, and is removed once it has ended. */
  predicate Enabled(s: State, a: Action) {
    match a
    case DoVerify(_, _, t1, t2) => s.now <= t1 <= t2
    case DoConclude(id, _, t) => s.now <= t && id in s.running && !s.running[id].settled
    case DoSettle(id, t) => s.now <= t && id in s.running && s.running[id].settled
  }

  function Next(o: Options, s: State, a: Action): State
    requires Enabled(s, a)
  {
    match a
    case DoVerify(key, client, t1, t2) => Verify(o, s, key, client, t1, t2)
    case DoConclude(id, verdict, t) => Conclude(o, s, id, verdict, t)
    case DoSettle(id, t) => Settle(s, id, t)
  }

  // ---------------------------------------------------------------- what every run keeps

  /** The latest conclusive check of a token. */
  function Latest(log: seq<Conclusion>, key: Key): Option<Conclusion> {
    if log == [] then None
    else if log[|log| - 1].key == key then Some(log[|log| - 1])
    else Latest(log[..|log| - 1], key)
  }

  /** What is remembered of a conclusion, and for how long. */
  function Remembered(o: Options, c: Conclusion): Cached {
    match c.verdict
    case Refused => Cached(false, c.began + o.cacheMs)
    case Passed(exp) => Cached(true, Min(c.began + o.cacheMs, exp))
  }

  /** Every running check is the one in progress for its token, so there is at most one per token. */
  ghost predicate OneAtATime(s: State) {
    forall id :: id in s.running ==> id < s.nextId && s.running[id].key in s.checking && s.checking[s.running[id].key] == id
  }

  /** A remembered answer is that of this token's latest check, for as long as it may be remembered. */
  ghost predicate Backed(o: Options, log: seq<Conclusion>, key: Key, c: Cached) {
    Latest(log, key).Some? && c == Remembered(o, Latest(log, key).value)
  }

  ghost predicate CacheBacked(o: Options, s: State) {
    forall key :: key in s.cache.entries ==> Backed(o, s.concluded, key, s.cache.entries[key])
  }

  ghost predicate PassedUntil(log: seq<Conclusion>, key: Key, expiresAt: int) {
    Latest(log, key).Some? && Latest(log, key).value.verdict == Passed(expiresAt)
  }

  /** A session that passed is one whose latest verdict is that it passed. */
  ghost predicate PassedLatest(s: State) {
    forall key :: key in s.passed.entries ==> PassedUntil(s.concluded, key, s.passed.entries[key])
  }

  /** A table of at most `cap` entries, if it may hold any. */
  ghost predicate Holds<V>(t: Table<V>, cap: nat) {
    TableOk(t) && (cap >= 1 ==> Size(t) <= cap)
  }

  ghost predicate Capped(o: Options, s: State) {
    Holds(s.cache, o.maxEntries) && Holds(s.passed, o.maxEntries * 10)
  }

  ghost predicate Limited(o: Options, s: State) {
    Metered(s.limiter, o.budget, s.now) && SmallTable(s.limiter.windows, o.budget)
  }

  ghost predicate Inv(o: Options, s: State) {
    s.now >= 0 && OneAtATime(s) && CacheBacked(o, s) && PassedLatest(s) && Capped(o, s) && Limited(o, s)
  }

  // ---------------------------------------------------------------- tables

  ghost predicate Distinct(order: seq<Key>) {
    forall i, j :: 0 <= i < j < |order| ==> order[i] != order[j]
  }

  lemma {:induction false} KeepKeysDistinct(order: seq<Key>, keep: set<Key>)
    requires Distinct(order)
    ensures Distinct(KeepKeys(order, keep)) && |KeepKeys(order, keep)| <= |order|
  {
    if order != [] {
      KeepKeysDistinct(order[1..], keep);
      assert order[0] !in order[1..];
    }
  }

  lemma {:induction false} KeepsAll(order: seq<Key>, keep: set<Key>)
    requires forall k :: k in order ==> k in keep
    ensures KeepKeys(order, keep) == order
  {
    if order != [] {
      KeepsAll(order[1..], keep);
      assert order == [order[0]] + order[1..];
    }
  }

  lemma {:induction false} RemoveOk<V>(t: Table<V>, gone: set<Key>)
    requires TableOk(t)
    ensures TableOk(Remove(t, gone)) && Size(Remove(t, gone)) <= Size(t)
  {
    KeepKeysDistinct(t.order, t.entries.Keys - gone);
  }

  lemma {:induction false} RemoveOldestOk<V>(t: Table<V>)
    requires TableOk(t) && t.order != []
    ensures TableOk(Remove(t, {t.order[0]})) && Size(Remove(t, {t.order[0]})) == Size(t) - 1
  {
    RemoveOk(t, {t.order[0]});
    KeepsAll(t.order[1..], t.entries.Keys - {t.order[0]});
  }

  lemma {:induction false} PutOk<V>(t: Table<V>, key: Key, value: V)
    requires TableOk(t)
    ensures TableOk(Put(t, key, value)) && Size(Put(t, key, value)) <= Size(t) + 1
  {}

  lemma {:induction false} RememberCapped(o: Options, t: Table<Cached>, key: Key, value: Cached)
    requires Holds(t, o.maxEntries)
    ensures Holds(Remember(o, t, key, value), o.maxEntries)
  {
    if Size(t) >= o.maxEntries && t.order != [] {
      RemoveOldestOk(t);
      PutOk(Remove(t, {t.order[0]}), key, value);
    } else {
      PutOk(t, key, value);
    }
  }

  lemma {:induction false} DropOldestOk(o: Options, t: Table<int>)
    requires Holds(t, o.maxEntries * 10)
    ensures Holds(DropOldest(o, t), o.maxEntries * 10) && (o.maxEntries >= 1 ==> Size(DropOldest(o, t)) < o.maxEntries * 10)
  {
    if t.order != [] {
      RemoveOldestOk(t);
    }
  }

  lemma {:induction false} RememberPassedCapped(o: Options, t: Table<int>, key: Key, expiresAt: int, at: int)
    requires Holds(t, o.maxEntries * 10)
    ensures Holds(RememberPassed(o, t, key, expiresAt, at), o.maxEntries * 10)
  {
    if Size(t) >= o.maxEntries * 10 {
      var live := DropExpired(t, at);
      RemoveOk(t, set k | k in t.entries && t.entries[k] <= at);
      DropOldestOk(o, live);
      PutOk(DropOldest(o, live), key, expiresAt);
    } else {
      PutOk(t, key, expiresAt);
    }
  }

  // ---------------------------------------------------------------- preservation

  lemma {:induction false} VerifyLimited(o: Options, s: State, key: Key, client: Option<string>, t1: int, t2: int)
    requires Limited(o, s) && s.now <= t1 <= t2
    ensures Limited(o, Verify(o, s, key, client, t1, t2))
  {
    LaterMetered(s.limiter, o.budget, s.now, t1);
    LaterMetered(s.limiter, o.budget, s.now, t2);
    CountMetered(s.limiter, o.budget, client, s.now, t2);
    CountSmall(s.limiter, o.budget, client, s.now, t2);
  }

  lemma {:induction false} VerifyOneAtATime(o: Options, s: State, key: Key, client: Option<string>, t1: int, t2: int)
    requires OneAtATime(s)
    ensures OneAtATime(Verify(o, s, key, client, t1, t2))
  {}

  lemma {:induction false} RemoveBacked(o: Options, cache: Table<Cached>, log: seq<Conclusion>, key: Key)
    requires TableOk(cache) && forall k :: k in cache.entries ==> Backed(o, log, k, cache.entries[k])
    ensures
      var r := Remove(cache, {key});
      && TableOk(r) && Size(r) <= Size(cache)
      && forall k :: k in r.entries ==> Backed(o, log, k, r.entries[k])
  {
    RemoveOk(cache, {key});
  }

  lemma {:induction false} VerifyCaches(o: Options, s: State, key: Key, client: Option<string>, t1: int, t2: int)
    requires CacheBacked(o, s) && PassedLatest(s) && Capped(o, s)
    ensures
      var s' := Verify(o, s, key, client, t1, t2);
      CacheBacked(o, s') && PassedLatest(s') && Capped(o, s')
  {
    RemoveBacked(o, s.cache, s.concluded, key);
    var s' := Verify(o, s, key, client, t1, t2);
    assert s'.concluded == s.concluded && s'.passed == s.passed;
    assert s'.cache == s.cache || s'.cache == Remove(s.cache, {key});
  }

  lemma {:induction false} VerifyKeeps(o: Options, s: State, key: Key, client: Option<string>, t1: int, t2: int)
    requires Inv(o, s) && s.now <= t1 <= t2
    ensures Inv(o, Verify(o, s, key, client, t1, t2))
  {
    VerifyLimited(o, s, key, client, t1, t2);
    VerifyOneAtATime(o, s, key, client, t1, t2);
    VerifyCaches(o, s, key, client, t1, t2);
  }

  lemma {:induction false} LatestSnoc(log: seq<Conclusion>, c: Conclusion, key: Key)
    ensures Latest(log + [c], key) == if c.key == key then Some(c) else Latest(log, key)
  {
    assert (log + [c])[..|log|] == log;
  }

  lemma {:induction false} ConcludeBacked(o: Options, s: State, c: Conclusion)
    requires CacheBacked(o, s)
    ensures
      var cache := Remember(o, s.cache, c.key, Remembered(o, c));
      forall key :: key in cache.entries ==> Backed(o, s.concluded + [c], key, cache.entries[key])
  {
    var cache := Remember(o, s.cache, c.key, Remembered(o, c));
    forall key | key in cache.entries ensures Backed(o, s.concluded + [c], key, cache.entries[key]) {
      LatestSnoc(s.concluded, c, key);
      if key != c.key {
        assert key in s.cache.entries && cache.entries[key] == s.cache.entries[key];
      }
    }
  }

  lemma {:induction false} PassedIsLatest(o: Options, s: State, c: Conclusion)
    requires PassedLatest(s)
    ensures
      var passed := match c.verdict
        case Refused => Remove(s.passed, {c.key})
        case Passed(exp) => RememberPassed(o, s.passed, c.key, exp, c.began);
      forall key :: key in passed.entries ==> PassedUntil(s.concluded + [c], key, passed.entries[key])
  {
    forall key ensures Latest(s.concluded + [c], key) == if c.key == key then Some(c) else Latest(s.concluded, key) {
      LatestSnoc(s.concluded, c, key);
    }
  }

  lemma {:induction false} ConcludeOneAtATime(o: Options, s: State, id: nat, verdict: Option<Verdict>, t: int)
    requires OneAtATime(s) && id in s.running
    ensures OneAtATime(Conclude(o, s, id, verdict, t))
  {}

  lemma {:induction false} ConcludeCaches(o: Options, s: State, id: nat, verdict: Verdict, t: int)
    requires CacheBacked(o, s) && PassedLatest(s) && id in s.running
    ensures
      var s' := Conclude(o, s, id, Some(verdict), t);
      CacheBacked(o, s') && PassedLatest(s')
  {
    var c := s.running[id];
    var conclusion := Conclusion(c.key, c.began, verdict);
    ConcludeBacked(o, s, conclusion);
    PassedIsLatest(o, s, conclusion);
  }

  lemma {:induction false} RemoveHolds<V>(t: Table<V>, gone: set<Key>, cap: nat)
    requires Holds(t, cap)
    ensures Holds(Remove(t, gone), cap)
  {
    RemoveOk(t, gone);
  }

  lemma {:induction false} RefusedCapped(o: Options, s: State, id: nat, t: int)
    requires Capped(o, s) && id in s.running
    ensures Capped(o, Conclude(o, s, id, Some(Refused), t))
  {
    var c := s.running[id];
    RememberCapped(o, s.cache, c.key, Cached(false, c.began + o.cacheMs));
    RemoveHolds(s.passed, {c.key}, o.maxEntries * 10);
  }

  lemma {:induction false} PassedCapped(o: Options, s: State, id: nat, exp: int, t: int)
    requires Capped(o, s) && id in s.running
    ensures Capped(o, Conclude(o, s, id, Some(Passed(exp)), t))
  {
    var c := s.running[id];
    RememberCapped(o, s.cache, c.key, Cached(true, Min(c.began + o.cacheMs, exp)));
    RememberPassedCapped(o, s.passed, c.key, exp, c.began);
    var next := Conclude(o, s, id, Some(Passed(exp)), t);
    assert next.passed == RememberPassed(o, s.passed, c.key, exp, c.began);
  }

  lemma {:induction false} ConcludeKeeps(o: Options, s: State, id: nat, verdict: Option<Verdict>, t: int)
    requires Inv(o, s) && s.now <= t && id in s.running
    ensures Inv(o, Conclude(o, s, id, verdict, t))
  {
    LaterMetered(s.limiter, o.budget, s.now, t);
    ConcludeOneAtATime(o, s, id, verdict, t);
    if verdict.Some? {
      ConcludeCaches(o, s, id, verdict.value, t);
      match verdict.value
      case Refused => RefusedCapped(o, s, id, t);
      case Passed(exp) => PassedCapped(o, s, id, exp, t);
    }
  }

  lemma {:induction false} SettleKeeps(o: Options, s: State, id: nat, t: int)
    requires Inv(o, s) && s.now <= t && id in s.running
    ensures Inv(o, Settle(s, id, t))
  {
    LaterMetered(s.limiter, o.budget, s.now, t);
  }

  lemma {:induction false} StepKeeps(o: Options, s: State, a: Action)
    requires Inv(o, s) && Enabled(s, a)
    ensures Inv(o, Next(o, s, a))
  {
    match a
    case DoVerify(key, client, t1, t2) => VerifyKeeps(o, s, key, client, t1, t2);
    case DoConclude(id, verdict, t) => ConcludeKeeps(o, s, id, verdict, t);
    case DoSettle(id, t) => SettleKeeps(o, s, id, t);
  }

  // ---------------------------------------------------------------- runs

  /** A run: the states between the actions. */
  ghost predicate IsRun(o: Options, states: seq<State>, actions: seq<Action>) {
    && |states| == |actions| + 1 && states[0] == Initial(states[0].now) && states[0].now >= 0
    && forall i :: 0 <= i < |actions| ==> Enabled(states[i], actions[i]) && states[i + 1] == Next(o, states[i], actions[i])
  }

  lemma {:induction false} RunKeeps(o: Options, states: seq<State>, actions: seq<Action>, i: nat)
    requires IsRun(o, states, actions) && i < |states|
    ensures Inv(o, states[i])
    decreases i
  {
    if i == 0 {
      EmptyMetered(o.budget, states[0].now);
    } else {
      RunKeeps(o, states, actions, i - 1);
      StepKeeps(o, states[i - 1], actions[i - 1]);
    }
  }

  /** At most one check per token is in progress. */
  lemma {:induction false} OneCheckPerToken(o: Options, states: seq<State>, actions: seq<Action>, i: nat, a: nat, b: nat)
    requires IsRun(o, states, actions) && i < |states|
    requires a in states[i].running && b in states[i].running && states[i].running[a].key == states[i].running[b].key
    ensures a == b
  {
    RunKeeps(o, states, actions, i);
  }

  /** A check of this token passed, began less than `cacheMs` before `t`, and the token had not expired at `t`. */
  predicate VouchesFor(o: Options, c: Conclusion, key: Key, t: int) {
    c.key == key && c.verdict.Passed? && t < c.verdict.expiresAt && t < c.began + o.cacheMs
  }

  /** A remembered yes is served only if the latest check of this very token passed, before the token
      expires and within `cacheMs` of the start of that check. */
  lemma {:induction false} ServedYesIsCurrent(o: Options, states: seq<State>, actions: seq<Action>, i: nat)
    requires IsRun(o, states, actions) && i < |actions| && actions[i].DoVerify?
    requires AnswerOf(o, states[i], actions[i].key, actions[i].client, actions[i].t1, actions[i].t2) == Served(true)
    ensures
      var latest := Latest(states[i].concluded, actions[i].key);
      latest.Some? && VouchesFor(o, latest.value, actions[i].key, actions[i].t1)
  {
    RunKeeps(o, states, actions, i);
    var log, key := states[i].concluded, actions[i].key;
    assert Backed(o, log, key, states[i].cache.entries[key]);
    LatestIsOwn(log, key);
  }

  lemma {:induction false} LatestIsOwn(log: seq<Conclusion>, key: Key)
    ensures Latest(log, key).Some? ==> Latest(log, key).value.key == key && Latest(log, key).value in log
    decreases |log|
  {
    if log != [] {
      LatestIsOwn(log[..|log| - 1], key);
    }
  }

  /** A check skips the budget only if the token's latest verdict is that it passed, and it has not expired. */
  lemma {:induction false} FreeCheckPassedBefore(o: Options, states: seq<State>, actions: seq<Action>, i: nat)
    requires IsRun(o, states, actions) && i < |actions| && actions[i].DoVerify?
    requires
      var answer := AnswerOf(o, states[i], actions[i].key, actions[i].client, actions[i].t1, actions[i].t2);
      answer.Started? && !answer.counted
    ensures
      var latest := Latest(states[i].concluded, actions[i].key);
      latest.Some? && latest.value.verdict.Passed? && actions[i].t2 < latest.value.verdict.expiresAt
  {
    RunKeeps(o, states, actions, i);
  }

  /** Over every interleaving, the checks that cost budget stay within it. */
  lemma {:induction false} ChecksBounded(o: Options, states: seq<State>, actions: seq<Action>, i: nat)
    requires IsRun(o, states, actions) && i < |states|
    ensures SmallTable(states[i].limiter.windows, o.budget)
    ensures forall t :: CountMinute(AllTicks(states[i].limiter.log), t) <= 2 * o.budget.perMinute
    ensures forall c, t :: CountMinute(ClientTicks(states[i].limiter.log, c), t) <= 2 * o.budget.perClient
  {
    RunKeeps(o, states, actions, i);
    MeteredBounds(states[i].limiter, o.budget, states[i].now);
  }

  // ---------------------------------------------------------------- the limits of the caches

  /** In every state of every run, the remembered answers stay within `maxEntries`. */
  ghost predicate CacheWithin(o: Options) {
    forall states: seq<State>, actions: seq<Action>, i: nat :: IsRun(o, states, actions) && i < |states| ==> Size(states[i].cache) <= o.maxEntries
  }

  /** In every state of every run, the sessions that passed stay within ten times that. */
  ghost predicate PassedWithin(o: Options) {
    forall states: seq<State>, actions: seq<Action>, i: nat :: IsRun(o, states, actions) && i < |states| ==> Size(states[i].passed) <= o.maxEntries * 10
  }

  lemma {:induction false} CachesCapped(o: Options, states: seq<State>, actions: seq<Action>, i: nat)
    requires IsRun(o, states, actions) && i < |states| && o.maxEntries >= 1
    ensures Size(states[i].cache) <= o.maxEntries && Size(states[i].passed) <= o.maxEntries * 10
  {
    RunKeeps(o, states, actions, i);
  }

  /** Nothing is remembered, and no check in progress can still come to a verdict. */
  ghost predicate Barred(s: State) {
    && s.now >= 0 && s.cache == EmptyTable() && s.passed == EmptyTable()
    && forall id :: id in s.running ==> s.running[id].settled
  }

  lemma {:induction false} BarredStays(o: Options, s: State, a: Action)
    requires o.budget.perMinute == 0 && Barred(s) && Enabled(s, a)
    ensures Barred(Next(o, s, a))
  {
    if a.DoVerify? {
      assert s.cache.entries - {a.key} == map[];
      assert Remove(s.cache, {a.key}) == EmptyTable<Cached>();
    }
  }

  /** A budget of nothing lets no check through, so nothing is ever remembered. */
  lemma {:induction false} NoBudgetRemembersNothing(o: Options, states: seq<State>, actions: seq<Action>, i: nat)
    requires IsRun(o, states, actions) && i < |states| && o.budget.perMinute == 0
    ensures Barred(states[i])
    decreases i
  {
    if i > 0 {
      NoBudgetRemembersNothing(o, states, actions, i - 1);
      BarredStays(o, states[i - 1], actions[i - 1]);
    }
  }

  /** A first check, and the verdict it comes to. */
  function FirstActions(verdict: Verdict): seq<Action> {
    [DoVerify("", None, 0, 0), DoConclude(0, Some(verdict), 0)]
  }

  function FirstStates(o: Options, verdict: Verdict): seq<State>
    requires o.budget.perMinute > 0
  {
    var s1 := Verify(o, Initial(0), "", None, 0, 0);
    FirstCheck(o);
    [Initial(0), s1, Conclude(o, s1, 0, Some(verdict), 0)]
  }

  lemma {:induction false} FirstCheck(o: Options)
    requires o.budget.perMinute > 0
    ensures
      var s1 := Verify(o, Initial(0), "", None, 0, 0);
      && s1.running == map[0 := Check("", 0, false)] && s1.now == 0
      && s1.cache == EmptyTable() && s1.passed == EmptyTable()
  {
    assert EmptyTable<Cached>().entries - {""} == map[];
    assert Remove(EmptyTable<Cached>(), {""}) == EmptyTable<Cached>();
  }

  /** With room for no entries one is kept all the same, once a check has come to a verdict. */
  lemma {:induction false} NoEntriesStillOne(o: Options)
    requires o.maxEntries == 0 && o.budget.perMinute > 0
    ensures IsRun(o, FirstStates(o, Refused), FirstActions(Refused)) && Size(FirstStates(o, Refused)[2].cache) == 1
    ensures IsRun(o, FirstStates(o, Passed(1)), FirstActions(Passed(1))) && Size(FirstStates(o, Passed(1))[2].passed) == 1
  {
    FirstCheck(o);
    assert DropExpired(EmptyTable(), 0).order == [];
  }

  /** The limits hold over every run exactly with room for one entry, or with a budget that admits nothing. */
  lemma {:induction false} CapsHoldIff(o: Options)
    ensures CacheWithin(o) <==> o.maxEntries >= 1 || o.budget.perMinute == 0
    ensures PassedWithin(o) <==> o.maxEntries >= 1 || o.budget.perMinute == 0
  {
    if o.maxEntries >= 1 {
      forall states: seq<State>, actions: seq<Action>, i: nat | IsRun(o, states, actions) && i < |states|
        ensures Size(states[i].cache) <= o.maxEntries && Size(states[i].passed) <= o.maxEntries * 10
      {
        CachesCapped(o, states, actions, i);
      }
    } else if o.budget.perMinute == 0 {
      forall states: seq<State>, actions: seq<Action>, i: nat | IsRun(o, states, actions) && i < |states|
        ensures Size(states[i].cache) == 0 && Size(states[i].passed) == 0
      {
        NoBudgetRemembersNothing(o, states, actions, i);
      }
    } else {
      NoEntriesStillOne(o);
      var refused, passed := FirstStates(o, Refused), FirstStates(o, Passed(1));
      assert IsRun(o, refused, FirstActions(Refused)) && Size(refused[2].cache) > o.maxEntries;
      assert IsRun(o, passed, FirstActions(Passed(1))) && Size(passed[2].passed) > o.maxEntries * 10;
    }
  }
}
