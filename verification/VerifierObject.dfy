/** The closures of `createTokenVerifier` in console/src/lib/auth.ts: maps updated in place. */
module VerifierObject {
  import opened Basics
  import opened RateLimit
  import opened TokenVerifier

  // ---------------------------------------------------------------- the loops

  /** The sweep in `countIntrospection`, in whatever order the map is walked. */
  method SweepWindows(full: Windows, at: int) returns (windows: Windows)
    ensures windows == Sweep(full, at)
  {
    windows := full;
    if |full| > SWEEP_ABOVE {
      var names := full.Keys;
      while names != {}
        invariant names <= full.Keys && names <= windows.Keys <= full.Keys
        invariant forall n :: n in windows ==> windows[n] == full[n]
        invariant forall n :: n in full && n !in names ==> (n in windows <==> at - full[n].startedAt < MINUTE)
      {
        var name :| name in names;
        names := names - {name};
        if at - windows[name].startedAt >= MINUTE {
          windows := windows - {name};
        }
      }
    }
  }

  lemma {:induction false} KeepTwice(order: seq<Key>, keep: set<Key>, fewer: set<Key>)
    requires fewer <= keep
    ensures KeepKeys(KeepKeys(order, keep), fewer) == KeepKeys(order, fewer)
  {
    if order != [] {
      KeepTwice(order[1..], keep, fewer);
      var rest := KeepKeys(order[1..], keep);
      if order[0] in keep {
        assert ([order[0]] + rest)[1..] == rest;
      } else {
        assert [] + rest == rest;
      }
    }
  }

  lemma {:induction false} RemoveOneMore<V>(t: Table<V>, gone: set<Key>, key: Key)
    ensures Remove(Remove(t, gone), {key}) == Remove(t, gone + {key})
  {
    var keep := t.entries.Keys - gone;
    assert (t.entries - gone).Keys == keep;
    assert keep - {key} == t.entries.Keys - (gone + {key});
    KeepTwice(t.order, keep, keep - {key});
    assert (t.entries - gone) - {key} == t.entries - (gone + {key});
  }

  lemma {:induction false} RemoveNone<V>(t: Table<V>)
    requires TableOk(t)
    ensures Remove(t, {}) == t
  {
    KeepsAll(t.order, t.entries.Keys - {});
    assert t.entries - {} == t.entries;
  }

  predicate Expired(t: Table<int>, at: int, k: Key) {
    k in t.entries && t.entries[k] <= at
  }

  /** The expired ones among the first `n` keys. */
  ghost function ExpiredAmong(t: Table<int>, at: int, n: nat): set<Key>
    requires n <= |t.order|
  {
    if n == 0 then {} else ExpiredAmong(t, at, n - 1) + if Expired(t, at, t.order[n - 1]) then {t.order[n - 1]} else {}
  }

  lemma {:induction false} ExpiredIs(t: Table<int>, at: int, n: nat, k: Key)
    requires n <= |t.order|
    ensures k in ExpiredAmong(t, at, n) <==> k in t.order[..n] && Expired(t, at, k)
  {
    if n > 0 {
      ExpiredIs(t, at, n - 1, k);
      assert t.order[..n] == t.order[..n - 1] + [t.order[n - 1]];
    }
  }

  /** The first `n` keys looked at, one by one. */
  function Swept(t: Table<int>, at: int, n: nat): Table<int>
    requires n <= |t.order|
  {
    if n == 0 then t
    else
      var before, k := Swept(t, at, n - 1), t.order[n - 1];
      if Expired(t, at, k) then Remove(before, {k}) else before
  }

  lemma {:induction false} SweptIs(t: Table<int>, at: int, n: nat)
    requires n <= |t.order| && Remove(t, {}) == t
    ensures Swept(t, at, n) == Remove(t, ExpiredAmong(t, at, n))
    decreases n
  {
    if n > 0 {
      SweptIs(t, at, n - 1);
      var gone, k := ExpiredAmong(t, at, n - 1), t.order[n - 1];
      if Expired(t, at, k) {
        RemoveOneMore(t, gone, k);
      } else {
        assert gone + {} == gone;
      }
    }
  }

  lemma {:induction false} AllExpired(t: Table<int>, at: int)
    requires TableOk(t)
    ensures ExpiredAmong(t, at, |t.order|) == set k | k in t.entries && t.entries[k] <= at
  {
    assert t.order[..|t.order|] == t.order;
    forall k ensures k in ExpiredAmong(t, at, |t.order|) <==> Expired(t, at, k) {
      ExpiredIs(t, at, |t.order|, k);
    }
  }

  lemma {:induction false} SweptAll(t: Table<int>, at: int)
    requires TableOk(t)
    ensures Swept(t, at, |t.order|) == DropExpired(t, at)
  {
    RemoveNone(t);
    SweptIs(t, at, |t.order|);
    AllExpired(t, at);
  }

  /** The loop in `rememberPassed`. */
  method SweepExpired(t: Table<int>, at: int) returns (r: Table<int>)
    ensures r == Swept(t, at, |t.order|)
  {
    r := t;
    for i := 0 to |t.order|
      invariant r == Swept(t, at, i)
    {
      if Expired(t, at, t.order[i]) {
        r := Remove(r, {t.order[i]});
      }
    }
  }

  method DeleteExpired(t: Table<int>, at: int) returns (r: Table<int>)
    requires TableOk(t)
    ensures r == DropExpired(t, at)
  {
    r := SweepExpired(t, at);
    SweptAll(t, at);
  }

  // ---------------------------------------------------------------- the closures

  /** What the closures share.  The ghost fields are its history. */
  class Verifier {
    const o: Options
    var cache: Table<Cached>
    var checking: map<Key, nat>
    var passed: Table<int>
    var windows: Windows
    var running: map<nat, Check>
    var nextId: nat
    ghost var log: seq<Admission>
    ghost var concluded: seq<Conclusion>
    ghost var now: int

    ghost function St(): State
      reads this
    {
      State(cache, checking, passed, Limiter(windows, log), running, nextId, concluded, now)
    }

    ghost predicate Valid()
      reads this
    {
      Inv(o, St())
    }

    constructor (o: Options, ghost now: int)
      requires now >= 0
      ensures Valid() && this.o == o && St() == Initial(now)
    {
      this.o := o;
      cache, checking, passed, windows := EmptyTable(), map[], EmptyTable(), map[];
      running, nextId, log, concluded := map[], 0, [], [];
      this.now := now;
      new;
      EmptyMetered(o.budget, now);
    }

    method CountIntrospection(client: Option<string>, at: int) returns (admitted: bool)
      modifies this`windows, this`log
      ensures admitted == Admits(old(windows), o.budget, client, at)
      ensures Limiter(windows, log) == Count(Limiter(old(windows), old(log)), o.budget, client, at)
    {
      var all := OpenWindow(windows, Everyone, at);
      if all.count >= o.budget.perMinute {
        return false;
      }
      var own := if client.Some? then OpenWindow(windows, Client(client.value), at) else Window(at, 0);
      if client.Some? && own.count >= o.budget.perClient {
        return false;
      }
      log := log + [AdmissionOf(windows, client, at)];
      var bumped := windows[Everyone := Window(all.startedAt, all.count + 1)];
      if client.Some? {
        bumped := bumped[Client(client.value) := Window(own.startedAt, own.count + 1)];
      }
      windows := SweepWindows(bumped, at);
      return true;
    }

    method RememberPassed(key: Key, expiresAt: int, at: int)
      requires TableOk(passed)
      modifies this`passed
      ensures passed == TokenVerifier.RememberPassed(o, old(passed), key, expiresAt, at)
    {
      if Size(passed) >= o.maxEntries * 10 {
        passed := DeleteExpired(passed, at);
        if Size(passed) >= o.maxEntries * 10 && passed.order != [] {
          passed := Remove(passed, {passed.order[0]});
        }
      }
      passed := Put(passed, key, expiresAt);
    }

    method Remember(key: Key, value: Cached)
      modifies this`cache
      ensures cache == TokenVerifier.Remember(o, old(cache), key, value)
    {
      if Size(cache) >= o.maxEntries && cache.order != [] {
        cache := Remove(cache, {cache.order[0]});
      }
      cache := Put(cache, key, value);
    }

    /** `verify`, and `check` up to its first wait. */
    method Verify(key: Key, client: Option<string>, t1: int, t2: int) returns (answer: Answer)
      requires Valid() && Enabled(St(), DoVerify(key, client, t1, t2))
      modifies this
      ensures Valid() && St() == Next(o, old(St()), DoVerify(key, client, t1, t2))
      ensures answer == AnswerOf(o, old(St()), key, client, t1, t2)
    {
      StepKeeps(o, St(), DoVerify(key, client, t1, t2));
      answer := Look(key, client, t1, t2);
    }

    /** The body of `verify`: a remembered answer, the check in progress, or a new one. */
    method Look(key: Key, client: Option<string>, t1: int, t2: int) returns (answer: Answer)
      requires Enabled(St(), DoVerify(key, client, t1, t2))
      modifies this
      ensures St() == Next(o, old(St()), DoVerify(key, client, t1, t2))
      ensures answer == AnswerOf(o, old(St()), key, client, t1, t2)
    {
      if key in cache.entries && cache.entries[key].expiresAt > t1 {
        now := t1;
        return Served(cache.entries[key].yes);
      }
      cache := Remove(cache, {key});
      if key in checking {
        now := t1;
        return Joined(checking[key]);
      }
      answer := BeginCheck(key, client, t2);
    }

    /** `check` up to its first wait, and its entry into `checking`. */
    method BeginCheck(key: Key, client: Option<string>, at: int) returns (answer: Answer)
      modifies this`windows, this`log, this`running, this`checking, this`nextId, this`now
      ensures
        var counted := Costs(old(St()), key, at);
        var limited := counted && !Admits(old(windows), o.budget, client, at);
        && answer == Started(old(nextId), counted, limited)
        && St() == old(St()).(
             checking := old(checking)[key := old(nextId)],
             limiter := if counted then Count(Limiter(old(windows), old(log)), o.budget, client, at) else Limiter(old(windows), old(log)),
             running := old(running)[old(nextId) := Check(key, at, limited)],
             nextId := old(nextId) + 1,
             now := at)
    {
      var counted := (if key in passed.entries then passed.entries[key] else 0) <= at;
      var limited := false;
      if counted {
        var admitted := CountIntrospection(client, at);
        limited := !admitted;
      }
      running := running[nextId := Check(key, at, limited)];
      checking := checking[key := nextId];
      nextId := nextId + 1;
      now := at;
      return Started(nextId - 1, counted, limited);
    }

    /** `refused` in `check`. */
    method Refuse(c: Check)
      modifies this`passed, this`cache, this`concluded
      ensures passed == Remove(old(passed), {c.key})
      ensures cache == TokenVerifier.Remember(o, old(cache), c.key, Cached(false, c.began + o.cacheMs))
      ensures concluded == old(concluded) + [Conclusion(c.key, c.began, Refused)]
    {
      passed := Remove(passed, {c.key});
      Remember(c.key, Cached(false, c.began + o.cacheMs));
      concluded := concluded + [Conclusion(c.key, c.began, Refused)];
    }

    /** The end of a `check` that passed. */
    method Pass(c: Check, exp: int)
      requires TableOk(passed)
      modifies this`passed, this`cache, this`concluded
      ensures passed == TokenVerifier.RememberPassed(o, old(passed), c.key, exp, c.began)
      ensures cache == TokenVerifier.Remember(o, old(cache), c.key, Cached(true, Min(c.began + o.cacheMs, exp)))
      ensures concluded == old(concluded) + [Conclusion(c.key, c.began, Passed(exp))]
    {
      RememberPassed(c.key, exp, c.began);
      Remember(c.key, Cached(true, Min(c.began + o.cacheMs, exp)));
      concluded := concluded + [Conclusion(c.key, c.began, Passed(exp))];
    }

    /** `check` from the server's last answer on. */
    method Conclude(id: nat, verdict: Option<Verdict>, t: int)
      requires Valid() && Enabled(St(), DoConclude(id, verdict, t))
      modifies this
      ensures Valid() && St() == Next(o, old(St()), DoConclude(id, verdict, t))
    {
      StepKeeps(o, St(), DoConclude(id, verdict, t));
      Finish(id, verdict, t);
    }

    /** The end of the body of `check`. */
    method Finish(id: nat, verdict: Option<Verdict>, t: int)
      requires TableOk(passed) && Enabled(St(), DoConclude(id, verdict, t))
      modifies this
      ensures St() == Next(o, old(St()), DoConclude(id, verdict, t))
    {
      var c := running[id];
      running := running[id := c.(settled := true)];
      now := t;
      match verdict {
        case None =>
        case Some(Refused) => Refuse(c);
        case Some(Passed(exp)) => Pass(c, exp);
      }
    }

    /** `finally`. */
    method Settle(id: nat, t: int)
      requires Valid() && Enabled(St(), DoSettle(id, t))
      modifies this
      ensures Valid() && St() == Next(o, old(St()), DoSettle(id, t))
    {
      StepKeeps(o, St(), DoSettle(id, t));
      checking := checking - {running[id].key};
      running := running - {id};
      now := t;
    }
  }
}
