/**
 The introspection budget of console/src/lib/auth.ts: one fixed one-minute window for everyone and
 one per client, each started by the first check it admits.
 */
module RateLimit {
  import opened Basics

  const MINUTE: int := 60_000
  const SWEEP_ABOVE: nat := 10_000

  /** The names windows are kept under: `*`, and `client ...` for each known client. */
  datatype Name = Everyone | Client(address: string)

  datatype Window = Window(startedAt: int, count: nat)

  type Windows = map<Name, Window>

  datatype Budget = Budget(perMinute: nat, perClient: nat)

  /** An admitted check: when, for whom, and the starts of the windows it was counted in. */
  datatype Admission = Admission(at: int, client: Option<string>, start: int, ownStart: int)

  // ---------------------------------------------------------------- one check

  /** The window of that name, if it is less than a minute old. */
  function Current(windows: Windows, name: Name, at: int): Option<Window> {
    if name in windows && at - windows[name].startedAt < MINUTE then Some(windows[name]) else None
  }

  function OpenWindow(windows: Windows, name: Name, at: int): Window {
    match Current(windows, name, at)
    case Some(w) => w
    case None => Window(at, 0)
  }

  predicate Admits(windows: Windows, budget: Budget, client: Option<string>, at: int) {
    && OpenWindow(windows, Everyone, at).count < budget.perMinute
    && (client.Some? ==> OpenWindow(windows, Client(client.value), at).count < budget.perClient)
  }

  function Bump(windows: Windows, name: Name, at: int): Windows {
    var w := OpenWindow(windows, name, at);
    windows[name := Window(w.startedAt, w.count + 1)]
  }

  /** Windows a minute old or more are dropped once the table is large. */
  function Sweep(windows: Windows, at: int): (r: Windows)
    ensures r.Keys <= windows.Keys
    ensures forall n :: n in r ==> r[n] == windows[n]
    ensures forall n :: n in windows && n !in r ==> at - windows[n].startedAt >= MINUTE
    ensures |windows| > SWEEP_ABOVE ==> forall n :: n in r ==> at - r[n].startedAt < MINUTE
  {
    if |windows| > SWEEP_ABOVE then map n | n in windows && at - windows[n].startedAt < MINUTE :: windows[n]
    else windows
  }

  function Counted(windows: Windows, client: Option<string>, at: int): Windows {
    var all := Bump(windows, Everyone, at);
    Sweep(if client.Some? then Bump(all, Client(client.value), at) else all, at)
  }

  function AdmissionOf(windows: Windows, client: Option<string>, at: int): Admission {
    Admission(at, client, OpenWindow(windows, Everyone, at).startedAt,
              if client.Some? then OpenWindow(windows, Client(client.value), at).startedAt else at)
  }

  /** The limiter with its history. */
  datatype Limiter = Limiter(windows: Windows, log: seq<Admission>)

  /** `countIntrospection`: counts the check, or refuses it and changes nothing. */
  function Count(l: Limiter, budget: Budget, client: Option<string>, at: int): Limiter {
    if Admits(l.windows, budget, client, at)
    then Limiter(Counted(l.windows, client, at), l.log + [AdmissionOf(l.windows, client, at)])
    else l
  }

  // ---------------------------------------------------------------- paced ticks

  /** A counted check as one window sees it. */
  datatype Tick = Tick(at: int, start: int)

  function CountStart(ticks: seq<Tick>, start: int): nat {
    if ticks == [] then 0 else CountStart(ticks[..|ticks| - 1], start) + if ticks[|ticks| - 1].start == start then 1 else 0
  }

  /** How many ticks fall in the closed minute from `t`. */
  function CountMinute(ticks: seq<Tick>, t: int): nat {
    if ticks == [] then 0
    else CountMinute(ticks[..|ticks| - 1], t) + if t <= ticks[|ticks| - 1].at <= t + MINUTE then 1 else 0
  }

  /** Ticks lie in windows of a minute that follow each other. */
  ghost predicate Spaced(ticks: seq<Tick>) {
    && (forall i :: 0 <= i < |ticks| ==> ticks[i].start <= ticks[i].at < ticks[i].start + MINUTE)
    && (forall i, j :: 0 <= i < j < |ticks| ==>
          ticks[i].at <= ticks[j].at && (ticks[i].start == ticks[j].start || ticks[i].start + MINUTE <= ticks[j].start))
  }

  /** A window starts with a tick. */
  ghost predicate StartsWithTick(ticks: seq<Tick>, start: int) {
    exists k :: 0 <= k < |ticks| && ticks[k] == Tick(start, start)
  }

  ghost predicate Paced(ticks: seq<Tick>, cap: nat) {
    && Spaced(ticks)
    && (forall s :: CountStart(ticks, s) <= cap)
    && (ticks != [] ==> StartsWithTick(ticks, ticks[|ticks| - 1].start))
  }

  predicate InMinute(ticks: seq<Tick>, i: nat, t: int) {
    i < |ticks| && t <= ticks[i].at <= t + MINUTE
  }

  /** No three windows have ticks in one minute. */
  lemma {:induction false} NotThree(ticks: seq<Tick>, t: int, i: nat, j: nat, k: nat)
    requires Spaced(ticks) && InMinute(ticks, i, t) && InMinute(ticks, j, t) && InMinute(ticks, k, t)
    ensures ticks[i].start == ticks[j].start || ticks[j].start == ticks[k].start || ticks[i].start == ticks[k].start
  {}

  /** The ticks of a minute lie in at most two windows. */
  lemma {:induction false} TwoWindows(ticks: seq<Tick>, t: int) returns (a: int, b: int)
    requires Spaced(ticks)
    ensures forall i: nat :: InMinute(ticks, i, t) ==> ticks[i].start == a || ticks[i].start == b
  {
    a, b := 0, 0;
    if i: nat :| InMinute(ticks, i, t) {
      a, b := ticks[i].start, ticks[i].start;
      if j: nat :| InMinute(ticks, j, t) && ticks[j].start != a {
        b := ticks[j].start;
        forall k: nat | InMinute(ticks, k, t) ensures ticks[k].start == a || ticks[k].start == b {
          NotThree(ticks, t, i, j, k);
        }
      }
    }
  }

  lemma {:induction false} CountTwo(ticks: seq<Tick>, t: int, a: int, b: int)
    requires forall i: nat :: InMinute(ticks, i, t) ==> ticks[i].start == a || ticks[i].start == b
    ensures CountMinute(ticks, t) <= CountStart(ticks, a) + CountStart(ticks, b)
  {
    if ticks != [] {
      var last := |ticks| - 1;
      assert forall i: nat :: InMinute(ticks[..last], i, t) ==> InMinute(ticks, i, t);
      assert InMinute(ticks, last, t) == (t <= ticks[last].at <= t + MINUTE);
      CountTwo(ticks[..last], t, a, b);
    }
  }

  /** In any minute, closed at both ends, at most twice the cap. */
  lemma {:induction false} MinuteBound(ticks: seq<Tick>, cap: nat, t: int)
    requires Paced(ticks, cap)
    ensures CountMinute(ticks, t) <= 2 * cap
  {
    var a, b := TwoWindows(ticks, t);
    CountTwo(ticks, t, a, b);
  }

  // ---------------------------------------------------------------- the log

  function AllTicks(log: seq<Admission>): seq<Tick> {
    if log == [] then [] else AllTicks(log[..|log| - 1]) + [Tick(log[|log| - 1].at, log[|log| - 1].start)]
  }

  function ClientTicks(log: seq<Admission>, client: string): seq<Tick> {
    if log == [] then []
    else
      var last := log[|log| - 1];
      ClientTicks(log[..|log| - 1], client) + if last.client == Some(client) then [Tick(last.at, last.ownStart)] else []
  }

  function TicksOf(log: seq<Admission>, name: Name): seq<Tick> {
    match name
    case Everyone => AllTicks(log)
    case Client(c) => ClientTicks(log, c)
  }

  function CapOf(budget: Budget, name: Name): nat {
    if name.Everyone? then budget.perMinute else budget.perClient
  }

  /** How a window stands to the ticks counted under its name: it is the last one's, or it is gone and
      the last one's is over. */
  ghost predicate Coupled(ticks: seq<Tick>, cap: nat, window: Option<Window>, now: int) {
    && Paced(ticks, cap)
    && (ticks != [] ==> ticks[|ticks| - 1].at <= now)
    && (window.Some? ==>
        && ticks != [] && ticks[|ticks| - 1].start == window.value.startedAt
        && window.value.count == CountStart(ticks, window.value.startedAt))
    && (window.None? && ticks != [] ==> ticks[|ticks| - 1].start + MINUTE <= now)
  }

  function WindowAt(windows: Windows, name: Name): Option<Window> {
    if name in windows then Some(windows[name]) else None
  }

  /** What every run of the limiter keeps, the clock standing at `now`. */
  ghost predicate Metered(l: Limiter, budget: Budget, now: int) {
    forall name :: Coupled(TicksOf(l.log, name), CapOf(budget, name), WindowAt(l.windows, name), now)
  }

  lemma {:induction false} LaterMetered(l: Limiter, budget: Budget, now: int, later: int)
    requires Metered(l, budget, now) && now <= later
    ensures Metered(l, budget, later)
  {
    forall name ensures Coupled(TicksOf(l.log, name), CapOf(budget, name), WindowAt(l.windows, name), later) {
      assert Coupled(TicksOf(l.log, name), CapOf(budget, name), WindowAt(l.windows, name), now);
    }
  }

  // ---------------------------------------------------------------- every check keeps it metered

  lemma {:induction false} TicksSnoc(log: seq<Admission>, a: Admission, name: Name)
    ensures TicksOf(log + [a], name) ==
      TicksOf(log, name) +
      (match name
       case Everyone => [Tick(a.at, a.start)]
       case Client(c) => if a.client == Some(c) then [Tick(a.at, a.ownStart)] else [])
  {
    assert (log + [a])[..|log|] == log;
  }

  lemma {:induction false} CountSnoc(ticks: seq<Tick>, tick: Tick, s: int)
    ensures CountStart(ticks + [tick], s) == CountStart(ticks, s) + if tick.start == s then 1 else 0
  {
    assert (ticks + [tick])[..|ticks|] == ticks;
  }

  /** No tick of a window not yet started. */
  lemma {:induction false} CountNone(ticks: seq<Tick>, s: int)
    requires forall i :: 0 <= i < |ticks| ==> ticks[i].start < s
    ensures CountStart(ticks, s) == 0
  {
    if ticks != [] {
      CountNone(ticks[..|ticks| - 1], s);
    }
  }

  /** The window a check is counted in, as `OpenWindow` finds it. */
  function Opened(window: Option<Window>, at: int): Window {
    if window.Some? && at - window.value.startedAt < MINUTE then window.value else Window(at, 0)
  }

  lemma {:induction false} SpacedSnoc(ticks: seq<Tick>, tick: Tick)
    requires Spaced(ticks) && tick.start <= tick.at < tick.start + MINUTE
    requires ticks != [] ==>
      var last := ticks[|ticks| - 1];
      last.at <= tick.at && (last.start == tick.start || last.start + MINUTE <= tick.start)
    ensures Spaced(ticks + [tick])
  {
    var longer := ticks + [tick];
    forall i, j | 0 <= i < j < |longer|
      ensures longer[i].at <= longer[j].at && (longer[i].start == longer[j].start || longer[i].start + MINUTE <= longer[j].start)
    {
      if j == |ticks| && i < |ticks| - 1 {
        assert ticks[i].at <= ticks[|ticks| - 1].at;
      }
    }
  }

  /** Counting a check in its window. */
  lemma {:induction false} CountedCoupled(ticks: seq<Tick>, cap: nat, window: Option<Window>, now: int, at: int)
    requires Coupled(ticks, cap, window, now) && now <= at
    requires Opened(window, at).count < cap
    ensures
      var w := Opened(window, at);
      Coupled(ticks + [Tick(at, w.startedAt)], cap, Some(Window(w.startedAt, w.count + 1)), at)
  {
    var w := Opened(window, at);
    var tick := Tick(at, w.startedAt);
    var longer := ticks + [tick];
    SpacedSnoc(ticks, tick);
    if w.startedAt == at && !(window.Some? && at - window.value.startedAt < MINUTE) {
      forall i | 0 <= i < |ticks| ensures ticks[i].start < at {
        assert ticks[i].start <= ticks[|ticks| - 1].start;
      }
      CountNone(ticks, at);
      assert longer[|ticks|] == Tick(at, at);
    } else {
      var k :| 0 <= k < |ticks| && ticks[k] == Tick(w.startedAt, w.startedAt);
      assert longer[k] == ticks[k];
    }
    forall s ensures CountStart(longer, s) <= cap {
      CountSnoc(ticks, tick, s);
    }
    CountSnoc(ticks, tick, w.startedAt);
  }

  /** A name the check is not counted under: its window stays, or goes because it is over. */
  lemma {:induction false} OtherCoupled(ticks: seq<Tick>, cap: nat, window: Option<Window>, after: Option<Window>, now: int, at: int)
    requires Coupled(ticks, cap, window, now) && now <= at
    requires after == window || (after.None? && window.Some? && at - window.value.startedAt >= MINUTE)
    ensures Coupled(ticks, cap, after, at)
  {}

  /** What the windows of a name are after a counted check. */
  lemma {:induction false} WindowAfter(windows: Windows, client: Option<string>, at: int, name: Name)
    ensures
      var after := WindowAt(Counted(windows, client, at), name);
      if name == Everyone || (client.Some? && name == Client(client.value)) then
        var w := Opened(WindowAt(windows, name), at);
        after == Some(Window(w.startedAt, w.count + 1))
      else
        var before := WindowAt(windows, name);
        after == before || (after.None? && before.Some? && at - before.value.startedAt >= MINUTE)
  {}

  lemma {:induction false} CountedName(l: Limiter, budget: Budget, client: Option<string>, at: int, name: Name)
    requires Coupled(TicksOf(l.log, name), CapOf(budget, name), WindowAt(l.windows, name), at)
    requires Admits(l.windows, budget, client, at)
    ensures
      var l' := Count(l, budget, client, at);
      Coupled(TicksOf(l'.log, name), CapOf(budget, name), WindowAt(l'.windows, name), at)
  {
    var l' := Count(l, budget, client, at);
    var ticks, window := TicksOf(l.log, name), WindowAt(l.windows, name);
    TicksSnoc(l.log, AdmissionOf(l.windows, client, at), name);
    WindowAfter(l.windows, client, at, name);
    if name == Everyone || (client.Some? && name == Client(client.value)) {
      CountedCoupled(ticks, CapOf(budget, name), window, at, at);
    } else {
      assert TicksOf(l'.log, name) == ticks;
      OtherCoupled(ticks, CapOf(budget, name), window, WindowAt(l'.windows, name), at, at);
    }
  }

  /** `countIntrospection` keeps the limiter metered. */
  lemma {:induction false} CountMetered(l: Limiter, budget: Budget, client: Option<string>, now: int, at: int)
    requires Metered(l, budget, now) && now <= at
    ensures Metered(Count(l, budget, client, at), budget, at)
  {
    LaterMetered(l, budget, now, at);
    if Admits(l.windows, budget, client, at) {
      var l' := Count(l, budget, client, at);
      forall name ensures Coupled(TicksOf(l'.log, name), CapOf(budget, name), WindowAt(l'.windows, name), at) {
        assert Coupled(TicksOf(l.log, name), CapOf(budget, name), WindowAt(l.windows, name), at);
        CountedName(l, budget, client, at, name);
      }
    }
  }

  // ---------------------------------------------------------------- the size of the table

  /** How many admissions fall in the closed minute from `t`. */
  function CountAdmissions(log: seq<Admission>, t: int): nat {
    if log == [] then 0
    else CountAdmissions(log[..|log| - 1], t) + if t <= log[|log| - 1].at <= t + MINUTE then 1 else 0
  }

  lemma {:induction false} AdmissionsAreTicks(log: seq<Admission>, t: int)
    ensures CountAdmissions(log, t) == CountMinute(AllTicks(log), t)
  {
    if log != [] {
      var last := log[|log| - 1];
      var front := AllTicks(log[..|log| - 1]);
      AdmissionsAreTicks(log[..|log| - 1], t);
      assert (front + [Tick(last.at, last.start)])[..|front|] == front;
    }
  }

  /** Clients that each have an admission in the minute are no more than its admissions. */
  lemma {:induction false} ClientsBound(log: seq<Admission>, t: int, clients: set<string>)
    requires forall c :: c in clients ==> exists k :: 0 <= k < |log| && log[k].client == Some(c) && t <= log[k].at <= t + MINUTE
    ensures |clients| <= CountAdmissions(log, t)
  {
    if log == [] {
      if c :| c in clients {
        assert false;
      }
    } else {
      var last := log[|log| - 1];
      var front := log[..|log| - 1];
      var here := if last.client.Some? && t <= last.at <= t + MINUTE then {last.client.value} else {};
      var others := clients - here;
      forall c | c in others ensures exists k :: 0 <= k < |front| && front[k].client == Some(c) && t <= front[k].at <= t + MINUTE {
        var k :| 0 <= k < |log| && log[k].client == Some(c) && t <= log[k].at <= t + MINUTE;
        assert front[k] == log[k];
      }
      ClientsBound(front, t, others);
      assert clients <= others + here;
      CardinalityBound(clients, others, here);
    }
  }

  lemma {:induction false} CardinalityBound<T>(s: set<T>, a: set<T>, b: set<T>)
    requires s <= a + b
    ensures |s| <= |a| + |b|
  {
    Subset(s, a + b);
    assert a + b == a + (b - a) && |a + (b - a)| == |a| + |b - a|;
    Subset(b - a, b);
  }

  lemma {:induction false} Subset<T>(s: set<T>, t: set<T>)
    requires s <= t
    ensures |s| <= |t|
  {
    if x :| x in s {
      Subset(s - {x}, t - {x});
    }
  }

  lemma {:induction false} ClientTickLogged(log: seq<Admission>, client: string, k: nat) returns (i: nat)
    requires k < |ClientTicks(log, client)|
    ensures i < |log| && log[i].client == Some(client) && log[i].at == ClientTicks(log, client)[k].at
  {
    var front := log[..|log| - 1];
    if k < |ClientTicks(front, client)| {
      i := ClientTickLogged(front, client, k);
    } else {
      i := |log| - 1;
    }
  }

  /** If no window is a minute old, the table has at most twice the budget and one entries. */
  lemma {:induction false} YoungWindowsBound(l: Limiter, budget: Budget, now: int)
    requires Metered(l, budget, now)
    requires forall n :: n in l.windows ==> now - l.windows[n].startedAt < MINUTE
    ensures |l.windows| <= 2 * budget.perMinute + 1
  {
    var t := now - MINUTE;
    var clients := set n | n in l.windows && n.Client? :: n.address;
    forall c | c in clients ensures exists k :: 0 <= k < |l.log| && l.log[k].client == Some(c) && t <= l.log[k].at <= t + MINUTE {
      ClientWindowLogged(l, budget, now, c);
    }
    ClientsBound(l.log, t, clients);
    AdmissionsAreTicks(l.log, t);
    assert Coupled(TicksOf(l.log, Everyone), CapOf(budget, Everyone), WindowAt(l.windows, Everyone), now);
    MinuteBound(AllTicks(l.log), budget.perMinute, t);
    NamesBound(l.windows.Keys, clients);
  }

  lemma {:induction false} ClientWindowLogged(l: Limiter, budget: Budget, now: int, c: string)
    requires Metered(l, budget, now) && Client(c) in l.windows && now - l.windows[Client(c)].startedAt < MINUTE
    ensures exists k :: 0 <= k < |l.log| && l.log[k].client == Some(c) && now - MINUTE <= l.log[k].at <= now
  {
    var ticks := ClientTicks(l.log, c);
    assert Coupled(TicksOf(l.log, Client(c)), CapOf(budget, Client(c)), WindowAt(l.windows, Client(c)), now);
    var start := l.windows[Client(c)].startedAt;
    var k :| 0 <= k < |ticks| && ticks[k] == Tick(start, start);
    var i := ClientTickLogged(l.log, c, k);
    assert start <= ticks[|ticks| - 1].at <= now;
  }

  lemma {:induction false} NamesBound(names: set<Name>, clients: set<string>)
    requires forall n :: n in names && n.Client? ==> n.address in clients
    ensures |names| <= |clients| + 1
    decreases |clients|
  {
    if c :| c in clients {
      var fewer := names - {Client(c)};
      NamesBound(fewer, clients - {c});
      assert names <= fewer + {Client(c)};
      CardinalityBound(names, fewer, {Client(c)});
    } else {
      assert names <= {Everyone};
      Subset(names, {Everyone});
    }
  }

  predicate SmallTable(windows: Windows, budget: Budget) {
    |windows| <= SWEEP_ABOVE || |windows| <= 2 * budget.perMinute + 1
  }

  /** After any check the table has at most 10,000 or twice the budget and one entries. */
  lemma {:induction false} CountSmall(l: Limiter, budget: Budget, client: Option<string>, now: int, at: int)
    requires Metered(l, budget, now) && now <= at && SmallTable(l.windows, budget)
    ensures SmallTable(Count(l, budget, client, at).windows, budget)
  {
    CountMetered(l, budget, client, now, at);
    var l' := Count(l, budget, client, at);
    if Admits(l.windows, budget, client, at) && |l'.windows| > SWEEP_ABOVE {
      SweptLarge(l.windows, client, at);
      YoungWindowsBound(l', budget, at);
    }
  }

  lemma {:induction false} SweptLarge(windows: Windows, client: Option<string>, at: int)
    requires |Counted(windows, client, at)| > SWEEP_ABOVE
    ensures forall n :: n in Counted(windows, client, at) ==> at - Counted(windows, client, at)[n].startedAt < MINUTE
  {
    var all := Bump(windows, Everyone, at);
    var full := if client.Some? then Bump(all, Client(client.value), at) else all;
    Subset(Sweep(full, at).Keys, full.Keys);
  }

  // ---------------------------------------------------------------- whole runs

  /** A check asked for by a client at a time. */
  datatype Ask = Ask(client: Option<string>, at: int)

  function RunLimiter(budget: Budget, asks: seq<Ask>): Limiter {
    if asks == [] then Limiter(map[], [])
    else
      var last := asks[|asks| - 1];
      Count(RunLimiter(budget, asks[..|asks| - 1]), budget, last.client, last.at)
  }

  ghost predicate Ascending(asks: seq<Ask>) {
    forall i, j :: 0 <= i < j < |asks| ==> asks[i].at <= asks[j].at
  }

  /** Over every run with a clock that does not go back: in any minute at most twice the budget is
      admitted, for everyone and for each client, and the table stays small. */
  lemma {:induction false} RunBounded(budget: Budget, asks: seq<Ask>)
    requires Ascending(asks)
    ensures
      var l := RunLimiter(budget, asks);
      && Metered(l, budget, if asks == [] then 0 else asks[|asks| - 1].at)
      && SmallTable(l.windows, budget)
      && (forall t :: CountMinute(AllTicks(l.log), t) <= 2 * budget.perMinute)
      && (forall c, t :: CountMinute(ClientTicks(l.log, c), t) <= 2 * budget.perClient)
    decreases |asks|
  {
    var l := RunLimiter(budget, asks);
    var now := if asks == [] then 0 else asks[|asks| - 1].at;
    if asks != [] {
      var front := asks[..|asks| - 1];
      var before := RunLimiter(budget, front);
      RunBounded(budget, front);
      if front == [] {
        EmptyMetered(budget, now);
      }
      CountMetered(before, budget, asks[|asks| - 1].client, if front == [] then now else front[|front| - 1].at, now);
      CountSmall(before, budget, asks[|asks| - 1].client, if front == [] then now else front[|front| - 1].at, now);
    } else {
      EmptyMetered(budget, now);
    }
    MeteredBounds(l, budget, now);
  }

  lemma {:induction false} EmptyMetered(budget: Budget, now: int)
    ensures Metered(Limiter(map[], []), budget, now)
  {}

  lemma {:induction false} MeteredBounds(l: Limiter, budget: Budget, now: int)
    requires Metered(l, budget, now)
    ensures forall t :: CountMinute(AllTicks(l.log), t) <= 2 * budget.perMinute
    ensures forall c, t :: CountMinute(ClientTicks(l.log, c), t) <= 2 * budget.perClient
  {
    forall t ensures CountMinute(AllTicks(l.log), t) <= 2 * budget.perMinute {
      assert Coupled(TicksOf(l.log, Everyone), CapOf(budget, Everyone), WindowAt(l.windows, Everyone), now);
      MinuteBound(AllTicks(l.log), budget.perMinute, t);
    }
    forall c, t ensures CountMinute(ClientTicks(l.log, c), t) <= 2 * budget.perClient {
      assert Coupled(TicksOf(l.log, Client(c)), CapOf(budget, Client(c)), WindowAt(l.windows, Client(c)), now);
      MinuteBound(ClientTicks(l.log, c), budget.perClient, t);
    }
  }
}
