/** The RPC rate limiter: a per-address counter with a window start, reset when a whole second has passed,
    and a periodic cleanup.  Times are nanoseconds of a monotonic clock. */
module RateLimiting {

  const SECOND: nat := 1_000_000_000

  datatype Window = Window(count: nat, start: nat)

  type Table = map<string, Window>

  /** `duration_since(..).as_secs()`: whole seconds, saturating at zero. */
  function Elapsed(now: nat, start: nat): nat {
    if now <= start then 0 else (now - start) / SECOND
  }

  datatype Decision = Decision(table: Table, allowed: bool)

  function Decide(limit: nat, table: Table, ip: string, now: nat): Decision {
    if ip !in table then Decision(table[ip := Window(1, now)], true)
    else if Elapsed(now, table[ip].start) >= 1 then Decision(table[ip := Window(1, now)], true)
    else if table[ip].count < limit then
      Decision(table[ip := Window(table[ip].count + 1, table[ip].start)], true)
    else Decision(table, false)
  }

  /** Addresses whose window is at least sixty whole seconds old. */
  function Stale(table: Table, now: nat): set<string> {
    set ip | ip in table && Elapsed(now, table[ip].start) >= 60
  }

  function Cleaned(table: Table, now: nat): Table { table - Stale(table, now) }

  class RateLimiter {
    var requests: Table
    const limitPerSecond: nat

    constructor (limitPerSecond: nat)
      ensures this.limitPerSecond == limitPerSecond && requests == map[]
    {
      this.limitPerSecond := limitPerSecond;
      requests := map[];
    }

    method IsAllowed(ip: string, now: nat) returns (allowed: bool)
      modifies this
      ensures Decision(requests, allowed) == Decide(limitPerSecond, old(requests), ip, now)
    {
      if ip in requests {
        var window := requests[ip];
        if Elapsed(now, window.start) >= 1 {
          requests := requests[ip := Window(1, now)];
          allowed := true;
        } else if window.count < limitPerSecond {
          requests := requests[ip := window.(count := window.count + 1)];
          allowed := true;
        } else {
          allowed := false;
        }
      } else {
        requests := requests[ip := Window(1, now)];
        allowed := true;
      }
    }

    method Cleanup(now: nat)
      modifies this
      ensures requests == Cleaned(old(requests), now)
    {
      var pending, kept := requests.Keys, requests;
      while pending != {}
        invariant pending <= requests.Keys && requests == old(requests)
        invariant kept == requests - (Stale(requests, now) - pending)
        decreases |pending|
      {
        var ip :| ip in pending;
        pending := pending - {ip};
        if Elapsed(now, requests[ip].start) >= 60 {
          kept := kept - {ip};
        }
      }
      requests := kept;
    }
  }

  // ---------------------------------------------------------------- runs

  datatype Event = Request(ip: string, time: nat) | Sweep(time: nat)

  /** Times do not decrease, starting from `now`. */
  ghost predicate Ordered(events: seq<Event>, now: nat) {
    events == [] || (now <= events[0].time && Ordered(events[1..], events[0].time))
  }

  function Next(limit: nat, table: Table, e: Event): Table {
    match e
    case Request(ip, time) => Decide(limit, table, ip, time).table
    case Sweep(time) => Cleaned(table, time)
  }

  function After(limit: nat, table: Table, events: seq<Event>): Table
    decreases |events|
  {
    if events == [] then table else After(limit, Next(limit, table, events[0]), events[1..])
  }

  /** 1 for a request of `ip` in [from, to) that is allowed, else 0. */
  function Counts(limit: nat, table: Table, e: Event, ip: string, from: nat, to: nat): nat {
    if e.Request? && e.ip == ip && from <= e.time < to && Decide(limit, table, ip, e.time).allowed then 1 else 0
  }

  /** Allowed requests of `ip` at times in [from, to). */
  function Allowed(limit: nat, table: Table, events: seq<Event>, ip: string, from: nat, to: nat): nat
    decreases |events|
  {
    if events == [] then 0
    else Counts(limit, table, events[0], ip, from, to)
         + Allowed(limit, Next(limit, table, events[0]), events[1..], ip, from, to)
  }

  // ---------------------------------------------------------------- the sliding-interval bound

  /** What one window admits: the first request is always allowed. */
  function Quota(limit: nat): nat { if limit == 0 then 1 else limit }

  /** How many windows can open in [from, to) when they open a second apart. */
  function Windows(from: nat, to: nat): nat {
    if from >= to then 0 else (to - from + SECOND - 1) / SECOND
  }

  /** The earliest next window of an address. */
  function Reopens(table: Table, ip: string, now: nat): nat {
    if ip in table && table[ip].start + SECOND > now then table[ip].start + SECOND else now
  }

  /** What is left of the current window. */
  function Left(limit: nat, table: Table, ip: string): int {
    if ip in table then Quota(limit) - table[ip].count else 0
  }

  ghost predicate TableOk(limit: nat, table: Table) {
    forall ip | ip in table :: 1 <= table[ip].count <= Quota(limit)
  }

  /** An upper bound on what can still be allowed before `to`. */
  function Budget(limit: nat, table: Table, ip: string, now: nat, to: nat): int {
    Left(limit, table, ip) + Quota(limit) * Windows(Reopens(table, ip, now), to)
  }

  lemma {:induction false} MulMonotone(q: nat, x: nat, y: nat)
    requires x <= y
    ensures q * x <= q * y
  {
  }

  lemma {:induction false} WindowsStep(from: nat, to: nat)
    requires from < to
    ensures Windows(from, to) == 1 + Windows(from + SECOND, to)
  {
  }

  lemma {:induction false} WindowsAntitone(a: nat, b: nat, to: nat)
    requires a <= b
    ensures Windows(b, to) <= Windows(a, to)
  {
  }

  lemma {:induction false} BudgetAntitone(limit: nat, table: Table, ip: string, now: nat, later: nat, to: nat)
    requires now <= later
    ensures Budget(limit, table, ip, later, to) <= Budget(limit, table, ip, now, to)
  {
    WindowsAntitone(Reopens(table, ip, now), Reopens(table, ip, later), to);
    MulMonotone(Quota(limit), Windows(Reopens(table, ip, later), to), Windows(Reopens(table, ip, now), to));
  }

  lemma {:induction false} NextTableOk(limit: nat, table: Table, e: Event)
    requires TableOk(limit, table)
    ensures TableOk(limit, Next(limit, table, e))
  {
  }

  /** Each event pays for itself out of the budget. */
  lemma {:induction false} BudgetPays(limit: nat, table: Table, e: Event, ip: string, from: nat, to: nat)
    requires TableOk(limit, table) && e.time < to
    ensures Counts(limit, table, e, ip, from, to) + Budget(limit, Next(limit, table, e), ip, e.time, to)
         <= Budget(limit, table, ip, e.time, to)
  {
    var after := Next(limit, table, e);
    if e.Request? && e.ip == ip && (ip !in table || Elapsed(e.time, table[ip].start) >= 1) {
      assert Reopens(table, ip, e.time) == e.time && Reopens(after, ip, e.time) == e.time + SECOND;
      WindowsStep(e.time, to);
      var w := Windows(e.time + SECOND, to);
      assert Quota(limit) * (1 + w) == Quota(limit) + Quota(limit) * w;
    }
  }

  lemma {:induction false} NothingAfter(limit: nat, table: Table, events: seq<Event>, ip: string, now: nat,
                                        from: nat, to: nat)
    requires Ordered(events, now) && to <= now
    ensures Allowed(limit, table, events, ip, from, to) == 0
    decreases |events|
  {
    if events != [] {
      NothingAfter(limit, Next(limit, table, events[0]), events[1..], ip, events[0].time, from, to);
    }
  }

  lemma {:induction false} WithinBudget(limit: nat, table: Table, events: seq<Event>, ip: string, now: nat,
                                        from: nat, to: nat)
    requires Ordered(events, now) && TableOk(limit, table)
    ensures Allowed(limit, table, events, ip, from, to) <= Budget(limit, table, ip, now, to)
    decreases |events|
  {
    if events != [] {
      var e := events[0];
      if e.time >= to {
        NothingAfter(limit, table, events, ip, e.time, from, to);
      } else {
        NextTableOk(limit, table, e);
        WithinBudget(limit, Next(limit, table, e), events[1..], ip, e.time, from, to);
        BudgetPays(limit, table, e, ip, from, to);
        BudgetAntitone(limit, table, ip, now, e.time, to);
      }
    }
  }

  lemma {:induction false} WholeSeconds(from: nat, seconds: nat)
    ensures Windows(from, from + seconds * SECOND) == seconds
  {
  }

  lemma {:induction false} BoundFrom(limit: nat, table: Table, events: seq<Event>, ip: string, now: nat, from: nat,
                                     seconds: nat)
    requires Ordered(events, now) && TableOk(limit, table)
    ensures Allowed(limit, table, events, ip, from, from + seconds * SECOND) <= (seconds + 1) * Quota(limit) - 1
    decreases |events|
  {
    var to, q := from + seconds * SECOND, Quota(limit);
    assert (seconds + 1) * q == q + q * seconds;
    if events != [] {
      var e := events[0];
      if e.time < from {
        NextTableOk(limit, table, e);
        BoundFrom(limit, Next(limit, table, e), events[1..], ip, e.time, from, seconds);
      } else {
        WithinBudget(limit, table, events, ip, e.time, from, to);
        WholeSeconds(from, seconds);
        WindowsAntitone(from, Reopens(table, ip, e.time), to);
        MulMonotone(q, Windows(Reopens(table, ip, e.time), to), seconds);
      }
    }
  }

  /** Over every run with non-decreasing time and sweeps anywhere, any half-open interval of T whole seconds
      holds at most (T+1) * max(1, limit) - 1 allowed requests of one address. */
  lemma {:induction false} RateBound(limit: nat, events: seq<Event>, ip: string, from: nat, seconds: nat)
    requires Ordered(events, 0)
    ensures Allowed(limit, map[], events, ip, from, from + seconds * SECOND) <= (seconds + 1) * Quota(limit) - 1
  {
    BoundFrom(limit, map[], events, ip, 0, from, seconds);
  }

  // ---------------------------------------------------------------- the bound is attained

  /** `n` requests at one instant. */
  function Burst(ip: string, time: nat, n: nat): seq<Event> {
    if n == 0 then [] else [Request(ip, time)] + Burst(ip, time, n - 1)
  }

  /** A full quota at every whole second from `first`, `n` times. */
  function Train(limit: nat, ip: string, first: nat, n: nat): seq<Event>
    decreases n
  {
    if n == 0 then [] else Burst(ip, first, Quota(limit)) + Train(limit, ip, first + SECOND, n - 1)
  }

  /** One request at 0, the rest of its window one nanosecond later, then full windows a second apart. */
  function WorstRun(limit: nat, ip: string, seconds: nat): seq<Event> {
    [Request(ip, 0)] + (Burst(ip, 1, Quota(limit) - 1) + Train(limit, ip, SECOND, seconds))
  }

  lemma {:induction false} OrderedConcat(a: seq<Event>, b: seq<Event>, now: nat, mid: nat)
    requires Ordered(a, now) && Ordered(b, mid) && now <= mid && forall e | e in a :: e.time <= mid
    ensures Ordered(a + b, now)
    decreases |a|
  {
    if a == [] {
      assert a + b == b;
      assert b != [] ==> now <= b[0].time;
    } else {
      OrderedConcat(a[1..], b, a[0].time, mid);
      assert (a + b)[1..] == a[1..] + b;
    }
  }

  lemma {:induction false} BurstFacts(ip: string, time: nat, n: nat, now: nat)
    requires now <= time
    ensures Ordered(Burst(ip, time, n), now) && forall e | e in Burst(ip, time, n) :: e.time == time
    decreases n
  {
    if n > 0 {
      BurstFacts(ip, time, n - 1, time);
      assert Burst(ip, time, n)[1..] == Burst(ip, time, n - 1);
    }
  }

  lemma {:induction false} TrainOrdered(limit: nat, ip: string, first: nat, n: nat, now: nat)
    requires now <= first
    ensures Ordered(Train(limit, ip, first, n), now)
    decreases n
  {
    if n > 0 {
      BurstFacts(ip, first, Quota(limit), now);
      TrainOrdered(limit, ip, first + SECOND, n - 1, first);
      OrderedConcat(Burst(ip, first, Quota(limit)), Train(limit, ip, first + SECOND, n - 1), now, first);
    }
  }

  lemma {:induction false} AllowedConcat(limit: nat, table: Table, a: seq<Event>, b: seq<Event>, ip: string,
                                         from: nat, to: nat)
    ensures Allowed(limit, table, a + b, ip, from, to)
         == Allowed(limit, table, a, ip, from, to) + Allowed(limit, After(limit, table, a), b, ip, from, to)
    decreases |a|
  {
    if a == [] {
      assert a + b == b;
    } else {
      AllowedConcat(limit, Next(limit, table, a[0]), a[1..], b, ip, from, to);
      assert (a + b)[1..] == a[1..] + b;
    }
  }

  /** A burst inside a window that has room is allowed in full. */
  lemma {:induction false} BurstAllowed(limit: nat, table: Table, ip: string, time: nat, n: nat, from: nat, to: nat)
    requires ip in table && Elapsed(time, table[ip].start) == 0 && table[ip].count + n <= limit && from <= time < to
    ensures Allowed(limit, table, Burst(ip, time, n), ip, from, to) == n
    ensures After(limit, table, Burst(ip, time, n)) == table[ip := Window(table[ip].count + n, table[ip].start)]
    decreases n
  {
    if n > 0 {
      var after := Next(limit, table, Request(ip, time));
      BurstAllowed(limit, after, ip, time, n - 1, from, to);
      assert Burst(ip, time, n)[1..] == Burst(ip, time, n - 1);
    }
  }

  /** A full quota is allowed once a second has passed. */
  lemma {:induction false} FreshBurst(limit: nat, table: Table, ip: string, time: nat, from: nat, to: nat)
    requires ip in table && Elapsed(time, table[ip].start) >= 1 && from <= time < to
    ensures Allowed(limit, table, Burst(ip, time, Quota(limit)), ip, from, to) == Quota(limit)
    ensures ip in After(limit, table, Burst(ip, time, Quota(limit)))
         && After(limit, table, Burst(ip, time, Quota(limit)))[ip].start == time
  {
    var n := Quota(limit) - 1;
    var after := Next(limit, table, Request(ip, time));
    assert Burst(ip, time, Quota(limit))[1..] == Burst(ip, time, n);
    if n == 0 {
      assert Burst(ip, time, n) == [];
    } else {
      BurstAllowed(limit, after, ip, time, n, from, to);
    }
  }

  lemma {:induction false} TrainAllowed(limit: nat, table: Table, ip: string, first: nat, n: nat, from: nat, to: nat)
    requires ip in table && table[ip].start + SECOND <= first && from <= first
    requires n > 0 ==> first + (n - 1) * SECOND < to
    ensures Allowed(limit, table, Train(limit, ip, first, n), ip, from, to) == n * Quota(limit)
    decreases n
  {
    if n > 0 {
      var burst, rest := Burst(ip, first, Quota(limit)), Train(limit, ip, first + SECOND, n - 1);
      FreshBurst(limit, table, ip, first, from, to);
      TrainAllowed(limit, After(limit, table, burst), ip, first + SECOND, n - 1, from, to);
      AllowedConcat(limit, table, burst, rest, ip, from, to);
      assert n * Quota(limit) == Quota(limit) + (n - 1) * Quota(limit);
    }
  }

  /** The bound is exact: for every limit, address and positive number of seconds some ordered run attains it. */
  lemma {:induction false} RateBoundAttained(limit: nat, ip: string, seconds: nat)
    requires seconds > 0
    ensures Ordered(WorstRun(limit, ip, seconds), 0)
    ensures Allowed(limit, map[], WorstRun(limit, ip, seconds), ip, 1, 1 + seconds * SECOND)
         == (seconds + 1) * Quota(limit) - 1
  {
    var q, to := Quota(limit), 1 + seconds * SECOND;
    var run, burst, train := WorstRun(limit, ip, seconds), Burst(ip, 1, q - 1), Train(limit, ip, SECOND, seconds);
    assert run[1..] == burst + train;
    WorstOrdered(limit, ip, seconds);
    assert Next(limit, map[], run[0]) == map[ip := Window(1, 0)];
    WorstTail(limit, ip, seconds, map[ip := Window(1, 0)]);
  }

  lemma {:induction false} WorstOrdered(limit: nat, ip: string, seconds: nat)
    requires seconds > 0
    ensures Ordered(Burst(ip, 1, Quota(limit) - 1) + Train(limit, ip, SECOND, seconds), 0)
  {
    BurstFacts(ip, 1, Quota(limit) - 1, 0);
    TrainOrdered(limit, ip, SECOND, seconds, 1);
    OrderedConcat(Burst(ip, 1, Quota(limit) - 1), Train(limit, ip, SECOND, seconds), 0, 1);
  }

  /** After the first request the rest of the quota and then a quota per second are allowed. */
  lemma {:induction false} WorstTail(limit: nat, ip: string, seconds: nat, table: Table)
    requires seconds > 0 && table == map[ip := Window(1, 0)]
    ensures Allowed(limit, table, Burst(ip, 1, Quota(limit) - 1) + Train(limit, ip, SECOND, seconds), ip,
                    1, 1 + seconds * SECOND)
         == (seconds + 1) * Quota(limit) - 1
  {
    var q, to := Quota(limit), 1 + seconds * SECOND;
    var burst, train := Burst(ip, 1, q - 1), Train(limit, ip, SECOND, seconds);
    if q == 1 {
      assert burst == [];
    } else {
      BurstAllowed(limit, table, ip, 1, q - 1, 1, to);
    }
    AllowedConcat(limit, table, burst, train, ip, 1, to);
    TrainAllowed(limit, After(limit, table, burst), ip, SECOND, seconds, 1, to);
    assert (seconds + 1) * q == q + seconds * q;
  }

  // ---------------------------------------------------------------- sweeps are invisible

  /** The answers to the requests of a run, in order. */
  function Answers(limit: nat, table: Table, events: seq<Event>): seq<bool>
    decreases |events|
  {
    if events == [] then []
    else
      var rest := Answers(limit, Next(limit, table, events[0]), events[1..]);
      match events[0]
      case Request(ip, time) => [Decide(limit, table, ip, time).allowed] + rest
      case Sweep(_) => rest
  }

  function WithoutSweeps(events: seq<Event>): seq<Event> {
    if events == [] then []
    else if events[0].Sweep? then WithoutSweeps(events[1..])
    else [events[0]] + WithoutSweeps(events[1..])
  }

  /** The swept table lacks only windows that have already expired. */
  ghost predicate SameButExpired(swept: Table, full: Table, now: nat) {
    && (forall ip | ip in swept :: ip in full && full[ip] == swept[ip])
    && (forall ip | ip in full && ip !in swept :: full[ip].start + SECOND <= now)
  }

  lemma {:induction false} SweepsInvisibleFrom(limit: nat, swept: Table, full: Table, events: seq<Event>, now: nat)
    requires Ordered(events, now) && SameButExpired(swept, full, now)
    ensures Answers(limit, swept, events) == Answers(limit, full, WithoutSweeps(events))
    decreases |events|
  {
    if events != [] {
      var e := events[0];
      var swept' := Next(limit, swept, e);
      if e.Sweep? {
        SweepsInvisibleFrom(limit, swept', full, events[1..], e.time);
      } else {
        var full' := Next(limit, full, e);
        assert Decide(limit, swept, e.ip, e.time).allowed == Decide(limit, full, e.ip, e.time).allowed;
        SweepsInvisibleFrom(limit, swept', full', events[1..], e.time);
        assert ([e] + WithoutSweeps(events[1..]))[1..] == WithoutSweeps(events[1..]);
      }
    }
  }

  /** Two runs with the same requests get the same answers, wherever their sweeps stand. */
  lemma {:induction false} SweepsInvisible(limit: nat, a: seq<Event>, b: seq<Event>)
    requires Ordered(a, 0) && Ordered(b, 0) && WithoutSweeps(a) == WithoutSweeps(b)
    ensures Answers(limit, map[], a) == Answers(limit, map[], b)
  {
    SweepsInvisibleFrom(limit, map[], map[], a, 0);
    SweepsInvisibleFrom(limit, map[], map[], b, 0);
  }
}
