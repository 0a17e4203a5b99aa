/** What the rate limiter answers, exactly: each request against the windows that the request times alone define. */
module RateWindows {
  import opened RateLimiting

  // ---------------------------------------------------------------- windows, from the request times alone

  /** The times of one address's requests, in order. */
  function Times(events: seq<Event>, ip: string): seq<nat> {
    if events == [] then []
    else (if events[0].Request? && events[0].ip == ip then [events[0].time] else []) + Times(events[1..], ip)
  }

  /** When the last request's window opened: a window opens at the first request a second or more after the
      previous opening. */
  function WindowStart(times: seq<nat>): nat
    requires times != []
  {
    var n := |times| - 1;
    if n == 0 then times[0]
    else
      var w := WindowStart(times[..n]);
      if times[n] >= w + SECOND then times[n] else w
  }

  /** The last request's number within its window. */
  function NumberInWindow(times: seq<nat>): nat
    requires times != []
  {
    var n := |times| - 1;
    if n == 0 || times[n] >= WindowStart(times[..n]) + SECOND then 1 else NumberInWindow(times[..n]) + 1
  }

  lemma {:induction false} WindowAppend(times: seq<nat>, t: nat)
    ensures WindowStart(times + [t])
         == if times == [] || t >= WindowStart(times) + SECOND then t else WindowStart(times)
    ensures NumberInWindow(times + [t])
         == if times == [] || t >= WindowStart(times) + SECOND then 1 else NumberInWindow(times) + 1
  {
    var longer := times + [t];
    assert longer[..|longer| - 1] == times;
  }

  // ---------------------------------------------------------------- the table follows the windows

  function Min(a: nat, b: nat): nat { if a < b then a else b }

  /** The table's entry is the current window, capped at the quota; a missing entry means that it is over. */
  ghost predicate Tracks(limit: nat, table: Table, ip: string, past: seq<nat>, now: nat) {
    if past == [] then ip !in table
    else if ip in table then
      table[ip].start == WindowStart(past) && table[ip].count == Min(NumberInWindow(past), Quota(limit))
    else WindowStart(past) + SECOND <= now
  }

  lemma {:induction false} ElapsedSecond(now: nat, start: nat)
    ensures Elapsed(now, start) >= 1 <==> now >= start + SECOND
  {
  }

  lemma {:induction false} TrackRequest(limit: nat, table: Table, ip: string, past: seq<nat>, now: nat, t: nat)
    requires Tracks(limit, table, ip, past, now) && now <= t
    ensures Tracks(limit, Decide(limit, table, ip, t).table, ip, past + [t], t)
    ensures Decide(limit, table, ip, t).allowed <==> NumberInWindow(past + [t]) <= Quota(limit)
  {
    WindowAppend(past, t);
    if ip in table {
      ElapsedSecond(t, table[ip].start);
    }
  }

  lemma {:induction false} TrackOther(limit: nat, table: Table, ip: string, past: seq<nat>, now: nat, e: Event)
    requires Tracks(limit, table, ip, past, now) && now <= e.time && !(e.Request? && e.ip == ip)
    ensures Tracks(limit, Next(limit, table, e), ip, past, e.time)
  {
  }

  /** The time of the last event. */
  function EndTime(events: seq<Event>, now: nat): nat
    decreases |events|
  {
    if events == [] then now else EndTime(events[1..], events[0].time)
  }

  lemma {:induction false} Tracked(limit: nat, table: Table, events: seq<Event>, ip: string, past: seq<nat>, now: nat)
    requires Ordered(events, now) && Tracks(limit, table, ip, past, now)
    ensures Tracks(limit, After(limit, table, events), ip, past + Times(events, ip), EndTime(events, now))
    decreases |events|
  {
    if events == [] {
      assert past + [] == past;
    } else {
      var e, rest := events[0], events[1..];
      var after := Next(limit, table, e);
      if e.Request? && e.ip == ip {
        TrackRequest(limit, table, ip, past, now, e.time);
        Tracked(limit, after, rest, ip, past + [e.time], e.time);
        assert past + ([e.time] + Times(rest, ip)) == (past + [e.time]) + Times(rest, ip);
      } else {
        TrackOther(limit, table, ip, past, now, e);
        Tracked(limit, after, rest, ip, past, e.time);
        assert [] + Times(rest, ip) == Times(rest, ip);
      }
    }
  }

  lemma {:induction false} OrderedEnds(events: seq<Event>, e: Event, now: nat)
    requires Ordered(events + [e], now)
    ensures Ordered(events, now) && EndTime(events, now) <= e.time && now <= e.time
    ensures forall d | d in events :: d.time <= e.time
    decreases |events|
  {
    if events == [] {
      assert events + [e] == [e];
    } else {
      assert (events + [e])[1..] == events[1..] + [e];
      OrderedEnds(events[1..], e, events[0].time);
      assert forall d | d in events :: d == events[0] || d in events[1..];
    }
  }

  /** The answer to every request of every run, exactly: with non-decreasing time and sweeps anywhere, a request is
      allowed if and only if it is among the first max(1, limit) of its window.  Refused requests and other
      addresses do not matter. */
  lemma {:induction false} WindowExact(limit: nat, events: seq<Event>, ip: string, t: nat)
    requires Ordered(events + [Request(ip, t)], 0)
    ensures Decide(limit, After(limit, map[], events), ip, t).allowed
       <==> NumberInWindow(Times(events, ip) + [t]) <= Quota(limit)
  {
    OrderedEnds(events, Request(ip, t), 0);
    Tracked(limit, map[], events, ip, [], 0);
    assert [] + Times(events, ip) == Times(events, ip);
    TrackRequest(limit, After(limit, map[], events), ip, Times(events, ip), EndTime(events, 0), t);
  }

  // ---------------------------------------------------------------- a refusal means a full second

  /** What the entry records of the window that opened at `w`. */
  function Recorded(table: Table, ip: string, w: nat): nat {
    if ip in table && table[ip].start == w then table[ip].count else 0
  }

  ghost predicate StartsBy(table: Table, ip: string, now: nat) { ip in table ==> table[ip].start <= now }

  lemma {:induction false} EventPays(limit: nat, table: Table, e: Event, ip: string, w: nat, to: nat)
    requires StartsBy(table, ip, e.time) && e.time < to
    ensures Counts(limit, table, e, ip, w, to) + Recorded(table, ip, w) >= Recorded(Next(limit, table, e), ip, w)
    ensures StartsBy(Next(limit, table, e), ip, e.time)
  {
  }

  /** Everything recorded of a window was allowed since it opened. */
  lemma {:induction false} RecordedWasAllowed(limit: nat, table: Table, events: seq<Event>, ip: string, now: nat,
                                              w: nat, to: nat)
    requires Ordered(events, now) && StartsBy(table, ip, now) && forall e | e in events :: e.time < to
    ensures Allowed(limit, table, events, ip, w, to) + Recorded(table, ip, w)
         >= Recorded(After(limit, table, events), ip, w)
    decreases |events|
  {
    if events != [] {
      var e := events[0];
      assert e in events && forall d | d in events[1..] :: d in events;
      EventPays(limit, table, e, ip, w, to);
      RecordedWasAllowed(limit, Next(limit, table, e), events[1..], ip, e.time, w, to);
    }
  }

  lemma {:induction false} AllowedAntitone(limit: nat, table: Table, events: seq<Event>, ip: string, a: nat, b: nat,
                                           to: nat)
    requires a <= b
    ensures Allowed(limit, table, events, ip, b, to) <= Allowed(limit, table, events, ip, a, to)
    decreases |events|
  {
    if events != [] {
      AllowedAntitone(limit, Next(limit, table, events[0]), events[1..], ip, a, b, to);
    }
  }

  lemma {:induction false} AfterTableOk(limit: nat, table: Table, events: seq<Event>)
    requires TableOk(limit, table)
    ensures TableOk(limit, After(limit, table, events))
    decreases |events|
  {
    if events != [] {
      NextTableOk(limit, table, events[0]);
      AfterTableOk(limit, Next(limit, table, events[0]), events[1..]);
    }
  }

  /** Over every run with sweeps anywhere, a request is refused only if at least max(1, limit) requests of the
      address were allowed in the second ending with it. */
  lemma {:induction false} RefusedOnlyWhenFull(limit: nat, events: seq<Event>, ip: string, t: nat)
    requires Ordered(events + [Request(ip, t)], 0)
    requires !Decide(limit, After(limit, map[], events), ip, t).allowed
    ensures Allowed(limit, map[], events, ip, if t + 1 >= SECOND then t + 1 - SECOND else 0, t + 1) >= Quota(limit)
  {
    var table, from := After(limit, map[], events), if t + 1 >= SECOND then t + 1 - SECOND else 0;
    var w := table[ip].start;
    OrderedEnds(events, Request(ip, t), 0);
    AfterTableOk(limit, map[], events);
    RecordedWasAllowed(limit, map[], events, ip, 0, w, t + 1);
    ElapsedSecond(t, w);
    AllowedAntitone(limit, map[], events, ip, from, w, t + 1);
  }

  /** An address that stays away for a second is always served: nothing a refusal does outlives the window. */
  lemma {:induction false} ServedAfterASecond(limit: nat, events: seq<Event>, ip: string, t: nat)
    requires Ordered(events + [Request(ip, t)], 0)
    requires forall e | e in events && e.Request? && e.ip == ip :: e.time + SECOND <= t
    ensures Decide(limit, After(limit, map[], events), ip, t).allowed
  {
    var past := Times(events, ip);
    WindowExact(limit, events, ip, t);
    WindowAppend(past, t);
    if past != [] {
      WindowStartIsRequest(past);
      TimesAreRequests(events, ip);
    }
  }

  lemma {:induction false} WindowStartIsRequest(times: seq<nat>)
    requires times != []
    ensures WindowStart(times) in times
  {
    if |times| > 1 {
      WindowStartIsRequest(times[..|times| - 1]);
    }
  }

  lemma {:induction false} TimesAreRequests(events: seq<Event>, ip: string)
    ensures forall t | t in Times(events, ip) :: exists e :: e in events && e == Request(ip, t)
  {
    if events != [] {
      TimesAreRequests(events[1..], ip);
      forall t | t in Times(events, ip)
        ensures exists e :: e in events && e == Request(ip, t)
      {
        if t in Times(events[1..], ip) {
          var e :| e in events[1..] && e == Request(ip, t);
          assert e in events;
        } else {
          assert events[0] in events && events[0] == Request(ip, t);
        }
      }
    }
  }

  // ---------------------------------------------------------------- cleanup

  /** Cleanup keeps exactly the windows that opened less than a minute ago, as they are. */
  lemma {:induction false} CleanedExact(table: Table, now: nat, ip: string)
    ensures ip in Cleaned(table, now) <==> ip in table && now < table[ip].start + 60 * SECOND
    ensures ip in Cleaned(table, now) ==> Cleaned(table, now)[ip] == table[ip]
  {
  }
}
