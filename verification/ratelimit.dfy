/**
 The per-connection rate limiter of the live channel (`rateLimitSocket`,
 server.js:350-373) and the connection table it reads (`socketConnections`,
 set on connect at server.js:343-347, deleted on disconnect at server.js:498).

 One record per connection holds a request counter and the time of the last
 request. Every trigger of a guarded event resets the counter when the previous
 request is more than one window old, then counts itself and records its time,
 whether or not it is let through; it is let through when the counter is within
 the event's limit. The two guarded events share the one record.
 */
module RateLimit {

  /** The record of one connection (server.js:343-347). Times are milliseconds. */
  datatype Conn = Conn(connectTime: int, requestCount: nat, lastRequest: int)

  /** `socketConnections`: connection id to record. */
  type Sessions = map<string, Conn>

  /** The window both guarded events use, the default `windowMs` (server.js:350). */
  const WindowMs: int := 60000

  /** The limits of the indexing demo (server.js:375) and the query demo (server.js:433). */
  const IndexingLimit: int := 3
  const QueryLimit: int := 5

  /** A new connection gets a fresh record; any other record is left alone. */
  function Connect(sessions: Sessions, id: string, now: int): (r: Sessions)
    ensures r.Keys == sessions.Keys + {id}
    ensures r[id].requestCount == 0 && r[id].connectTime == now && r[id].lastRequest == now
    ensures forall other :: other in sessions && other != id ==> r[other] == sessions[other]
  {
    sessions[id := Conn(now, 0, now)]
  }

  /** A disconnect removes the connection's record and nothing else. */
  function Disconnect(sessions: Sessions, id: string): (r: Sessions)
    ensures r.Keys == sessions.Keys - {id}
    ensures forall other :: other in r ==> r[other] == sessions[other]
  {
    map other | other in sessions && other != id :: sessions[other]
  }

  /** What one trigger does to a record (server.js:355-361): the counter restarts when
      the last request is MORE than a window old, then counts this trigger, whose time
      becomes the last request. */
  function Tick(c: Conn, now: int, windowMs: int): (r: Conn)
    ensures r.connectTime == c.connectTime && r.lastRequest == now
    ensures now - c.lastRequest > windowMs ==> r.requestCount == 1
    ensures now - c.lastRequest <= windowMs ==> r.requestCount == c.requestCount + 1
  {
    var count := if now - c.lastRequest > windowMs then 0 else c.requestCount;
    Conn(c.connectTime, count + 1, now)
  }

  /** The outcome of a trigger: no record (nothing happens), rejected with the one
      `rate-limit-exceeded` event it emits, or let through to the handler. */
  datatype Verdict = NoRecord | Rejected(message: string, retryAfter: int) | Admitted

  /** The message of the `rate-limit-exceeded` event (server.js:365). */
  function RejectionMessage(eventName: string): string {
    "Too many " + eventName + " requests. Please wait before trying again."
  }

  /** One trigger of an event guarded by `rateLimitSocket(eventName, limit, windowMs)`. */
  function Guard(sessions: Sessions, id: string, now: int, eventName: string, limit: int, windowMs: int)
    : (r: (Sessions, Verdict))
    ensures id !in sessions ==> r == (sessions, NoRecord)
    ensures id in sessions ==> r.0 == sessions[id := Tick(sessions[id], now, windowMs)]
    ensures id in sessions ==> (r.1 == Admitted <==> Tick(sessions[id], now, windowMs).requestCount <= limit)
    ensures id in sessions && r.1 != Admitted ==> r.1 == Rejected(RejectionMessage(eventName), windowMs)
  {
    if id !in sessions then (sessions, NoRecord)
    else
      var c := Tick(sessions[id], now, windowMs);
      var verdict := if c.requestCount > limit then Rejected(RejectionMessage(eventName), windowMs) else Admitted;
      (sessions[id := c], verdict)
  }

  /** After a disconnect the connection's triggers do nothing at all. */
  lemma NoRecordAfterDisconnect(sessions: Sessions, id: string, now: int, eventName: string, limit: int, windowMs: int)
    ensures var after := Disconnect(sessions, id);
            Guard(after, id, now, eventName, limit, windowMs) == (after, NoRecord)
  {
  }

  /** A trigger changes only its own connection's record. */
  lemma GuardKeepsOthers(sessions: Sessions, id: string, now: int, eventName: string, limit: int, windowMs: int)
    ensures var r := Guard(sessions, id, now, eventName, limit, windowMs).0;
            && r.Keys == sessions.Keys
            && forall other :: other in sessions && other != id ==> r[other] == sessions[other]
  {
  }

  /** A trigger of one guarded event: the event's name, the time and the event's limit. */
  datatype Trigger = Trigger(eventName: string, now: int, limit: int)

  /** The record after a sequence of triggers, and for each trigger whether it was let through. */
  function Replay(c: Conn, ts: seq<Trigger>, windowMs: int): (r: (Conn, seq<bool>))
    ensures |r.1| == |ts|
  {
    if ts == [] then (c, [])
    else
      var prev := Replay(c, ts[..|ts| - 1], windowMs);
      var t := ts[|ts| - 1];
      var next := Tick(prev.0, t.now, windowMs);
      (next, prev.1 + [next.requestCount <= t.limit])
  }

  /** The guard applied to one connection's triggers in turn: the table afterwards and
      the verdict of each trigger. */
  function Run(sessions: Sessions, id: string, ts: seq<Trigger>, windowMs: int): (r: (Sessions, seq<Verdict>))
    ensures |r.1| == |ts|
  {
    if ts == [] then (sessions, [])
    else
      var prev := Run(sessions, id, ts[..|ts| - 1], windowMs);
      var t := ts[|ts| - 1];
      var step := Guard(prev.0, id, t.now, t.eventName, t.limit, windowMs);
      (step.0, prev.1 + [step.1])
  }

  /** `Replay` is what the guard does to a connection that has a record: the record ends
      as `Replay` says, no other record changes, and each trigger is let through exactly
      when `Replay` says so, being rejected with its event's message otherwise. */
  lemma {:induction false} RunIsReplay(sessions: Sessions, id: string, ts: seq<Trigger>, windowMs: int)
    requires id in sessions
    ensures var run := Run(sessions, id, ts, windowMs);
            var rep := Replay(sessions[id], ts, windowMs);
            && run.0 == sessions[id := rep.0]
            && (forall j :: 0 <= j < |ts| ==> (run.1[j] == Admitted <==> rep.1[j]))
            && (forall j :: 0 <= j < |ts| && run.1[j] != Admitted ==>
                  run.1[j] == Rejected(RejectionMessage(ts[j].eventName), windowMs))
  {
    if ts == [] {
      assert sessions[id := sessions[id]] == sessions;
    } else {
      var init := ts[..|ts| - 1];
      var t := ts[|ts| - 1];
      RunIsReplay(sessions, id, init, windowMs);
      var prev := Run(sessions, id, init, windowMs);
      var prevRep := Replay(sessions[id], init, windowMs);
      var run := Run(sessions, id, ts, windowMs);
      var rep := Replay(sessions[id], ts, windowMs);
      var v := Guard(prev.0, id, t.now, t.eventName, t.limit, windowMs).1;
      assert prev.0[id] == prevRep.0;
      assert run.0 == sessions[id := prevRep.0][id := rep.0] == sessions[id := rep.0];
      assert run.1 == prev.1 + [v];
      assert rep.1 == prevRep.1 + [rep.0.requestCount <= t.limit];
      forall j | 0 <= j < |ts|
        ensures run.1[j] == Admitted <==> rep.1[j]
        ensures run.1[j] != Admitted ==> run.1[j] == Rejected(RejectionMessage(ts[j].eventName), windowMs)
      {
        if j < |init| {
          assert run.1[j] == prev.1[j] && rep.1[j] == prevRep.1[j] && ts[j] == init[j];
        } else {
          assert run.1[j] == v && rep.1[j] == (rep.0.requestCount <= t.limit);
        }
      }
    }
  }

  /** Every trigger after the first comes at most one window after the one before it. */
  predicate GapsWithin(ts: seq<Trigger>, windowMs: int) {
    forall j :: 0 < j < |ts| ==> ts[j].now - ts[j - 1].now <= windowMs
  }

  /** Every trigger comes at most one window after the one before it (the first, after
      the record's last request), so the counter never restarts. */
  predicate Steady(c: Conn, ts: seq<Trigger>, windowMs: int) {
    && (ts != [] ==> ts[0].now - c.lastRequest <= windowMs)
    && GapsWithin(ts, windowMs)
  }

  /** Without a restart the counter counts every trigger, and trigger `j` is let through
      exactly when the count including it is within its limit. */
  lemma {:induction false} SteadyReplay(c: Conn, ts: seq<Trigger>, windowMs: int)
    requires Steady(c, ts, windowMs)
    ensures var r := Replay(c, ts, windowMs);
            && r.0.requestCount == c.requestCount + |ts|
            && r.0.lastRequest == (if ts == [] then c.lastRequest else ts[|ts| - 1].now)
            && forall j :: 0 <= j < |ts| ==> (r.1[j] <==> c.requestCount + j + 1 <= ts[j].limit)
  {
    if ts != [] {
      var init := ts[..|ts| - 1];
      assert Steady(c, init, windowMs);
      SteadyReplay(c, init, windowMs);
      var prev := Replay(c, init, windowMs);
      assert prev.1 == Replay(c, ts, windowMs).1[..|init|];
    }
  }

  /** Number of `true` entries. */
  function CountTrue(bs: seq<bool>): nat {
    if bs == [] then 0 else CountTrue(bs[..|bs| - 1]) + (if bs[|bs| - 1] then 1 else 0)
  }

  /** When only the first `n` entries can be true, at most `n` are. */
  lemma {:induction false} CountTrueBound(bs: seq<bool>, n: nat)
    requires forall j :: 0 <= j < |bs| && bs[j] ==> j < n
    ensures CountTrue(bs) <= n
  {
    if bs != [] {
      var init := bs[..|bs| - 1];
      if |bs| <= n {
        CountTrueAtMostLength(bs);
      } else {
        assert forall j :: 0 <= j < |init| ==> init[j] == bs[j];
        CountTrueBound(init, n);
      }
    }
  }

  /** No more `true` entries than entries. */
  lemma {:induction false} CountTrueAtMostLength(bs: seq<bool>)
    ensures CountTrue(bs) <= |bs|
  {
    if bs != [] {
      CountTrueAtMostLength(bs[..|bs| - 1]);
    }
  }

  /** From a fresh counter, triggers with no window of quiet between them let at most
      `limit` through, whatever mix of events they are, as long as no event's limit
      exceeds `limit`. The first trigger may come any time after the record's last
      request: a counter at 0 is the same whether or not it restarts. */
  lemma AtMostLimitAdmitted(c: Conn, ts: seq<Trigger>, windowMs: int, limit: nat)
    requires c.requestCount == 0 && GapsWithin(ts, windowMs)
    requires forall j :: 0 <= j < |ts| ==> ts[j].limit <= limit
    ensures CountTrue(Replay(c, ts, windowMs).1) <= limit
  {
    if ts != [] {
      var d := Conn(c.connectTime, 0, ts[0].now - windowMs);
      FreshReplaySame(c, d, ts, windowMs);
      assert Steady(d, ts, windowMs);
      SteadyReplay(d, ts, windowMs);
      CountTrueBound(Replay(d, ts, windowMs).1, limit);
    }
  }

  /** Two records with a counter at 0 and the same connection time behave alike on any
      non-empty run of triggers, whatever their last requests: the first trigger brings
      both counters to 1 at its own time. */
  lemma {:induction false} FreshReplaySame(c: Conn, d: Conn, ts: seq<Trigger>, windowMs: int)
    requires c.requestCount == 0 && d.requestCount == 0 && c.connectTime == d.connectTime
    requires ts != []
    ensures Replay(c, ts, windowMs) == Replay(d, ts, windowMs)
  {
    if |ts| > 1 {
      FreshReplaySame(c, d, ts[..|ts| - 1], windowMs);
    }
  }

  /** Once the counter is past an event's limit, every further trigger of it within the
      window is rejected. */
  lemma LockoutPersists(c: Conn, ts: seq<Trigger>, windowMs: int)
    requires Steady(c, ts, windowMs)
    requires forall j :: 0 <= j < |ts| ==> ts[j].limit <= c.requestCount
    ensures forall j :: 0 <= j < |ts| ==> !Replay(c, ts, windowMs).1[j]
  {
    SteadyReplay(c, ts, windowMs);
  }

  /** The two events share the record: after three query-demo triggers on a fresh
      connection, an indexing-demo trigger in the same window is rejected although no
      indexing demo ran. */
  lemma SharedRecord(connectedAt: int)
    ensures var c := Conn(connectedAt, 0, connectedAt);
            var q := Trigger("query-demo", connectedAt, QueryLimit);
            Replay(c, [q, q, q, Trigger("indexing-demo", connectedAt, IndexingLimit)], WindowMs).1 == [true, true, true, false]
  {
    var c := Conn(connectedAt, 0, connectedAt);
    var q := Trigger("query-demo", connectedAt, QueryLimit);
    var ts := [q, q, q, Trigger("indexing-demo", connectedAt, IndexingLimit)];
    assert Steady(c, ts, WindowMs);
    SteadyReplay(c, ts, WindowMs);
  }
}
