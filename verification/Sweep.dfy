/** Who a sweep of the table takes and what becomes of the others, in times and states
    (check_timeout of tcpcomponent.cpp, get_timeout_list of hashioc.cpp). */
module Sweep {
  import opened Bytes
  import opened Lists
  import opened Lifetime
  import opened LifetimeProof

  // Longer ago than `span` microseconds, in the source's unsigned arithmetic: before
  // the clock has come so far everything else is.
  predicate Before(since: uint64, now: uint64, span: nat) {
    if span <= now then since < now - span else since < now + 0x1_0000_0000_0000_0000 - span
  }

  // A connection attempt that has taken more than two seconds.
  predicate GivenUp(c: Component, now: uint64) {
    c.conn == Connecting && c.startConn > 0 && Before(c.startConn, now, 2_000_000)
  }

  // Who goes: an attempt given up or a closed connection, unless it is a client that
  // reconnects; and a connection taken from a listener that has been idle for thirty
  // seconds. A connected client stays.
  predicate IsOver(c: Component, now: uint64) {
    || (GivenUp(c, now) && !(c.kind == TcpConn && c.auto))
    || (c.conn == Connected && c.kind == TcpActConn && Before(c.lastUse, now, 30_000_000))
    || (c.conn == Closed && !(c.kind == TcpConn && c.auto))
  }

  // What the sweep makes of a component: an attempt given up is closed; a closed client
  // that reconnects tries again after ten seconds.
  function Aged(c: Component, now: uint64, reconnect: Conn): Component {
    if GivenUp(c, now) then c.(conn := Closed)
    else if c.conn == Closed && c.kind == TcpConn && c.auto && c.startConn > 0 && Before(c.startConn, now, 10_000_000)
    then c.(startConn := now, conn := reconnect)
    else c
  }

  function Outcome(reconnect: map<Id, Conn>, c: Id): Conn {
    if c in reconnect then reconnect[c] else Closed
  }

  // The members of a list that go, and those that stay, in its order.
  function Going(comps: map<Id, Component>, q: seq<Id>, now: uint64): seq<Id>
    requires forall c :: c in q ==> c in comps
  {
    if q == [] then []
    else (if IsOver(comps[q[0]], now) then [q[0]] else []) + Going(comps, q[1..], now)
  }

  function Staying(comps: map<Id, Component>, q: seq<Id>, now: uint64): seq<Id>
    requires forall c :: c in q ==> c in comps
  {
    if q == [] then []
    else (if IsOver(comps[q[0]], now) then [] else [q[0]]) + Staying(comps, q[1..], now)
  }

  lemma CheckTimeoutMeans(c: Component, now: uint64, reconnect: Conn)
    ensures CheckTimeout(c, now, reconnect) == (IsOver(c, now), Aged(c, now, reconnect))
  {
    ElapsedMeans(c.startConn, now, CONN_TIMEOUT);
    ElapsedMeans(c.startConn, now, RECONN_TIME);
    ElapsedMeans(c.lastUse, now, IDLE_TIMEOUT);
  }

  lemma ElapsedMeans(since: uint64, now: uint64, span: nat)
    requires span < 0x1_0000_0000_0000_0000
    ensures Elapsed(since, now, span) == Before(since, now, span)
  {
  }

  // One pass over a bucket: who goes and who stays, in order, and what becomes of each.
  lemma {:induction false} SweepMeans(comps: map<Id, Component>, q: seq<Id>, now: uint64, reconnect: map<Id, Conn>)
    requires (forall c :: c in q ==> c in comps) && NoDuplicates(q)
    ensures var (after, kept, swept) := SweepQueue(comps, q, now, reconnect);
            && kept == Staying(comps, q, now) && swept == Going(comps, q, now)
            && (forall c :: c in comps ==>
                  after[c] == if c in q then Aged(comps[c], now, Outcome(reconnect, c)) else comps[c])
    decreases |q|
  {
    hide SweepQueue, CheckTimeout, IsOver, Aged, NoDuplicates;
    SweepUnfolds(comps, q, now, reconnect);
    if q != [] {
      var c, rest := q[0], q[1..];
      FirstOnce(q);
      CheckTimeoutMeans(comps[c], now, Outcome(reconnect, c));
      var later := comps[c := Aged(comps[c], now, Outcome(reconnect, c))];
      SweepMeans(later, rest, now, reconnect);
      OthersSame(comps, later, rest, now);
      assert q == [c] + rest;
    }
  }

  lemma {:induction false} OthersSame(comps: map<Id, Component>, later: map<Id, Component>, q: seq<Id>, now: uint64)
    requires forall c :: c in q ==> c in comps && c in later && later[c] == comps[c]
    ensures Going(later, q, now) == Going(comps, q, now) && Staying(later, q, now) == Staying(comps, q, now)
    decreases |q|
  {
    if q != [] { OthersSame(comps, later, q[1..], now); }
  }

  lemma {:induction false} GoingMembers(comps: map<Id, Component>, q: seq<Id>, now: uint64, c: Id)
    requires forall c :: c in q ==> c in comps
    ensures c in Going(comps, q, now) <==> c in q && IsOver(comps[c], now)
    ensures c in Staying(comps, q, now) <==> c in q && !IsOver(comps[c], now)
    decreases |q|
  {
    hide IsOver;
    if q != [] {
      GoingMembers(comps, q[1..], now, c);
      assert q == [q[0]] + q[1..];
    }
  }

  // After the first thirty seconds of the clock: who is swept, in plain comparisons.
  lemma SweptIff(comps: map<Id, Component>, q: seq<Id>, now: uint64, reconnect: map<Id, Conn>, c: Id)
    requires (forall c :: c in q ==> c in comps) && NoDuplicates(q) && c in q && now >= 30_000_000
    ensures var k := comps[c];
            c in SweepQueue(comps, q, now, reconnect).2 <==>
              || (k.conn == Connecting && 0 < k.startConn < now - 2_000_000 && !(k.kind == TcpConn && k.auto))
              || (k.conn == Connected && k.kind == TcpActConn && k.lastUse < now - 30_000_000)
              || (k.conn == Closed && !(k.kind == TcpConn && k.auto))
    ensures c in SweepQueue(comps, q, now, reconnect).1 <==> c !in SweepQueue(comps, q, now, reconnect).2
  {
    hide SweepQueue, NoDuplicates;
    SweepMeans(comps, q, now, reconnect);
    GoingMembers(comps, q, now, c);
  }

  // A client that reconnects is never swept: an attempt of more than two seconds is
  // closed, and ten seconds after its start a new one is made.
  lemma ReconnectingStays(comps: map<Id, Component>, q: seq<Id>, now: uint64, reconnect: map<Id, Conn>, c: Id)
    requires (forall c :: c in q ==> c in comps) && NoDuplicates(q) && c in q && now >= 30_000_000
    requires comps[c].kind == TcpConn && comps[c].auto
    ensures var (after, kept, swept) := SweepQueue(comps, q, now, reconnect);
            var k := comps[c];
            && c in kept && c !in swept && c in after
            && after[c] == (match k.conn
                            case Connected => k
                            case Connecting => if 0 < k.startConn < now - 2_000_000 then k.(conn := Closed) else k
                            case Closed =>
                              if 0 < k.startConn < now - 10_000_000
                              then k.(startConn := now, conn := if c in reconnect then reconnect[c] else Closed) else k)
  {
    hide SweepQueue, NoDuplicates;
    SweepMeans(comps, q, now, reconnect);
    GoingMembers(comps, q, now, c);
  }

  // An idle client is not an idle guest.
  lemma ConnectedClientStays(c: Id, lastUse: uint64, now: uint64)
    ensures var client := Component(1, 1, TcpConn, false, Connected, 1, true, 0, lastUse);
            SweepQueue(map[c := client], [c], now, map[]) == (map[c := client], [c], [])
  {
    hide SweepQueue, CheckTimeout;
    var client := Component(1, 1, TcpConn, false, Connected, 1, true, 0, lastUse);
    var comps, q := map[c := client], [c];
    CheckTimeoutMeans(client, now, Closed);
    SweepUnfolds(comps, q, now, map[]);
    SweepUnfolds(comps, q[1..], now, map[]);
    assert q[1..] == [] && comps[c := client] == comps && [c] + [] == q;
  }

  // ---------- the whole table ----------

  // Bucket after bucket, who goes.
  function AllGoing(comps: map<Id, Component>, bs: seq<Bucket>, now: uint64): seq<Id>
    requires forall i, c :: 0 <= i < |bs| && c in bs[i].queue ==> c in comps
  {
    if bs == [] then []
    else AllGoing(comps, bs[..|bs| - 1], now) + Going(comps, bs[|bs| - 1].queue, now)
  }

  // The first n buckets are swept, as of the states they were found in.
  ghost predicate SweptUpTo(s: State, t: State, n: nat, now: uint64, reconnect: map<Id, Conn>) {
    && n <= |s.buckets| && |t.buckets| == |s.buckets|
    && (forall i, c :: 0 <= i < |s.buckets| && c in s.buckets[i].queue ==> c in s.comps)
    && (forall i :: 0 <= i < n ==> t.buckets[i].queue == Staying(s.comps, s.buckets[i].queue, now))
    && (forall i :: n <= i < |s.buckets| ==> t.buckets[i] == s.buckets[i])
    && t.timeouts == s.timeouts + AllGoing(s.comps, s.buckets[..n], now)
    && t.comps.Keys == s.comps.Keys
    && (forall c :: c in s.comps ==>
          t.comps[c] == if InFirst(s, n, c) then Aged(s.comps[c], now, Outcome(reconnect, c)) else s.comps[c])
  }

  ghost predicate InFirst(s: State, n: nat, c: Id)
    requires n <= |s.buckets|
  {
    exists i :: 0 <= i < n && c in s.buckets[i].queue
  }

  lemma NothingSwept(s: State, now: uint64, reconnect: map<Id, Conn>)
    requires Inv(s)
    ensures SweptUpTo(s, s, 0, now, reconnect)
  {
    hide Inv, Going, Staying, Aged;
    TableKnown(s);
    NoneFirst(s);
    assert s.buckets[..0] == [] && s.timeouts + [] == s.timeouts;
  }

  lemma NoneFirst(s: State)
    ensures forall c :: !InFirst(s, 0, c)
  {
  }

  lemma TableKnown(s: State)
    requires Inv(s)
    ensures forall i, c :: 0 <= i < |s.buckets| && c in s.buckets[i].queue ==> c in s.comps
  {
    hide InTable, Home, Places, Counted, Placed;
    forall i, c | 0 <= i < |s.buckets| && c in s.buckets[i].queue
      ensures c in s.comps
    {
      assert BucketOk(s, i);
    }
  }

  // Nobody is in two buckets.
  lemma OneBucket(s: State, n: nat, c: Id)
    requires Inv(s) && n < |s.buckets| && c in s.buckets[n].queue
    ensures !InFirst(s, n, c)
  {
    hide InTable, Home, Places, Counted, Placed;
    TableKnown(s);
    forall i | 0 <= i < |s.buckets| && c in s.buckets[i].queue
      ensures i == Home(s, s.comps[c].putId)
    {
      assert BucketOk(s, i);
    }
  }

  lemma SweptOneMore(s: State, t: State, n: nat, now: uint64, reconnect: map<Id, Conn>)
    requires Inv(s) && SweptUpTo(s, t, n, now, reconnect) && n < |s.buckets| && CanSweep(t, n)
    ensures SweptUpTo(s, SweptBucket(t, n, now, reconnect), n + 1, now, reconnect)
  {
    hide Inv, Going, Staying, Aged, SweepQueue, NoDuplicates;
    var q, u := s.buckets[n].queue, SweptBucket(t, n, now, reconnect);
    QueueOnce(s, n);
    SweepMeans(t.comps, q, now, reconnect);
    forall c | c in q
      ensures t.comps[c] == s.comps[c]
    {
      OneBucket(s, n, c);
    }
    OthersSame(s.comps, t.comps, q, now);
    forall c | c in s.comps
      ensures u.comps[c] == if InFirst(s, n + 1, c) then Aged(s.comps[c], now, Outcome(reconnect, c)) else s.comps[c]
    {
      if c in q { OneBucket(s, n, c); }
      FirstGrows(s, n, c);
    }
    AllGoingGrows(s.comps, s.buckets, n, now);
    Assoc(s.timeouts, AllGoing(s.comps, s.buckets[..n], now), Going(s.comps, q, now));
  }

  lemma QueueOnce(s: State, n: nat)
    requires Inv(s) && n < |s.buckets|
    ensures NoDuplicates(s.buckets[n].queue)
  {
    hide InTable, Home, Places, Counted;
    BucketNoDuplicates(s, n);
  }

  lemma FirstGrows(s: State, n: nat, c: Id)
    requires n < |s.buckets|
    ensures InFirst(s, n + 1, c) <==> InFirst(s, n, c) || c in s.buckets[n].queue
  {
  }

  lemma AllGoingGrows(comps: map<Id, Component>, bs: seq<Bucket>, n: nat, now: uint64)
    requires forall i, c :: 0 <= i < |bs| && c in bs[i].queue ==> c in comps
    requires n < |bs|
    ensures AllGoing(comps, bs[..n + 1], now) == AllGoing(comps, bs[..n], now) + Going(comps, bs[n].queue, now)
  {
    hide Going;
    assert bs[..n + 1][..n] == bs[..n];
  }

  // ---------- who changes a connection's state ----------

  // Connecting ends with the write event that reports on it; a close, a sweep and a
  // reconnecting post do the rest. Nothing else touches the state.
  lemma StepConn(s: State, step: Step, c: Id)
    requires Inv(s) && Enabled(s, step) && c in s.comps && c in Next(s, step).comps
    ensures var was, now := s.comps[c].conn, Next(s, step).comps[c].conn;
            match step
            case WriteEvent(x, success, _) =>
              now == if x == c && was == Connecting then (if success then Connected else Closed) else was
            case PostReconnect(x, outcome, _, _) =>
              if x == c then was == Closed && s.comps[c].auto && now == outcome else now == was
            case RemoveClose(x, _, _) => now == if x == c then Closed else was
            case SweepBucket(i, clock, reconnect) =>
              i < |s.buckets|
              && now == if c in s.buckets[i].queue then Aged(s.comps[c], clock, Outcome(reconnect, c)).conn else was
            case _ => now == was
  {
    hide Inv, Enabled, Next, Aged;
    match step
    case WriteEvent(x, success, _) => EventConn(s, step, c);
    case PostReconnect(x, outcome, id, _) => EventConn(s, step, c);
    case RemoveClose(x, caller, notice) => EventConn(s, step, c);
    case SweepBucket(i, clock, reconnect) => SweepConn(s, i, clock, reconnect, c);
    case _ => ConnSpared(s, step, c);
  }

  lemma EventConn(s: State, step: Step, c: Id)
    requires Enabled(s, step) && c in s.comps && c in Next(s, step).comps
    ensures var was, now := s.comps[c].conn, Next(s, step).comps[c].conn;
            match step
            case WriteEvent(x, success, _) =>
              now == if x == c && was == Connecting then (if success then Connected else Closed) else was
            case PostReconnect(x, outcome, _, _) =>
              if x == c then was == Closed && s.comps[c].auto && now == outcome else now == was
            case RemoveClose(x, _, _) => now == if x == c then Closed else was
            case _ => true
  {
    hide InTable, Home, SweepQueue;
  }

  lemma SweepConn(s: State, i: nat, clock: uint64, reconnect: map<Id, Conn>, c: Id)
    requires Inv(s) && Enabled(s, SweepBucket(i, clock, reconnect)) && c in s.comps
    ensures var t := Next(s, SweepBucket(i, clock, reconnect));
            && i < |s.buckets| && c in t.comps
            && t.comps[c].conn
               == if c in s.buckets[i].queue then Aged(s.comps[c], clock, Outcome(reconnect, c)).conn else s.comps[c].conn
  {
    hide Inv, SweepQueue, Aged, NoDuplicates, Going, Staying;
    QueueOnce(s, i);
    SweepMeans(s.comps, s.buckets[i].queue, clock, reconnect);
  }

  lemma ConnSpared(s: State, step: Step, c: Id)
    requires Enabled(s, step) && c in s.comps && c in Next(s, step).comps
    requires !step.WriteEvent? && !step.PostReconnect? && !step.RemoveClose? && !step.SweepBucket?
    ensures Next(s, step).comps[c].conn == s.comps[c].conn
  {
    hide InTable, Home, SweepQueue, Erase;
  }

  // A packet announces the end of a connection exactly when there was one, or an
  // attempt at one, and the worker queue takes the packet.
  lemma CloseAnnounces(s: State, c: Id, caller: Caller, notice: Option<nat>)
    requires Enabled(s, RemoveClose(c, caller, notice))
    ensures var t := Next(s, RemoveClose(c, caller, notice));
            && c in s.comps && c in t.comps
            && t.packets == (if s.comps[c].conn != Closed && notice.Some? then s.packets[notice.value := c] else s.packets)
            && t.comps[c].ref == s.comps[c].ref + (if s.comps[c].conn != Closed && notice.Some? then 1 else 0)
            && t.removal == (if s.comps[c].used && !s.comps[c].auto then Some(Removal(c, caller, WasClosed)) else None)
  {
  }

  // ---------- when a connection was last used ----------

  // The start a step leaves a component with.
  function StartedAt(s: State, step: Step, c: Id): uint64
    requires c in s.comps
  {
    var was := s.comps[c];
    match step
    case PostReconnect(x, _, _, now) => if x == c && was.kind == TcpConn then now else was.startConn
    case SweepBucket(i, now, reconnect) =>
      if i < |s.buckets| && c in s.buckets[i].queue then Aged(was, now, Outcome(reconnect, c)).startConn else was.startConn
    case _ => was.startConn
  }

  // The clocks: events on a connection note their time as its last use; a post and a
  // sweep that connect again note theirs as the start. Nothing else does.
  lemma StepClocks(s: State, step: Step, c: Id)
    requires Inv(s) && Enabled(s, step) && c in s.comps && c in Next(s, step).comps
    ensures var was, got := s.comps[c], Next(s, step).comps[c];
            && got.lastUse == UsedAt(step, c, was.lastUse) && got.kind == was.kind && got.auto == was.auto
            && got.startConn == StartedAt(s, step, c)
  {
    hide Inv, Enabled, Next, Aged;
    match step
    case SweepBucket(i, now, reconnect) =>
      SweepClocks(s, i, now, reconnect, c);
      AgedKeeps(s.comps[c], now, Outcome(reconnect, c));
    case ReadEvent(_, _, _) => EventClocks(s, step, c);
    case WriteEvent(_, _, _) => EventClocks(s, step, c);
    case PostReconnect(_, _, _, _) => EventClocks(s, step, c);
    case _ => OtherClocks(s, step, c);
  }

  lemma SweepClocks(s: State, i: nat, now: uint64, reconnect: map<Id, Conn>, c: Id)
    requires Inv(s) && Enabled(s, SweepBucket(i, now, reconnect)) && c in s.comps
    ensures var t := Next(s, SweepBucket(i, now, reconnect));
            && i < |s.buckets| && c in t.comps
            && t.comps[c] == if c in s.buckets[i].queue then Aged(s.comps[c], now, Outcome(reconnect, c)) else s.comps[c]
  {
    hide Inv, SweepQueue, Aged, NoDuplicates, Going, Staying;
    QueueOnce(s, i);
    SweepMeans(s.comps, s.buckets[i].queue, now, reconnect);
  }

  lemma AgedKeeps(c: Component, now: uint64, reconnect: Conn)
    ensures var d := Aged(c, now, reconnect); d.lastUse == c.lastUse && d.kind == c.kind && d.auto == c.auto
  {
  }

  lemma EventClocks(s: State, step: Step, c: Id)
    requires Enabled(s, step) && c in s.comps && c in Next(s, step).comps
    requires step.ReadEvent? || step.WriteEvent? || step.PostReconnect?
    ensures var was, got := s.comps[c], Next(s, step).comps[c];
            && got.lastUse == UsedAt(step, c, was.lastUse) && got.kind == was.kind && got.auto == was.auto
            && got.startConn == StartedAt(s, step, c)
  {
    hide InTable, Home, SweepQueue, Erase, Aged;
  }

  lemma OtherClocks(s: State, step: Step, c: Id)
    requires Enabled(s, step) && c in s.comps && c in Next(s, step).comps
    requires !step.ReadEvent? && !step.WriteEvent? && !step.PostReconnect? && !step.SweepBucket?
    ensures var was, got := s.comps[c], Next(s, step).comps[c];
            got.lastUse == was.lastUse && got.kind == was.kind && got.auto == was.auto && got.startConn == was.startConn
  {
    hide InTable, Home, SweepQueue, Erase, Aged;
  }

  // The time of the last event on c among the steps, else `before`.
  function LastUse(steps: seq<Step>, c: Id, before: uint64): uint64 {
    if steps == [] then before
    else LastUse(steps[1..], c, UsedAt(steps[0], c, before))
  }

  function UsedAt(step: Step, c: Id, before: uint64): uint64 {
    match step
    case ReadEvent(x, _, now) => if x == c then now else before
    case WriteEvent(x, _, now) => if x == c then now else before
    case _ => before
  }

  lemma LastUseUnfolds(steps: seq<Step>, c: Id, before: uint64)
    ensures LastUse(steps, c, before) ==
              if steps == [] then before else LastUse(steps[1..], c, UsedAt(steps[0], c, before))
  {
  }

  lemma {:induction false} LastUseOfRun(s: State, steps: seq<Step>, c: Id)
    requires Inv(s) && IsRun(s, steps) && c in s.comps && c in After(s, steps).comps
    ensures var was, got := s.comps[c], After(s, steps).comps[c];
            got.lastUse == LastUse(steps, c, was.lastUse) && got.kind == was.kind && got.auto == was.auto
    decreases |steps|
  {
    hide Inv, Enabled, Next, LastUse, UsedAt, StartedAt, IsRun, After;
    RunUnfolds(s, steps);
    LastUseUnfolds(steps, c, s.comps[c].lastUse);
    if steps != [] {
      var step, rest := steps[0], steps[1..];
      var t := Next(s, step);
      StepKeeps(s, step);
      if c !in t.comps {
        StaysGone(s, step, rest, c);
      }
      StepClocks(s, step, c);
      LastUseOfRun(t, rest, c);
    }
  }

  lemma RunUnfolds(s: State, steps: seq<Step>)
    requires IsRun(s, steps)
    ensures steps == [] ==> After(s, steps) == s
    ensures steps != [] ==> Enabled(s, steps[0]) && IsRun(Next(s, steps[0]), steps[1..])
                            && After(s, steps) == After(Next(s, steps[0]), steps[1..])
  {
  }

  // A component that a step deletes does not come back.
  lemma StaysGone(s: State, step: Step, rest: seq<Step>, c: Id)
    requires Inv(s) && Enabled(s, step) && IsRun(Next(s, step), rest) && c in s.comps && c !in Next(s, step).comps
    ensures c !in After(Next(s, step), rest).comps
  {
    hide Inv, Enabled, Next, IsRun, After;
    StepKnows(s, step);
    assert c in Next(s, step).destroyed;
    RunDestroyed(Next(s, step), rest, c);
    StepKeeps(s, step);
    RunKeeps(Next(s, step), rest);
    DestroyedApart(After(Next(s, step), rest));
  }

  lemma DestroyedApart(s: State)
    requires Inv(s)
    ensures s.destroyed !! s.comps.Keys
  {
    hide InTable, Home, Places, Tabled, Counted, UsedOrQuiet, TableUsed, DoomedFree;
  }

  lemma {:induction false} RunDestroyed(s: State, steps: seq<Step>, c: Id)
    requires IsRun(s, steps) && c in s.destroyed
    ensures c in After(s, steps).destroyed
    decreases |steps|
  {
    hide Enabled, Next, IsRun, After;
    RunUnfolds(s, steps);
    if steps != [] {
      StepKnows(s, steps[0]);
      RunDestroyed(Next(s, steps[0]), steps[1..], c);
    }
  }

  // Whatever happened before, a sweep of its bucket takes a connection from a listener
  // exactly when its last event is more than thirty seconds old, and never a connected
  // client.
  lemma IdleIff(s: State, steps: seq<Step>, i: nat, now: uint64, reconnect: map<Id, Conn>, c: Id)
    requires Inv(s) && IsRun(s, steps) && c in s.comps
    requires var t := After(s, steps);
             && Enabled(t, SweepBucket(i, now, reconnect)) && now >= 30_000_000
             && i < |t.buckets| && c in t.buckets[i].queue && c in t.comps && t.comps[c].conn == Connected
    ensures var t := After(s, steps);
            var u := Next(t, SweepBucket(i, now, reconnect));
            && i < |u.buckets| && c in u.comps && u.comps[c] == t.comps[c]
            && (c !in u.buckets[i].queue <==>
                s.comps[c].kind == TcpActConn && LastUse(steps, c, s.comps[c].lastUse) < now - 30_000_000)
            && (c !in u.buckets[i].queue ==> c in u.timeouts)
  {
    hide Inv, Enabled, IsRun, After, LastUse;
    RunKeeps(s, steps);
    LastUseOfRun(s, steps, c);
    SweepOfConnected(After(s, steps), i, now, reconnect, c);
  }

  lemma SweepOfConnected(t: State, i: nat, now: uint64, reconnect: map<Id, Conn>, c: Id)
    requires Inv(t) && Enabled(t, SweepBucket(i, now, reconnect)) && now >= 30_000_000
    requires i < |t.buckets| && c in t.buckets[i].queue && c in t.comps && t.comps[c].conn == Connected
    ensures var u := Next(t, SweepBucket(i, now, reconnect));
            && i < |u.buckets| && c in u.comps && u.comps[c] == t.comps[c]
            && (c !in u.buckets[i].queue <==> t.comps[c].kind == TcpActConn && t.comps[c].lastUse < now - 30_000_000)
            && (c !in u.buckets[i].queue ==> c in u.timeouts)
  {
    hide Inv, SweepQueue, NoDuplicates, Going, Staying;
    QueueOnce(t, i);
    SweepMeans(t.comps, t.buckets[i].queue, now, reconnect);
    SweptIff(t.comps, t.buckets[i].queue, now, reconnect, c);
  }
}
