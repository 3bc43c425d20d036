/** HashSock and Transport as objects: each method carries out, in place, a run of
    the steps of Lifetime, and says which. */
module Transports {
  import opened Bytes
  import opened Lists
  import opened HashIndex
  import opened Lifetime
  import opened LifetimeProof
  import opened Sweep

  // get_timeout_list visits the buckets in order.
  function SweepSteps(n: nat, now: uint64, reconnect: map<Id, Conn>): seq<Step> {
    if n == 0 then [] else SweepSteps(n - 1, now, reconnect) + [SweepBucket(n - 1, now, reconnect)]
  }

  // The free components of a list, in order, and the others.
  function Free(comps: map<Id, Component>, q: seq<Id>): seq<Id>
    requires forall c :: c in q ==> c in comps
  {
    if q == [] then [] else (if comps[q[0]].ref == 0 then [q[0]] else []) + Free(comps, q[1..])
  }

  function Held(comps: map<Id, Component>, q: seq<Id>): seq<Id>
    requires forall c :: c in q ==> c in comps
  {
    if q == [] then [] else (if comps[q[0]].ref == 0 then [] else [q[0]]) + Held(comps, q[1..])
  }

  // What remove_component does when nothing comes between its regions.
  function RemovalSteps(s: State, c: Id, caller: Caller, notice: Option<nat>): seq<Step>
    requires c in s.comps
  {
    if s.comps[c].auto || !s.comps[c].used then [RemoveClose(c, caller, notice)]
    else [RemoveClose(c, caller, notice), RemoveDetach, RemoveRecycle, RemoveUnmark, RemoveRelease]
  }

  lemma {:induction false} RunAppend(s: State, a: seq<Step>, b: seq<Step>)
    requires IsRun(s, a) && IsRun(After(s, a), b)
    ensures IsRun(s, a + b) && After(s, a + b) == After(After(s, a), b)
    decreases |a|
  {
    hide Enabled, Next;
    if a == [] {
      assert [] + b == b;
    } else {
      RunAppend(Next(s, a[0]), a[1..], b);
      assert (a + b)[1..] == a[1..] + b;
    }
  }

  lemma TableNotEmpty(s: State)
    requires Inv(s)
    ensures |s.buckets| > 0
  {
  }

  // The continuation of a run by one step.
  ghost predicate Ran(s: State, steps: seq<Step>, t: State) {
    IsRun(s, steps) && After(s, steps) == t
  }

  lemma RanNothing(s: State)
    ensures Ran(s, [], s)
  {
  }

  lemma RanStep(s: State, steps: seq<Step>, t: State, step: Step, u: State)
    requires Ran(s, steps, t) && Enabled(t, step) && Next(t, step) == u
    ensures Ran(s, steps + [step], u)
  {
    hide Enabled, Next;
    RunSnoc(s, steps, step);
  }

  lemma RanMore(s: State, a: seq<Step>, t: State, b: seq<Step>, u: State)
    requires Ran(s, a, t) && Ran(t, b, u)
    ensures Ran(s, a + b, u)
  {
    hide IsRun, After;
    RunAppend(s, a, b);
  }

  lemma RanKeeps(s: State, steps: seq<Step>, t: State)
    requires Inv(s) && Ran(s, steps, t)
    ensures Inv(t)
  {
    hide Inv, IsRun, After;
    RunKeeps(s, steps);
  }

  // The stages of one undisturbed removal enable one another.
  lemma CloseLeaves(s: State, c: Id, caller: Caller, notice: Option<nat>)
    requires CanClose(s, c, caller, notice) && |s.buckets| > 0
    ensures c in s.comps
    ensures var t := ClosedBy(s, c, caller, notice);
            && c in t.comps && t.comps[c].conn == Closed && t.comps[c].used == s.comps[c].used
            && t.comps[c].auto == s.comps[c].auto && SameLists(s, t)
            && (caller == TimeoutThread ==> t.swept == if t.removal == None then Removed(c) else Popped(c))
            && if s.comps[c].auto || !s.comps[c].used then t.removal == None
               else t.removal.Some? && RemovalAt(t, WasClosed) && t.removal.value.c == c && t.removal.value.caller == caller
  {
    hide Home;
  }

  predicate SameLists(s: State, t: State) {
    t.timeouts == s.timeouts && t.del == s.del && t.reaping == s.reaping
  }

  lemma DetachLeaves(s: State)
    requires RemovalAt(s, WasClosed)
    ensures var t := DetachedFrom(s);
            && CanRecycle(t) && t.comps == s.comps && t.removal.value.c == s.removal.value.c
            && RemovalAt(RecycledFrom(t), Recycled) && RecycledFrom(t).comps == s.comps
            && RecycledFrom(t).removal.value.c == s.removal.value.c
            && RecycledFrom(t).removal.value.caller == s.removal.value.caller
            && SameLists(s, RecycledFrom(t)) && RecycledFrom(t).swept == s.swept
  {
    hide Home;
  }

  lemma UnmarkLeaves(s: State)
    requires RemovalAt(s, Recycled)
    ensures var t, c := UnmarkedFrom(s), s.removal.value.c;
            && RemovalAt(t, Unmarked)
            && ReleasedFrom(t).removal == None && c in ReleasedFrom(t).comps
            && ReleasedFrom(t).comps[c].conn == s.comps[c].conn && !ReleasedFrom(t).comps[c].used
            && SameLists(s, ReleasedFrom(t))
            && ReleasedFrom(t).swept == if s.removal.value.caller == TimeoutThread && s.swept.Popped?
                                        then Removed(s.swept.c) else s.swept
  {
  }

  lemma FiveSteps(a: Step, b: Step, c: Step, d: Step, e: Step)
    ensures [a] + [b] + [c] + [d] + [e] == [a, b, c, d, e]
  {
  }

  lemma RanFirst(s: State, step: Step, t: State)
    requires Enabled(s, step) && Next(s, step) == t
    ensures Ran(s, [step], t)
  {
    hide Enabled, Next, Ran, IsRun, After;
    RanNothing(s);
    RanStep(s, [], s, step, t);
    assert [] + [step] == [step];
  }

  lemma StagesRan(s: State, close: Step, t: State, u: State, v: State, w: State, x: State)
    requires Ran(s, [close], t) && Enabled(t, RemoveDetach) && Next(t, RemoveDetach) == u
    requires Enabled(u, RemoveRecycle) && Next(u, RemoveRecycle) == v
    requires Enabled(v, RemoveUnmark) && Next(v, RemoveUnmark) == w
    requires Enabled(w, RemoveRelease) && Next(w, RemoveRelease) == x
    ensures Ran(s, [close, RemoveDetach, RemoveRecycle, RemoveUnmark, RemoveRelease], x)
  {
    hide Enabled, Next, Ran, IsRun, After;
    RanStep(s, [close], t, RemoveDetach, u);
    RanStep(s, [close] + [RemoveDetach], u, RemoveRecycle, v);
    RanStep(s, [close] + [RemoveDetach] + [RemoveRecycle], v, RemoveUnmark, w);
    RanStep(s, [close] + [RemoveDetach] + [RemoveRecycle] + [RemoveUnmark], w, RemoveRelease, x);
    FiveSteps(close, RemoveDetach, RemoveRecycle, RemoveUnmark, RemoveRelease);
  }

  lemma CloseIs(s: State, c: Id, caller: Caller, notice: Option<nat>)
    requires CanClose(s, c, caller, notice)
    ensures Enabled(s, RemoveClose(c, caller, notice))
    ensures Next(s, RemoveClose(c, caller, notice)) == ClosedBy(s, c, caller, notice)
  {
    hide CanClose, ClosedBy;
  }

  lemma StagesAre(s: State)
    ensures RemovalAt(s, WasClosed) ==> Enabled(s, RemoveDetach) && Next(s, RemoveDetach) == DetachedFrom(s)
    ensures CanRecycle(s) ==> Enabled(s, RemoveRecycle) && Next(s, RemoveRecycle) == RecycledFrom(s)
    ensures RemovalAt(s, Recycled) ==> Enabled(s, RemoveUnmark) && Next(s, RemoveUnmark) == UnmarkedFrom(s)
    ensures RemovalAt(s, Unmarked) ==> Enabled(s, RemoveRelease) && Next(s, RemoveRelease) == ReleasedFrom(s)
  {
    hide RemovalAt, CanRecycle, DetachedFrom, RecycledFrom, UnmarkedFrom, ReleasedFrom;
  }

  lemma RemovalRan(s: State, c: Id, caller: Caller, notice: Option<nat>)
    requires c in s.comps && CanClose(s, c, caller, notice) && |s.buckets| > 0
    ensures var t := ClosedBy(s, c, caller, notice);
            if s.comps[c].auto || !s.comps[c].used then Ran(s, RemovalSteps(s, c, caller, notice), t)
            else RemovalAt(t, WasClosed) && CanRecycle(DetachedFrom(t))
                 && RemovalAt(RecycledFrom(DetachedFrom(t)), Recycled)
                 && RemovalAt(UnmarkedFrom(RecycledFrom(DetachedFrom(t))), Unmarked)
                 && Ran(s, RemovalSteps(s, c, caller, notice),
                        ReleasedFrom(UnmarkedFrom(RecycledFrom(DetachedFrom(t)))))
  {
    hide CanClose, RemovalAt, CanRecycle, IsRun, After, Ran, Enabled, Next;
    hide ClosedBy, DetachedFrom, RecycledFrom, UnmarkedFrom, ReleasedFrom;
    CloseLeaves(s, c, caller, notice);
    var close := RemoveClose(c, caller, notice);
    var t := ClosedBy(s, c, caller, notice);
    CloseIs(s, c, caller, notice);
    RanFirst(s, close, t);
    if !s.comps[c].auto && s.comps[c].used {
      DetachLeaves(t);
      var u := RecycledFrom(DetachedFrom(t));
      UnmarkLeaves(u);
      StagesAre(t);
      StagesAre(DetachedFrom(t));
      StagesAre(u);
      StagesAre(UnmarkedFrom(u));
      StagesRan(s, close, t, DetachedFrom(t), u, UnmarkedFrom(u), ReleasedFrom(UnmarkedFrom(u)));
    }
  }

  function Combine(kept: seq<Id>, gone: seq<Id>, r: (map<Id, Component>, seq<Id>, seq<Id>))
    : (map<Id, Component>, seq<Id>, seq<Id>)
  {
    (r.0, kept + r.1, gone + r.2)
  }

  lemma SweepQueueStep(comps: map<Id, Component>, q: seq<Id>, k: nat, now: uint64, reconnect: map<Id, Conn>,
                       kept: seq<Id>, gone: seq<Id>)
    requires k < |q| && forall c :: c in q ==> c in comps
    ensures var (timeout, next) := CheckTimeout(comps[q[k]], now, if q[k] in reconnect then reconnect[q[k]] else Closed);
            Combine(kept, gone, SweepQueue(comps, q[k..], now, reconnect))
            == Combine(if timeout then kept else kept + [q[k]], if timeout then gone + [q[k]] else gone,
                       SweepQueue(comps[q[k] := next], q[k + 1..], now, reconnect))
  {
    hide CheckTimeout;
    assert q[k..][1..] == q[k + 1..];
    var (timeout, next) := CheckTimeout(comps[q[k]], now, if q[k] in reconnect then reconnect[q[k]] else Closed);
    var r := SweepQueue(comps[q[k] := next], q[k + 1..], now, reconnect);
    if timeout { assert gone + ([q[k]] + r.2) == gone + [q[k]] + r.2; }
    else { assert kept + ([q[k]] + r.1) == kept + [q[k]] + r.1; }
  }

  lemma CombineNothing(r: (map<Id, Component>, seq<Id>, seq<Id>))
    ensures Combine([], [], r) == r
  {
    assert [] + r.1 == r.1 && [] + r.2 == r.2;
  }

  // The component has that id, and was put under one of the same bucket.
  predicate CanBeFound(s: State, c: Id, sockId: uint64) {
    && |s.buckets| > 0 && c in s.comps && s.comps[c].sockId == sockId
    && Home(s, s.comps[c].putId) == Home(s, sockId)
  }

  // It is the last of its bucket's queue with that id.
  ghost predicate LastWith(s: State, c: Id, sockId: uint64) {
    |s.buckets| > 0
    && var q := s.buckets[Home(s, sockId)].queue;
       exists k :: 0 <= k < |q| && q[k] == c && forall j :: k < j < |q| ==> q[j] in s.comps && s.comps[q[j]].sockId != sockId
  }

  // With the source's hash such a component is reached in any table of more than one
  // bucket: a client of any host, first under port 1, then under port 2.
  lemma ReconnectIsMissed(s: State, c: Id, host: uint32) returns (steps: seq<Step>, id: uint64)
    requires Initial(s) && s.hash == SockHash && |s.buckets| > 1
    ensures IsRun(s, steps) && var t := After(s, steps);
            && Inv(t) && c in InTable(t.buckets) && c in t.comps && t.comps[c].sockId == id
            && !CanBeFound(t, c, id)
  {
    hide IsRun, After, InTable, Inv, SockHash, BucketIndex, SockId;
    BucketsDifferIff(2, host, |s.buckets|);
    ClientIdNotZero(256, host);
    id := SockId(2, 512, host);
    steps := MissedAfterReconnect(s, c, SockId(2, 256, host), id);
    InitialHolds(s);
    RunKeeps(s, steps);
    NotInItsBucket(After(s, steps), c);
  }

  lemma ClientIdNotZero(port: uint16, host: uint32)
    ensures SockId(2, port, host) != 0
  {
  }

  lemma NotInItsBucket(s: State, c: Id)
    requires Inv(s) && c in InTable(s.buckets)
    ensures |s.buckets| > 0 && c in s.comps
    ensures c !in s.buckets[Home(s, s.comps[c].sockId)].queue ==> !CanBeFound(s, c, s.comps[c].sockId)
  {
    hide Inv, InTable, Home;
    FoundUnderNewIdIff(s, c);
  }

  class Transport {
    var comps: map<Id, Component>
    var table: array<Bucket>
    var size: int
    var timeouts: seq<Id>
    var swept: Swept
    var recycle: seq<Id>
    var del: seq<Id>
    var reaping: seq<Id>
    var removal: Option<Removal>
    var packets: map<nat, Id>
    var users: map<nat, Id>
    ghost var destroyed: set<Id>

    ghost function Abs(): State
      reads this, table
    {
      State(SockHash, comps, table[..], timeouts, swept, recycle, del, reaping, removal, packets, users, destroyed)
    }

    // HashSock::get: from the tail of the queue of the bucket that the id hashes to. It
    // misses a component that reconnected under an id of another bucket.
    method Get(sockId: uint64) returns (v: Option<Id>)
      requires Inv(Abs())
      ensures v.Some? <==> exists c :: c in InTable(table[..]) && CanBeFound(Abs(), c, sockId)
      ensures v.Some? ==> CanBeFound(Abs(), v.value, sockId) && LastWith(Abs(), v.value, sockId)
    {
      hide InTable, Places, Placed, Counted, Alive, UsedOrQuiet, TableUsed, RemovalOk, DoomedFree, SockHash, BucketIndex;
      ghost var s := Abs();
      var i := BucketIndex(SockHash(sockId), table.Length);
      var queue := table[i].queue;
      assert BucketOk(s, i);
      var k := |queue|;
      while k > 0 && comps[queue[k - 1]].sockId != sockId
        invariant 0 <= k <= |queue|
        invariant forall j :: k <= j < |queue| ==> comps[queue[j]].sockId != sockId
      {
        k := k - 1;
      }
      if k > 0 {
        TableHas(s.buckets, i, queue[k - 1]);
        return Some(queue[k - 1]);
      }
      forall c | c in InTable(s.buckets)
        ensures !CanBeFound(s, c, sockId)
      {
        TabledKnown(s, c);
        TableAtHome(s, c);
      }
      v := None;
    }

    // HashSock::put and the bookkeeping of add_component.
    method AddComponentTo(c: Id, n: Component)
      requires CanAdd(Abs(), c, n)
      modifies this, table
      ensures table == old(table) && Abs() == Added(old(Abs()), c, n) && size == old(size) + 1
      ensures table.Length > 0
              && var i := BucketIndex(SockHash(n.sockId), table.Length);
                 table[i].queue == old(table[i]).queue + [c] && c in comps && comps[c].used && comps[c].ref == n.ref + 1
    {
      ghost var s := Abs();
      var i := BucketIndex(SockHash(n.sockId), table.Length);
      assert i == Home(s, n.sockId);
      table[i] := Bucket(table[i].queue + [c], table[i].members + {c});
      size := size + 1;
      comps := comps[c := n.(putId := n.sockId, used := true, ref := n.ref + 1)];
      assert table[..] == Added(s, c, n).buckets;
    }

    // HashSock::remove under the bucket's lock. Whether c was there decides whether
    // it will be pushed to _recycle.
    method Detach()
      requires RemovalAt(Abs(), WasClosed)
      modifies this, table
      ensures table == old(table) && Abs() == DetachedFrom(old(Abs()))
      ensures size == old(size) - if removal.value.stage.found then 1 else 0
    {
      ghost var s := Abs();
      var c := removal.value.c;
      var i := BucketIndex(SockHash(comps[c].sockId), table.Length);
      assert i == Home(s, comps[c].sockId);
      var b := table[i];
      if c in b.members {
        table[i] := Bucket(Erase(b.queue, c), b.members - {c});
        size := size - 1;
      }
      removal := Some(removal.value.(stage := Detached(c in b.members)));
      assert table[..] == DetachedFrom(s).buckets;
    }

    method PushRecycle()
      requires CanRecycle(Abs())
      modifies this
      ensures table == old(table) && Abs() == RecycledFrom(old(Abs()))
      ensures recycle == if old(removal).value.stage.found then old(recycle) + [old(removal).value.c] else old(recycle)
    {
      var r := removal.value;
      if r.stage.found {
        recycle := recycle + [r.c];
      }
      removal := Some(r.(stage := Recycled));
    }

    // Transport::remove_component.
    method RemoveComponent(c: Id, caller: Caller, notice: Option<nat>)
      requires Inv(Abs()) && CanClose(Abs(), c, caller, notice)
      modifies this, table
      ensures table == old(table)
      ensures Ran(old(Abs()), RemovalSteps(old(Abs()), c, caller, notice), Abs())
      ensures c in comps && comps[c].conn == Closed && removal == None
      ensures !comps[c].auto ==> !comps[c].used
      ensures timeouts == old(timeouts) && del == old(del) && reaping == old(reaping)
      ensures caller == TimeoutThread ==> swept == Removed(c)
    {
      hide Inv, CanClose, RemovalAt, CanRecycle, IsRun, After, Ran, RemovalSteps;
      hide ClosedBy, DetachedFrom, RecycledFrom, UnmarkedFrom, ReleasedFrom;
      ghost var s := Abs();
      assert |s.buckets| > 0 by { TableNotEmpty(s); }
      CloseLeaves(s, c, caller, notice);
      RemovalRan(s, c, caller, notice);
      assert CanClose(Abs(), c, caller, notice);
      Close(c, caller, notice);
      if removal == None { return; }
      DetachLeaves(Abs());
      Detach();
      PushRecycle();
      UnmarkLeaves(Abs());
      Unmark();
      Release();
    }

    // TCPComponent::close: a component that was connected or connecting announces
    // the disconnection.
    method CloseComponent(c: Id, notice: Option<nat>)
      requires c in comps
      modifies this`comps, this`packets
      ensures var told := old(comps)[c].InConnState() && notice.Some?;
              && comps == SetConn(AddRef(old(comps), c, if told then 1 else 0), c, Closed)
              && packets == if told then old(packets)[notice.value := c] else old(packets)
      ensures packets == if old(comps)[c].conn != Closed && notice.Some? then old(packets)[notice.value := c] else old(packets)
      ensures c in comps && comps[c].conn == Closed
    {
      if comps[c].conn == Closed {
        assert comps == SetConn(AddRef(comps, c, 0), c, Closed);
        return;
      }
      comps := comps[c := comps[c].(conn := Closed)];
      if notice.Some? {
        packets := packets[notice.value := c];
        comps := comps[c := comps[c].(ref := comps[c].ref + 1)];
      }
    }

    // close(), then the checks of remove_component.
    method Close(c: Id, caller: Caller, notice: Option<nat>)
      requires CanClose(Abs(), c, caller, notice)
      modifies this
      ensures table == old(table) && size == old(size) && Abs() == ClosedBy(old(Abs()), c, caller, notice)
      ensures c in old(comps)
              && packets == if old(comps)[c].conn != Closed && notice.Some? then old(packets)[notice.value := c] else old(packets)
    {
      hide SetConn, AddRef;
      var auto, used := comps[c].auto, comps[c].used;
      CloseComponent(c, notice);
      if auto || !used {
        if caller == TimeoutThread { swept := Removed(swept.c); }
        return;
      }
      removal := Some(Removal(c, caller, WasClosed));
    }

    method Unmark()
      requires RemovalAt(Abs(), Recycled)
      modifies this
      ensures table == old(table) && size == old(size) && Abs() == UnmarkedFrom(old(Abs()))
    {
      var c := removal.value.c;
      comps := comps[c := comps[c].(used := false)];
      removal := Some(removal.value.(stage := Unmarked));
    }

    method Release()
      requires RemovalAt(Abs(), Unmarked)
      modifies this
      ensures table == old(table) && size == old(size) && Abs() == ReleasedFrom(old(Abs()))
    {
      var r := removal.value;
      comps := comps[r.c := comps[r.c].(ref := comps[r.c].ref - 1)];
      removal := None;
      if r.caller == TimeoutThread && swept.Popped? { swept := Removed(swept.c); }
    }

    // HashSock::moveto_recycle, on what the timeout thread removed.
    method MovetoRecycle()
      requires CanPutAway(Abs())
      modifies this
      ensures table == old(table) && size == old(size) && Abs() == PutAway(old(Abs()))
      ensures old(comps[swept.c].ref) <= 0 ==> del == old(del) + [old(swept).c] && recycle == old(recycle)
      ensures old(comps[swept.c].ref) > 0 ==> del == old(del) && recycle == old(recycle) + [old(swept).c]
    {
      if comps[swept.c].ref <= 0 {
        del := del + [swept.c];
      } else {
        recycle := recycle + [swept.c];
      }
      swept := Nobody;
    }

    // check_timeout on one member of a bucket, and out of the set and to the list if
    // it is over.
    method SweepMember(c: Id, members: set<Id>, now: uint64, reconnect: map<Id, Conn>) returns (gone: bool, rest: set<Id>)
      requires c in comps
      modifies this`comps, this`timeouts, this`size
      ensures var (timeout, next) := CheckTimeout(old(comps)[c], now, if c in reconnect then reconnect[c] else Closed);
              gone == (timeout && c in members) && comps == old(comps)[c := next]
      ensures rest == if gone then members - {c} else members
      ensures timeouts == (if gone then old(timeouts) + [c] else old(timeouts))
      ensures size == old(size) - if gone then 1 else 0
    {
      var (timeout, next) := CheckTimeout(comps[c], now, if c in reconnect then reconnect[c] else Closed);
      comps := comps[c := next];
      gone := timeout && c in members;
      rest := members;
      if gone {
        rest := members - {c};
        size := size - 1;
        timeouts := timeouts + [c];
      }
    }

    // get_timeout_list in one bucket.
    method SweepOne(i: nat, now: uint64, reconnect: map<Id, Conn>)
      requires Inv(Abs()) && CanSweep(Abs(), i)
      modifies this, table
      ensures table == old(table) && Abs() == SweptBucket(old(Abs()), i, now, reconnect)
      ensures i < table.Length && (forall c :: c in old(table[i]).queue ==> c in old(comps))
      ensures table[i].queue == Staying(old(comps), old(table[i]).queue, now)
      ensures timeouts == old(timeouts) + Going(old(comps), old(table[i]).queue, now)
      ensures size == old(size) - |timeouts| + |old(timeouts)| && swept == Nobody
    {
      hide Inv, CanSweep, CheckTimeout, SweepQueue, Combine, NoDuplicates, Elements;
      ghost var s := Abs();
      SweepReady(s, i);
      var queue := table[i].queue;
      ghost var all := SweepQueue(comps, queue, now, reconnect);
      var k, kept, members := 0, [], table[i].members;
      ghost var gone: seq<Id> := [];
      SweepStart(comps, queue, members, timeouts, now, reconnect);
      while k < |queue|
        invariant 0 <= k <= |queue|
        invariant forall c :: c in queue ==> c in comps
        invariant Abs() == s.(comps := comps, timeouts := s.timeouts + gone) && table == old(table)
        invariant members == s.buckets[i].members - Elements(gone) && size == old(size) - |gone|
        invariant SweepSofar(s.buckets[i], k, gone)
        invariant all == Combine(kept, gone, SweepQueue(comps, queue[k..], now, reconnect))
      {
        SweepQueueStep(comps, queue, k, now, reconnect, kept, gone);
        StillMember(s.buckets[i], k, gone);
        var out;
        out, members := SweepMember(queue[k], members, now, reconnect);
        if out {
          OneMoreOut(s.buckets[i].members, s.timeouts, gone, queue[k]);
          gone := gone + [queue[k]];
        } else {
          kept := kept + [queue[k]];
        }
        k := k + 1;
      }
      SweepDone(comps, now, reconnect, kept, gone);
      assert queue[k..] == [];
      table[i] := Bucket(kept, members);
      SweptIs(s, i, now, reconnect, kept, gone, comps);
      QueueOnce(s, i);
      SweepMeans(s.comps, queue, now, reconnect);
      assert table[..] == s.buckets[i := Bucket(kept, members)];
    }

    // HashSock::get_timeout_list.
    method GetTimeoutList(now: uint64, reconnect: map<Id, Conn>)
      requires Inv(Abs()) && swept == Nobody
      modifies this, table
      ensures table == old(table) && swept == Nobody
      ensures Ran(old(Abs()), SweepSteps(table.Length, now, reconnect), Abs())
      ensures SweptUpTo(old(Abs()), Abs(), table.Length, now, reconnect)
      ensures size - old(size) == |old(timeouts)| - |timeouts|
    {
      hide Inv, IsRun, After, Ran, SweptBucket, Next, Enabled, SweptUpTo, Going, Staying, CanSweep;
      ghost var s := Abs();
      RanNothing(s);
      NothingSwept(s, now, reconnect);
      var i := 0;
      while i < table.Length
        invariant 0 <= i <= table.Length && table == old(table) && swept == Nobody
        invariant Inv(Abs()) && Ran(s, SweepSteps(i, now, reconnect), Abs())
        invariant SweptUpTo(s, Abs(), i, now, reconnect)
        invariant size - old(size) == |old(timeouts)| - |timeouts|
      {
        MaySweep(Abs(), i);
        ghost var t := Abs();
        SweepOne(i, now, reconnect);
        SweptOneMore(s, t, i, now, reconnect);
        RanSweep(s, SweepSteps(i, now, reconnect), t, i, now, reconnect);
        i := i + 1;
      }
    }

    method TakeDel()
      requires CanTakeDel(Abs())
      modifies this
      ensures table == old(table) && size == old(size) && Abs() == DelTaken(old(Abs()))
    {
      reaping, del := del, [];
    }

    // _recycle.erase(e), del.push(e).
    method TakeRecycledAt(e: nat)
      requires Inv(Abs()) && e < |recycle| && CanTakeRecycled(Abs(), recycle[e])
      modifies this
      ensures table == old(table) && size == old(size) && Abs() == RecycledTaken(old(Abs()), old(recycle[e]))
      ensures recycle == old(recycle[..e] + recycle[e + 1..])
    {
      hide Inv;
      EraseAt(Abs(), e);
      var c := recycle[e];
      recycle := recycle[..e] + recycle[e + 1..];
      reaping := reaping + [c];
    }

    // HashSock::get_del_list: all of _del as it is, then what is free in _recycle.
    method GetDelList()
      requires Inv(Abs()) && CanTakeDel(Abs())
      modifies this
      ensures table == old(table) && size == old(size) && comps == old(comps)
      ensures forall c :: c in old(recycle) ==> c in comps
      ensures del == [] && reaping == old(del) + Free(comps, old(recycle)) && recycle == Held(comps, old(recycle))
      ensures Ran(old(Abs()), [Step.TakeDel] + TakeSteps(Free(comps, old(recycle))), Abs())
    {
      hide Inv, IsRun, After, Ran, Free, Held, TakeSteps, Sifted, Enabled, Next;
      ghost var s := Abs();
      RecycleKnown(s);
      TakeDel();
      TookDel(s);
      var e := 0;
      ghost var taken: seq<Id> := [];
      SiftStart(comps, recycle);
      while e < |recycle|
        invariant 0 <= e <= |recycle| && table == old(table) && size == old(size) && comps == s.comps && del == []
        invariant Inv(Abs()) && Ran(s, [Step.TakeDel] + TakeSteps(taken), Abs()) && !IoBusy(Abs())
        invariant Sifted(comps, s.recycle, taken, recycle, e) && reaping == s.del + taken
        decreases |recycle| - e
      {
        ghost var t, q := Abs(), recycle;
        RecycleKnown(t);
        if comps[recycle[e]].ref == 0 {
          TakeRecycledAt(e);
          TookOne(s, taken, t, q[e]);
          SiftTake(comps, s.recycle, taken, q, e);
          Assoc(s.del, taken, [q[e]]);
          taken := taken + [q[e]];
        } else {
          SiftKeep(comps, s.recycle, taken, q, e);
          e := e + 1;
        }
      }
      SiftEnd(comps, s.recycle, taken, recycle);
    }

    method DeleteFirst()
      requires CanDestroy(Abs())
      modifies this
      ensures table == old(table) && size == old(size) && Abs() == DestroyedFirst(old(Abs()))
    {
      var c := reaping[0];
      comps := comps - {c};
      destroyed := destroyed + {c};
      reaping := reaping[1..];
    }

    // The delete loop of event_loop.
    method DeleteReaped()
      requires Inv(Abs()) && !IoBusy(Abs())
      modifies this
      ensures table == old(table) && size == old(size)
      ensures reaping == [] && destroyed == old(destroyed) + Elements(old(reaping))
      ensures comps == old(comps) - Elements(old(reaping))
      ensures Ran(old(Abs()), DestroySteps(|old(reaping)|), Abs())
    {
      hide Inv, IsRun, After, Ran, Enabled, Next, Elements;
      ghost var s, gone: seq<Id> := Abs(), [];
      RanNothing(s);
      NothingGone(comps, destroyed, reaping);
      while reaping != []
        invariant table == old(table) && size == old(size) && Inv(Abs()) && !IoBusy(Abs())
        invariant Ran(s, DestroySteps(|gone|), Abs())
        invariant s.reaping == gone + reaping
        invariant destroyed == s.destroyed + Elements(gone) && comps == s.comps - Elements(gone)
        decreases |reaping|
      {
        ghost var t := Abs();
        ghost var c := reaping[0];
        DeleteFirst();
        DestroyedOne(s, |gone|, t);
        OneMoreGone(s.comps, s.destroyed, gone, c, reaping);
        gone := gone + [c];
      }
      assert gone == s.reaping;
    }

    // The body of timeout_loop: pop, remove_component, moveto_recycle. `notice` is
    // the packet the closed component leaves behind, if any.
    method RetireFirst(notice: Option<nat>) returns (ghost steps: seq<Step>)
      requires Inv(Abs()) && CanPop(Abs()) && removal == None
      requires notice.Some? ==> notice.value !in packets
      modifies this, table
      ensures table == old(table) && timeouts == old(timeouts)[1..] && swept == Nobody && removal == None
      ensures old(timeouts) != [] && Inv(Abs()) && Ran(old(Abs()), steps, Abs())
      ensures var c := old(timeouts)[0];
              && c in comps && comps[c].conn == Closed && (!comps[c].auto ==> !comps[c].used)
              && c !in InTable(table[..])
              && (c in recycle || c in del) && (c in del ==> comps[c].ref == 0)
    {
      hide Inv, IsRun, After, Ran, RemovalSteps, CanClose, InTable, Enabled, Next;
      ghost var s := Abs();
      var c := timeouts[0];
      PopFacts(s);
      swept, timeouts := Popped(c), timeouts[1..];
      ghost var t := Abs();
      PopRan(s, t);
      PoppedCanClose(t, c, notice);
      RemoveComponent(c, TimeoutThread, notice);
      ghost var u, removal1 := Abs(), RemovalSteps(t, c, TimeoutThread, notice);
      MovetoRecycle();
      RetiredRan(s, t, removal1, u, Abs());
      steps := [PopTimeout] + removal1 + [MoveToRecycle];
      RanStaysOut(s, steps, Abs(), c);
      if c in del { InvDoomed(Abs(), c); }
    }
  }

  lemma PopRan(s: State, t: State)
    requires Inv(s) && CanPop(s) && t == PoppedTimeout(s)
    ensures Ran(s, [PopTimeout], t) && Inv(t)
  {
    hide Inv, IsRun, After, Ran, PoppedTimeout, CanPop;
    RanNothing(s);
    PopEnabled(s);
    RanStep(s, [], s, PopTimeout, t);
    StepKeeps(s, PopTimeout);
    assert [] + [PopTimeout] == [PopTimeout];
  }

  lemma PopEnabled(s: State)
    requires CanPop(s)
    ensures Enabled(s, PopTimeout) && Next(s, PopTimeout) == PoppedTimeout(s)
  {
  }

  lemma PutAwayEnabled(s: State)
    requires CanPutAway(s)
    ensures Enabled(s, MoveToRecycle) && Next(s, MoveToRecycle) == PutAway(s)
  {
  }

  // The round of the timeout thread: popped, removed, put away.
  lemma RetiredRan(s: State, t: State, removal: seq<Step>, u: State, v: State)
    requires Ran(s, [PopTimeout], t) && Inv(t) && Ran(t, removal, u) && CanPutAway(u) && v == PutAway(u)
    ensures Ran(s, [PopTimeout] + removal + [MoveToRecycle], v) && Inv(v)
  {
    hide Inv, IsRun, After, Ran, PutAway, CanPutAway, Enabled, Next;
    RanMore(s, [PopTimeout], t, removal, u);
    RanKeeps(t, removal, u);
    PutAwayEnabled(u);
    RanStep(s, [PopTimeout] + removal, u, MoveToRecycle, v);
    StepKeeps(u, MoveToRecycle);
  }

  // What is swept so far comes from the part of the queue behind us.
  ghost predicate SweepSofar(b: Bucket, k: nat, gone: seq<Id>) {
    k <= |b.queue| && b.members == Elements(b.queue) && NoDuplicates(b.queue)
    && forall c :: c in gone ==> c in b.queue[..k]
  }

  lemma SweepReady(s: State, i: nat)
    requires Inv(s) && CanSweep(s, i)
    ensures i < |s.buckets| && s.swept == Nobody && SweepSofar(s.buckets[i], 0, [])
    ensures forall c :: c in s.buckets[i].queue ==> c in s.comps
  {
    hide InTable, Places, Home, Elements, NoDuplicates;
    BucketNoDuplicates(s, i);
    assert BucketOk(s, i);
  }

  lemma SweepStart(comps: map<Id, Component>, queue: seq<Id>, members: set<Id>, timeouts: seq<Id>,
                   now: uint64, reconnect: map<Id, Conn>)
    requires forall c :: c in queue ==> c in comps
    ensures var all := SweepQueue(comps, queue, now, reconnect);
            queue[0..] == queue && all == Combine([], [], SweepQueue(comps, queue[0..], now, reconnect))
    ensures timeouts + [] == timeouts && members == members - Elements([])
  {
    hide SweepQueue;
    assert queue[0..] == queue;
    CombineNothing(SweepQueue(comps, queue, now, reconnect));
  }

  // The member in front has not been swept: the queue holds nothing twice.
  lemma StillMember(b: Bucket, k: nat, gone: seq<Id>)
    requires SweepSofar(b, k, gone) && k < |b.queue|
    ensures b.queue[k] in b.members - Elements(gone)
    ensures SweepSofar(b, k + 1, gone) && SweepSofar(b, k + 1, gone + [b.queue[k]])
  {
    assert b.queue[..k + 1] == b.queue[..k] + [b.queue[k]];
  }

  lemma OneMoreOut(members: set<Id>, timeouts: seq<Id>, gone: seq<Id>, c: Id)
    ensures members - Elements(gone) - {c} == members - Elements(gone + [c])
    ensures timeouts + gone + [c] == timeouts + (gone + [c])
  {
  }

  lemma SweptIs(s: State, i: nat, now: uint64, reconnect: map<Id, Conn>, kept: seq<Id>, gone: seq<Id>,
                comps: map<Id, Component>)
    requires CanSweep(s, i) && SweepQueue(s.comps, s.buckets[i].queue, now, reconnect) == (comps, kept, gone)
    ensures SweptBucket(s, i, now, reconnect)
         == s.(comps := comps, buckets := s.buckets[i := Bucket(kept, s.buckets[i].members - Elements(gone))],
               timeouts := s.timeouts + gone)
  {
    hide SweepQueue;
  }

  lemma SweepDone(comps: map<Id, Component>, now: uint64, reconnect: map<Id, Conn>, kept: seq<Id>, gone: seq<Id>)
    ensures Combine(kept, gone, SweepQueue(comps, [], now, reconnect)) == (comps, kept, gone)
  {
    assert kept + [] == kept && gone + [] == gone;
  }

  // ---------- facts the loops use ----------

  lemma RanSweep(s: State, steps: seq<Step>, t: State, i: nat, now: uint64, reconnect: map<Id, Conn>)
    requires Inv(t) && Ran(s, steps, t) && CanSweep(t, i)
    ensures Ran(s, steps + [SweepBucket(i, now, reconnect)], SweptBucket(t, i, now, reconnect))
    ensures Inv(SweptBucket(t, i, now, reconnect))
  {
    hide Inv, IsRun, After, Ran, SweptBucket, CanSweep;
    var step := SweepBucket(i, now, reconnect);
    RanStep(s, steps, t, step, Next(t, step));
    StepKeeps(t, step);
  }

  lemma MaySweep(s: State, i: nat)
    requires Inv(s) && i < |s.buckets| && s.swept == Nobody
    ensures CanSweep(s, i)
  {
    BucketKnown(s, i);
  }

  lemma BucketKnown(s: State, i: nat)
    requires Inv(s) && i < |s.buckets|
    ensures forall c :: c in s.buckets[i].queue ==> c in s.comps
  {
    hide InTable, Places, Home;
    assert BucketOk(s, i);
  }

  lemma RecycleKnown(s: State)
    requires Inv(s)
    ensures forall c :: c in s.recycle ==> c in s.comps
  {
    hide InTable, Home;
    assert forall c :: c in s.recycle ==> c in Places(s);
  }

  lemma PopFacts(s: State)
    requires Inv(s) && s.timeouts != []
    ensures s.timeouts[0] in s.comps && s.timeouts[0] !in InTable(s.buckets)
  {
    hide InTable, Home, Places;
    PlaceCount(s, s.timeouts[0]);
    assert s.timeouts[0] in s.timeouts;
  }

  lemma InvDoomed(s: State, c: Id)
    requires Inv(s) && c in s.comps && c in s.del
    ensures s.comps[c].ref == 0
  {
    hide InTable, Places, Home;
  }

  lemma RanStaysOut(s: State, steps: seq<Step>, t: State, c: Id)
    requires Inv(s) && Ran(s, steps, t) && c in s.comps && c !in InTable(s.buckets)
    ensures c !in InTable(t.buckets)
  {
    hide Inv, IsRun, After, InTable;
    LeavesTableOnce(s, steps, c);
  }

  lemma PoppedCanClose(s: State, c: Id, notice: Option<nat>)
    requires c in s.comps && s.removal == None && s.swept == Popped(c) && (notice.Some? ==> notice.value !in s.packets)
    ensures CanClose(s, c, TimeoutThread, notice)
  {
  }

  function DestroySteps(n: nat): seq<Step> {
    if n == 0 then [] else DestroySteps(n - 1) + [Destroy]
  }

  // Going over a list, `taken` is out of the part behind us and the rest is left.
  ghost predicate Sifted(comps: map<Id, Component>, was: seq<Id>, taken: seq<Id>, q: seq<Id>, e: nat) {
    && e <= |q| && (forall c :: c in q ==> c in comps) && (forall c :: c in was ==> c in comps)
    && Free(comps, was) == taken + Free(comps, q[e..])
    && Held(comps, was) == q[..e] + Held(comps, q[e..])
  }

  lemma SiftStart(comps: map<Id, Component>, q: seq<Id>)
    requires forall c :: c in q ==> c in comps
    ensures Sifted(comps, q, [], q, 0)
  {
    assert q[0..] == q && q[..0] == [];
  }

  lemma SiftTake(comps: map<Id, Component>, was: seq<Id>, taken: seq<Id>, q: seq<Id>, e: nat)
    requires Sifted(comps, was, taken, q, e) && e < |q| && comps[q[e]].ref == 0
    ensures Sifted(comps, was, taken + [q[e]], q[..e] + q[e + 1..], e)
  {
    FreeStep(comps, q, e);
    hide Free, Held;
    var r := q[..e] + q[e + 1..];
    assert r[e..] == q[e + 1..] && r[..e] == q[..e];
    Assoc(taken, [q[e]], Free(comps, q[e + 1..]));
  }

  lemma SiftKeep(comps: map<Id, Component>, was: seq<Id>, taken: seq<Id>, q: seq<Id>, e: nat)
    requires Sifted(comps, was, taken, q, e) && e < |q| && comps[q[e]].ref != 0
    ensures Sifted(comps, was, taken, q, e + 1)
  {
    FreeStep(comps, q, e);
    hide Free, Held;
  }

  lemma SiftEnd(comps: map<Id, Component>, was: seq<Id>, taken: seq<Id>, q: seq<Id>)
    requires Sifted(comps, was, taken, q, |q|)
    ensures (forall c :: c in was ==> c in comps) && Free(comps, was) == taken && Held(comps, was) == q
  {
    assert q[|q|..] == [] && q[..|q|] == q;
  }

  lemma TookDel(s: State)
    requires Inv(s) && CanTakeDel(s)
    ensures Ran(s, [Step.TakeDel] + TakeSteps([]), DelTaken(s)) && Inv(DelTaken(s))
    ensures s.del + [] == s.del && !IoBusy(DelTaken(s))
  {
    hide Inv, IsRun, After;
    RanNothing(s);
    RanStep(s, [], s, Step.TakeDel, DelTaken(s));
    StepKeeps(s, Step.TakeDel);
    assert [] + [Step.TakeDel] == [Step.TakeDel] + TakeSteps([]);
  }

  lemma TookOne(s: State, taken: seq<Id>, t: State, c: Id)
    requires Inv(t) && Ran(s, [Step.TakeDel] + TakeSteps(taken), t) && CanTakeRecycled(t, c)
    ensures Ran(s, [Step.TakeDel] + TakeSteps(taken + [c]), RecycledTaken(t, c)) && Inv(RecycledTaken(t, c))
  {
    hide Inv, IsRun, After, Ran, TakeSteps, RecycledTaken, CanTakeRecycled;
    TakeEnabled(t, c);
    RanStep(s, [Step.TakeDel] + TakeSteps(taken), t, TakeRecycled(c), RecycledTaken(t, c));
    StepKeeps(t, TakeRecycled(c));
    TakeStepsSnoc(taken, c);
    Assoc([Step.TakeDel], TakeSteps(taken), [TakeRecycled(c)]);
  }

  lemma TakeEnabled(s: State, c: Id)
    requires CanTakeRecycled(s, c)
    ensures Enabled(s, TakeRecycled(c)) && Next(s, TakeRecycled(c)) == RecycledTaken(s, c)
  {
  }

  lemma DestroyedOne(s: State, n: nat, t: State)
    requires Inv(t) && Ran(s, DestroySteps(n), t) && CanDestroy(t)
    ensures Ran(s, DestroySteps(n + 1), DestroyedFirst(t)) && Inv(DestroyedFirst(t)) && !IoBusy(DestroyedFirst(t))
  {
    hide Inv, IsRun, After, Ran;
    RanStep(s, DestroySteps(n), t, Destroy, DestroyedFirst(t));
    StepKeeps(t, Destroy);
  }

  lemma NothingGone(comps: map<Id, Component>, destroyed: set<Id>, reaping: seq<Id>)
    ensures comps == comps - Elements([]) && destroyed == destroyed + Elements([]) && reaping == [] + reaping
  {
  }

  lemma OneMoreGone(comps: map<Id, Component>, destroyed: set<Id>, gone: seq<Id>, c: Id, rest: seq<Id>)
    ensures comps - Elements(gone) - {c} == comps - Elements(gone + [c])
    ensures destroyed + Elements(gone) + {c} == destroyed + Elements(gone + [c])
    ensures gone + ([c] + rest) == gone + [c] + rest
  {
    assert Elements(gone + [c]) == Elements(gone) + {c};
  }

  lemma FreeStep(comps: map<Id, Component>, q: seq<Id>, e: nat)
    requires e < |q| && forall c :: c in q ==> c in comps
    ensures comps[q[e]].ref == 0 ==>
              Free(comps, q[e..]) == [q[e]] + Free(comps, q[e + 1..]) && Held(comps, q[e..]) == Held(comps, q[e + 1..])
    ensures comps[q[e]].ref != 0 ==>
              Free(comps, q[e..]) == Free(comps, q[e + 1..])
              && q[..e] + Held(comps, q[e..]) == q[..e + 1] + Held(comps, q[e + 1..])
  {
    assert q[e..][1..] == q[e + 1..];
  }

  function TakeSteps(q: seq<Id>): seq<Step> {
    if q == [] then [] else [TakeRecycled(q[0])] + TakeSteps(q[1..])
  }

  lemma {:induction false} TakeStepsSnoc(q: seq<Id>, c: Id)
    ensures TakeSteps(q + [c]) == TakeSteps(q) + [TakeRecycled(c)]
  {
    if q == [] {
      assert [c][1..] == [] && q + [c] == [c];
    } else {
      assert (q + [c])[1..] == q[1..] + [c];
      TakeStepsSnoc(q[1..], c);
    }
  }

  // Erasing the node at e is erasing its component: nothing is listed twice.
  lemma EraseAt(s: State, e: nat)
    requires Inv(s) && e < |s.recycle|
    ensures Erase(s.recycle, s.recycle[e]) == s.recycle[..e] + s.recycle[e + 1..]
  {
    hide InTable, Home;
    var q := s.recycle;
    forall x | x in q
      ensures multiset(q)[x] == 1
    {
      assert x in multiset(q) && multiset(q) <= Places(s);
    }
    MultisetNoDuplicates(q);
    EraseIndex(q, e);
  }

  lemma {:induction false} EraseIndex(q: seq<Id>, e: nat)
    requires e < |q| && NoDuplicates(q)
    ensures Erase(q, q[e]) == q[..e] + q[e + 1..]
  {
    if e > 0 {
      FirstOnce(q);
      assert q[0] != q[e];
      EraseIndex(q[1..], e - 1);
      assert q[1..][e - 1] == q[e];
    }
  }
}
