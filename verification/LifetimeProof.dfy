/** What every step of Lifetime keeps, and what follows for whole runs. */
module LifetimeProof {
  import opened Bytes
  import opened Lists
  import opened HashIndex
  import opened Lifetime

  // ---------- the table as a multiset ----------

  lemma {:induction false} TableUpdate(bs: seq<Bucket>, i: nat, b: Bucket)
    requires i < |bs|
    ensures multiset(bs[i].queue) <= InTable(bs)
    ensures InTable(bs[i := b]) == InTable(bs) - multiset(bs[i].queue) + multiset(b.queue)
  {
    TableHead(bs);
    TableHead(bs[i := b]);
    hide InTable;
    if i == 0 {
      assert bs[0 := b][1..] == bs[1..];
      SwapHead(multiset(bs[0].queue), InTable(bs[1..]), multiset(b.queue));
    } else {
      assert bs[i := b][1..] == bs[1..][i - 1 := b];
      TableUpdate(bs[1..], i - 1, b);
      SwapTail(multiset(bs[0].queue), InTable(bs[1..]), multiset(bs[i].queue), multiset(b.queue));
    }
  }

  lemma TableHead(bs: seq<Bucket>)
    requires bs != []
    ensures InTable(bs) == multiset(bs[0].queue) + InTable(bs[1..])
  {
  }

  lemma SwapHead(head: multiset<Id>, tail: multiset<Id>, y: multiset<Id>)
    ensures head <= head + tail && y + tail == head + tail - head + y
  {
  }

  lemma SwapTail(head: multiset<Id>, tail: multiset<Id>, x: multiset<Id>, y: multiset<Id>)
    requires x <= tail
    ensures x <= head + tail && head + (tail - x + y) == head + tail - x + y
  {
  }

  lemma {:induction false} TableMember(bs: seq<Bucket>, c: Id) returns (i: nat)
    requires c in InTable(bs)
    ensures i < |bs| && c in bs[i].queue
  {
    if c in bs[0].queue {
      i := 0;
    } else {
      i := TableMember(bs[1..], c);
      i := i + 1;
    }
  }

  lemma TableHas(bs: seq<Bucket>, i: nat, c: Id)
    requires i < |bs| && c in bs[i].queue
    ensures c in InTable(bs)
  {
    TableUpdate(bs, i, bs[i]);
    assert c in multiset(bs[i].queue);
  }

  // A bucket's queue holds nothing twice.
  lemma BucketNoDuplicates(s: State, i: nat)
    requires Tabled(s) && Placed(s) && i < |s.buckets|
    ensures NoDuplicates(s.buckets[i].queue)
  {
    var q := s.buckets[i].queue;
    TableUpdate(s.buckets, i, s.buckets[i]);
    forall x | x in q
      ensures multiset(q)[x] == 1
    {
      assert x in s.comps;
      assert x in multiset(q) && multiset(q) <= InTable(s.buckets) <= Places(s);
    }
    MultisetNoDuplicates(q);
  }

  // A component in the table is in the bucket it was put into, and in that bucket's
  // set.
  lemma TableAtHome(s: State, c: Id)
    requires Tabled(s) && c in s.comps
    ensures c in InTable(s.buckets) <==> c in s.buckets[Home(s, s.comps[c].putId)].queue
    ensures c in InTable(s.buckets) <==> c in s.buckets[Home(s, s.comps[c].putId)].members
  {
    var h := Home(s, s.comps[c].putId);
    assert BucketOk(s, h);
    if c in InTable(s.buckets) {
      var i := TableMember(s.buckets, c);
      assert BucketOk(s, i);
    }
    if c in s.buckets[h].queue { TableHas(s.buckets, h, c); }
  }

  // How often a component is in any place.
  lemma PlaceCount(s: State, x: Id)
    ensures Places(s)[x] == InTable(s.buckets)[x] + multiset(s.timeouts)[x] + InSweep(s.swept)[x] + InRemoval(s.removal)[x]
                            + multiset(s.recycle)[x] + multiset(s.del)[x] + multiset(s.reaping)[x]
    ensures x in Places(s) <==> Places(s)[x] > 0
    ensures x in InTable(s.buckets) <==> InTable(s.buckets)[x] > 0
  {
    hide InTable, InSweep, InRemoval;
  }

  lemma SamePlaces(s: State, t: State)
    requires forall x :: Places(t)[x] == Places(s)[x]
    ensures Places(t) == Places(s)
  {
    hide Places;
  }

  lemma HeadCount(q: seq<Id>, x: Id)
    requires q != []
    ensures multiset(q)[x] == multiset(q[1..])[x] + if q[0] == x then 1 else 0
  {
    assert q == [q[0]] + q[1..];
  }

  lemma LastCount(q: seq<Id>, c: Id, x: Id)
    ensures multiset(q + [c])[x] == multiset(q)[x] + if c == x then 1 else 0
  {
  }

  // ---------- what the count says ----------

  // Nothing refers to a component whose count is zero: no packet, no user, no
  // removal under way.
  lemma NothingHolds(s: State, c: Id)
    requires Counted(s) && UsedOrQuiet(s) && RemovalOk(s) && c in s.comps && s.comps[c].ref == 0
    ensures !s.comps[c].used && Quiet(s.comps[c])
    ensures c !in s.packets.Values && c !in s.users.Values
    ensures s.removal.Some? ==> s.removal.value.c != c
  {
    hide InTable;
    assert s.comps[c].ref == Holds(s, c);
    if c in s.packets.Values {
      var p :| p in s.packets && s.packets[p] == c;
      CountPositive(s.packets, p);
    }
    if c in s.users.Values {
      var u :| u in s.users && s.users[u] == c;
      CountPositive(s.users, u);
    }
  }

  // Whatever a thread can reach has a positive count, so it is not waiting to be
  // deleted.
  lemma ReachableIsHeld(s: State, c: Id)
    requires Counted(s) && Alive(s) && UsedOrQuiet(s) && Reachable(s, c)
    ensures c in s.comps && s.comps[c].ref >= 1
  {
    if c in s.packets.Values {
      var p :| p in s.packets && s.packets[p] == c;
      CountPositive(s.packets, p);
    } else if c in s.users.Values {
      var u :| u in s.users && s.users[u] == c;
      CountPositive(s.users, u);
    }
    assert s.comps[c].ref == Holds(s, c);
  }

  lemma RemovalIsHeld(s: State)
    requires Counted(s) && RemovalOk(s) && s.removal.Some?
    ensures s.removal.value.c in s.comps && s.comps[s.removal.value.c].ref >= 1
  {
    hide InTable;
    assert s.comps[s.removal.value.c].ref == Holds(s, s.removal.value.c);
  }

  // ---------- steps that leave the places alone ----------

  predicate SameName(m: Component, n: Component) {
    n.putId == m.putId && n.auto == m.auto && (m.auto || n.sockId == m.sockId)
  }

  // Same lists, same bucket; at most component c itself changed.
  ghost predicate OnlyTouches(s: State, t: State, c: Id) {
    && t.hash == s.hash && t.buckets == s.buckets && t.timeouts == s.timeouts && InSweep(t.swept) == InSweep(s.swept)
    && t.recycle == s.recycle && t.del == s.del && t.reaping == s.reaping && t.destroyed == s.destroyed
    && InRemoval(t.removal) == InRemoval(s.removal)
    && c in s.comps && t.comps.Keys == s.comps.Keys && SameName(s.comps[c], t.comps[c])
    && forall x :: x in s.comps && x != c ==> t.comps[x] == s.comps[x]
  }

  lemma TouchedTabled(s: State, t: State, c: Id)
    requires Tabled(s) && OnlyTouches(s, t, c)
    ensures Tabled(t)
  {
    hide Home;
    forall i | 0 <= i < |t.buckets|
      ensures BucketOk(t, i)
    {
      assert BucketOk(s, i);
      forall x | x in t.buckets[i].queue
        ensures x in t.comps && Home(t, t.comps[x].putId) == i
      {
        SameHome(s, t, s.comps[x].putId);
      }
    }
  }

  lemma SameHome(s: State, t: State, sockId: uint64)
    requires |s.buckets| == |t.buckets| > 0 && s.hash == t.hash
    ensures Home(s, sockId) == Home(t, sockId)
  {
  }

  lemma TouchedPlaced(s: State, t: State, c: Id)
    requires Placed(s) && OnlyTouches(s, t, c)
    ensures Placed(t)
  {
    hide InTable;
    assert Places(t) == Places(s);
  }

  // The part of the invariant about states and counts, once the touched component
  // is seen to.
  lemma TouchedRest(s: State, t: State, c: Id)
    requires Inv(s) && OnlyTouches(s, t, c) && c in t.comps
    requires !t.comps[c].used ==> Quiet(t.comps[c])
    requires !t.comps[c].used ==> c !in InTable(s.buckets)
    requires c in s.del || c in s.reaping ==> t.comps[c].ref == 0
    ensures Tabled(t) && Named(t) && Placed(t) && UsedOrQuiet(t) && TableUsed(t) && DoomedFree(t)
  {
    hide InTable, Home, Places, OnlyTouches, Tabled, Placed, Counted, Alive, UsedOrQuiet, TableUsed, DoomedFree, Named;
    TouchedTabled(s, t, c);
    TouchedPlaced(s, t, c);
    TouchedMarks(s, t, c);
  }

  lemma TouchedMarks(s: State, t: State, c: Id)
    requires Named(s) && UsedOrQuiet(s) && TableUsed(s) && DoomedFree(s) && OnlyTouches(s, t, c)
    requires !t.comps[c].used ==> Quiet(t.comps[c])
    requires !t.comps[c].used ==> c !in InTable(s.buckets)
    requires c in s.del || c in s.reaping ==> t.comps[c].ref == 0
    ensures Named(t) && UsedOrQuiet(t) && TableUsed(t) && DoomedFree(t)
  {
    hide InTable, Home, Places;
  }

  // A component that is connected, or in anybody's hands, is not waiting to be
  // deleted.
  lemma HeldFacts(s: State, c: Id)
    requires Inv(s) && c in s.comps
    ensures !s.comps[c].used ==> Quiet(s.comps[c]) && c !in InTable(s.buckets)
    ensures s.comps[c].conn != Closed || s.comps[c].auto || s.comps[c].ref >= 1 ==> c !in s.del && c !in s.reaping
  {
    hide InTable;
    hide Home;
    hide Places;
    UnusedFacts(s, c);
    if c in s.del || c in s.reaping { NothingHolds(s, c); }
  }

  lemma ReadCounted(s: State, c: Id, arrived: set<nat>, now: uint64)
    requires Counted(s) && CanRead(s, c, arrived)
    ensures Counted(ReadFrom(s, c, arrived, now))
  {
    var t := ReadFrom(s, c, arrived, now);
    forall x | x in t.comps
      ensures t.comps[x].ref == Holds(t, x)
    {
      assert s.comps[x].ref == Holds(s, x);
      CountAddAll(s.packets, arrived, c, x);
    }
  }

  lemma SetConnCounted(s: State, t: State)
    requires Counted(s) && t.comps.Keys == s.comps.Keys && t.removal == s.removal
    requires t.packets == s.packets && t.users == s.users
    requires forall x :: x in s.comps ==> t.comps[x].ref == s.comps[x].ref && t.comps[x].used == s.comps[x].used
    ensures Counted(t)
  {
    assert forall x :: x in t.comps ==> Holds(t, x) == Holds(s, x);
  }

  lemma CloseShape(s: State, c: Id, caller: Caller, notice: Option<nat>)
    requires CanClose(s, c, caller, notice)
    ensures OnlyTouches(s, ClosedBy(s, c, caller, notice), c)
  {
    hide InTable, Home, SetConn, AddRef;
    ClosedComps(s.comps, c, 0);
    ClosedComps(s.comps, c, 1);
  }

  lemma ClosedComps(comps: map<Id, Component>, c: Id, change: int)
    requires c in comps
    ensures var m := SetConn(AddRef(comps, c, change), c, Closed);
            m.Keys == comps.Keys && SameName(comps[c], m[c]) && forall x :: x in comps && x != c ==> m[x] == comps[x]
  {
  }

  lemma CloseRemovalOk(s: State, c: Id, caller: Caller, notice: Option<nat>)
    requires CanClose(s, c, caller, notice) && Alive(s)
    ensures RemovalOk(ClosedBy(s, c, caller, notice)) && Alive(ClosedBy(s, c, caller, notice))
  {
    hide InTable;
  }

  lemma UnusedFacts(s: State, c: Id)
    requires UsedOrQuiet(s) && TableUsed(s) && c in s.comps
    ensures !s.comps[c].used ==> Quiet(s.comps[c]) && c !in InTable(s.buckets)
  {
    hide InTable;
  }

  // What is doomed is not connected: closing it leaves no notice.
  lemma CloseDoomed(s: State, c: Id)
    requires Inv(s) && c in s.comps
    ensures c in s.del || c in s.reaping ==> s.comps[c].ref == 0 && !s.comps[c].InConnState()
  {
    hide InTable;
    hide Home;
    hide Places;
    if c in s.del || c in s.reaping { NothingHolds(s, c); }
  }

  lemma CloseCounted(s: State, c: Id, caller: Caller, notice: Option<nat>)
    requires Counted(s) && CanClose(s, c, caller, notice)
    ensures Counted(ClosedBy(s, c, caller, notice))
  {
    hide Count;
    var t := ClosedBy(s, c, caller, notice);
    forall x | x in t.comps
      ensures t.comps[x].ref == Holds(t, x)
    {
      assert s.comps[x].ref == Holds(s, x);
      if notice.Some? { CountAdd(s.packets, notice.value, c, x); }
    }
  }

  lemma UnmarkCounted(s: State)
    requires Counted(s) && RemovalOk(s) && RemovalAt(s, Recycled)
    ensures Counted(UnmarkedFrom(s))
  {
    hide InTable;
    var t := UnmarkedFrom(s);
    forall x | x in t.comps
      ensures t.comps[x].ref == Holds(t, x)
    {
      assert s.comps[x].ref == Holds(s, x);
    }
  }

  lemma ReleaseCounted(s: State)
    requires Counted(s) && RemovalAt(s, Unmarked)
    ensures Counted(ReleasedFrom(s))
  {
    var t := ReleasedFrom(s);
    forall x | x in t.comps
      ensures t.comps[x].ref == Holds(t, x)
    {
      assert s.comps[x].ref == Holds(s, x);
    }
  }

  lemma DeleteCounted(s: State, p: nat)
    requires Counted(s) && CanDelete(s, p)
    ensures Counted(Deleted(s, p))
  {
    var t := Deleted(s, p);
    forall x | x in t.comps
      ensures t.comps[x].ref == Holds(t, x)
    {
      assert s.comps[x].ref == Holds(s, x);
      CountRemove(s.packets, p, x);
    }
  }

  lemma HandOffCounted(s: State, c: Id, p: nat)
    requires Counted(s) && c in s.comps && p !in s.packets
    ensures Counted(HandedOff(s, c, p))
  {
    var t := HandedOff(s, c, p);
    forall x | x in t.comps
      ensures t.comps[x].ref == Holds(t, x)
    {
      assert s.comps[x].ref == Holds(s, x);
      CountAdd(s.packets, p, c, x);
    }
  }

  lemma BindCounted(s: State, u: nat, c: Id)
    requires Counted(s) && c in s.comps && u !in s.users
    ensures Counted(Bound(s, u, c))
  {
    var t := Bound(s, u, c);
    forall x | x in t.comps
      ensures t.comps[x].ref == Holds(t, x)
    {
      assert s.comps[x].ref == Holds(s, x);
      CountAdd(s.users, u, c, x);
    }
  }

  lemma UnbindCounted(s: State, u: nat)
    requires Counted(s) && CanUnbind(s, u)
    ensures Counted(Unbound(s, u))
  {
    var t := Unbound(s, u);
    forall x | x in t.comps
      ensures t.comps[x].ref == Holds(t, x)
    {
      assert s.comps[x].ref == Holds(s, x);
      CountRemove(s.users, u, x);
    }
  }

  // The io thread's events and posts.
  lemma EventKeeps(s: State, step: Step)
    requires Inv(s) && Enabled(s, step) && (step.ReadEvent? || step.WriteEvent? || step.PostReconnect?)
    ensures Inv(Next(s, step))
  {
    hide Inv, ReadFrom, WrittenTo, Posted;
    match step
    case ReadEvent(c, arrived, now) => ReadKeeps(s, c, arrived, now);
    case WriteEvent(c, success, now) => WriteKeeps(s, c, success, now);
    case PostReconnect(c, outcome, id, now) => PostKeeps(s, c, outcome, id, now);
  }

  lemma ReadKeeps(s: State, c: Id, arrived: set<nat>, now: uint64)
    requires Inv(s) && CanRead(s, c, arrived)
    ensures Inv(ReadFrom(s, c, arrived, now))
  {
    hide InTable, Home, Places, Tabled, Placed, Counted, UsedOrQuiet, TableUsed, DoomedFree;
    ReadCounted(s, c, arrived, now);
    HeldFacts(s, c);
    TouchedRest(s, ReadFrom(s, c, arrived, now), c);
  }

  lemma WriteKeeps(s: State, c: Id, success: bool, now: uint64)
    requires Inv(s) && CanWrite(s, c)
    ensures Inv(WrittenTo(s, c, success, now))
  {
    hide InTable, Home, Places, Tabled, Placed, Counted, UsedOrQuiet, TableUsed, DoomedFree;
    SetConnCounted(s, WrittenTo(s, c, success, now));
    HeldFacts(s, c);
    TouchedRest(s, WrittenTo(s, c, success, now), c);
  }

  lemma PostKeeps(s: State, c: Id, outcome: Conn, id: Option<uint64>, now: uint64)
    requires Inv(s) && CanPost(s, c)
    ensures Inv(Posted(s, c, outcome, id, now))
  {
    hide InTable, Home, Places, Tabled, Placed, Counted, UsedOrQuiet, TableUsed, DoomedFree;
    SetConnCounted(s, Posted(s, c, outcome, id, now));
    HeldFacts(s, c);
    TouchedRest(s, Posted(s, c, outcome, id, now), c);
  }

  // The first stage of a removal.
  lemma CloseKeeps(s: State, c: Id, caller: Caller, notice: Option<nat>)
    requires Inv(s) && CanClose(s, c, caller, notice)
    ensures Inv(ClosedBy(s, c, caller, notice))
  {
    hide InTable, Home, Places, Tabled, Placed, Counted, UsedOrQuiet, TableUsed, DoomedFree;
    CloseCounted(s, c, caller, notice);
    HeldFacts(s, c);
    CloseShape(s, c, caller, notice);
    CloseDoomed(s, c);
    TouchedRest(s, ClosedBy(s, c, caller, notice), c);
    CloseRemovalOk(s, c, caller, notice);
  }

  // The last two stages, which leave every list as it is.
  lemma UnmarkReleaseKeeps(s: State, step: Step)
    requires Inv(s) && Enabled(s, step) && (step.RemoveUnmark? || step.RemoveRelease?)
    ensures Inv(Next(s, step))
  {
    hide Inv, UnmarkedFrom, ReleasedFrom;
    match step
    case RemoveUnmark => UnmarkKeeps(s);
    case RemoveRelease => ReleaseKeeps(s);
  }

  lemma UnmarkKeeps(s: State)
    requires Inv(s) && RemovalAt(s, Recycled)
    ensures Inv(UnmarkedFrom(s))
  {
    hide InTable, Home, Places, Tabled, Placed, Counted, UsedOrQuiet, TableUsed, DoomedFree;
    UnmarkCounted(s);
    RemovalIsHeld(s);
    HeldFacts(s, s.removal.value.c);
    TouchedRest(s, UnmarkedFrom(s), s.removal.value.c);
  }

  lemma ReleaseKeeps(s: State)
    requires Inv(s) && RemovalAt(s, Unmarked)
    ensures Inv(ReleasedFrom(s))
  {
    hide InTable, Home, Places, Tabled, Placed, Counted, UsedOrQuiet, TableUsed, DoomedFree;
    ReleaseCounted(s);
    RemovalIsHeld(s);
    HeldFacts(s, s.removal.value.c);
    TouchedRest(s, ReleasedFrom(s), s.removal.value.c);
  }

  // Packets and users that come to refer to a component, or cease to.
  lemma HolderKeeps(s: State, step: Step)
    requires Inv(s) && Enabled(s, step)
    requires step.DeletePacket? || step.HandOff? || step.Bind? || step.Unbind?
    ensures Inv(Next(s, step))
  {
    hide Inv, Deleted, HandedOff, Bound, Unbound;
    match step
    case DeletePacket(p) => DeleteKeeps(s, p);
    case HandOff(c, p) => HandOffKeeps(s, c, p);
    case Bind(u, c) => BindKeeps(s, u, c);
    case Unbind(u) => UnbindKeeps(s, u);
  }

  lemma UnbindKeeps(s: State, u: nat)
    requires Inv(s) && CanUnbind(s, u)
    ensures Inv(Unbound(s, u))
  {
    hide InTable, Home, Places, Tabled, Placed, Counted, UsedOrQuiet, TableUsed, DoomedFree;
    var c := s.users[u];
    assert c in s.users.Values;
    UnbindCounted(s, u);
    ReachableIsHeld(s, c);
    HeldFacts(s, c);
    TouchedRest(s, Unbound(s, u), c);
  }

  lemma DeleteKeeps(s: State, p: nat)
    requires Inv(s) && CanDelete(s, p)
    ensures Inv(Deleted(s, p))
  {
    hide InTable, Home, Places, Tabled, Placed, Counted, UsedOrQuiet, TableUsed, DoomedFree;
    var c := s.packets[p];
    assert c in s.packets.Values;
    DeleteCounted(s, p);
    ReachableIsHeld(s, c);
    HeldFacts(s, c);
    TouchedRest(s, Deleted(s, p), c);
  }

  lemma HandOffKeeps(s: State, c: Id, p: nat)
    requires Inv(s) && CanHandOff(s, c, p)
    ensures Inv(HandedOff(s, c, p))
  {
    hide InTable, Home, Places, Tabled, Placed, Counted, UsedOrQuiet, TableUsed, DoomedFree;
    HandOffCounted(s, c, p);
    HeldFacts(s, c);
    TouchedRest(s, HandedOff(s, c, p), c);
  }

  lemma BindKeeps(s: State, u: nat, c: Id)
    requires Inv(s) && CanBind(s, u, c)
    ensures Inv(Bound(s, u, c))
  {
    hide InTable, Home, Places, Tabled, Placed, Counted, UsedOrQuiet, TableUsed, DoomedFree;
    BindCounted(s, u, c);
    HeldFacts(s, c);
    TouchedRest(s, Bound(s, u, c), c);
  }

  // ---------- steps that move a component from list to list ----------

  // Same components and same table; the other lists are shuffled.
  ghost predicate OnlyMoves(s: State, t: State) {
    && t.hash == s.hash && t.buckets == s.buckets && t.comps == s.comps && t.destroyed == s.destroyed
    && t.packets == s.packets && t.users == s.users && Places(t) == Places(s)
  }

  lemma MovedRest(s: State, t: State)
    requires Inv(s) && OnlyMoves(s, t)
    requires forall c :: c in s.comps ==> Pending(t, c) == Pending(s, c)
    ensures Tabled(t) && Named(t) && Placed(t) && Counted(t) && Alive(t) && UsedOrQuiet(t) && TableUsed(t)
  {
    hide InTable;
    hide Home;
    hide Places;
    assert Tabled(t) by { MovedTabled(s, t); }
    assert Counted(t) by { assert forall x :: x in t.comps ==> Holds(t, x) == Holds(s, x); }
  }

  lemma MovedTabled(s: State, t: State)
    requires Tabled(s) && t.hash == s.hash && t.buckets == s.buckets && t.comps == s.comps
    ensures Tabled(t)
  {
    hide Home;
    forall i | 0 <= i < |t.buckets|
      ensures BucketOk(t, i)
    {
      assert BucketOk(s, i);
      forall x | x in t.buckets[i].queue
        ensures x in t.comps && Home(t, t.comps[x].putId) == i
      {
        SameHome(s, t, s.comps[x].putId);
      }
    }
  }

  lemma PopPlaces(s: State)
    requires CanPop(s)
    ensures Places(PoppedTimeout(s)) == Places(s)
  {
    hide InTable, Places;
    var t := PoppedTimeout(s);
    forall x
      ensures Places(t)[x] == Places(s)[x]
    {
      PlaceCount(s, x);
      PlaceCount(t, x);
      HeadCount(s.timeouts, x);
    }
    SamePlaces(s, t);
  }

  lemma RecyclePlaces(s: State)
    requires CanRecycle(s)
    ensures Places(RecycledFrom(s)) == Places(s)
  {
    hide InTable;
  }

  lemma CountNotNegative(s: State, c: Id)
    requires Counted(s) && c in s.comps
    ensures s.comps[c].ref >= 0
  {
    assert s.comps[c].ref == Holds(s, c);
  }

  lemma PutAwayPlaces(s: State)
    requires CanPutAway(s)
    ensures Places(PutAway(s)) == Places(s)
  {
    hide InTable, Places;
    var t := PutAway(s);
    forall x
      ensures Places(t)[x] == Places(s)[x]
    {
      PlaceCount(s, x);
      PlaceCount(t, x);
      LastCount(s.del, s.swept.c, x);
      LastCount(s.recycle, s.swept.c, x);
    }
    SamePlaces(s, t);
  }

  lemma TakeDelPlaces(s: State)
    requires CanTakeDel(s)
    ensures Places(DelTaken(s)) == Places(s)
  {
    hide InTable;
  }

  lemma TakeRecycledPlaces(s: State, c: Id)
    requires CanTakeRecycled(s, c)
    ensures Places(RecycledTaken(s, c)) == Places(s)
  {
    hide InTable, Places, Erase;
    var t := RecycledTaken(s, c);
    EraseMultiset(s.recycle, c);
    forall x
      ensures Places(t)[x] == Places(s)[x]
    {
      PlaceCount(s, x);
      PlaceCount(t, x);
      LastCount(s.reaping, c, x);
    }
    SamePlaces(s, t);
  }

  // ---------- steps that change the table ----------

  // A component goes from one list to the next. For moveto_recycle the count is read
  // once: what is free then stays free.
  lemma ListKeeps(s: State, step: Step)
    requires Inv(s) && Enabled(s, step)
    requires step.PopTimeout? || step.RemoveRecycle? || step.MoveToRecycle? || step.TakeDel? || step.TakeRecycled?
    ensures Inv(Next(s, step))
  {
    hide InTable, Home, Places, Tabled, Placed, Counted, Alive, UsedOrQuiet, TableUsed;
    match step
    case PopTimeout =>
      PopPlaces(s);
      MovedRest(s, PoppedTimeout(s));
    case RemoveRecycle =>
      RecyclePlaces(s);
      MovedRest(s, RecycledFrom(s));
    case MoveToRecycle =>
      PutAwayPlaces(s);
      CountNotNegative(s, s.swept.c);
      MovedRest(s, PutAway(s));
    case TakeDel =>
      TakeDelPlaces(s);
      MovedRest(s, DelTaken(s));
    case TakeRecycled(c) =>
      TakeRecycledPlaces(s, c);
      MovedRest(s, RecycledTaken(s, c));
  }

  lemma DetachKeeps(s: State)
    requires Inv(s) && RemovalAt(s, WasClosed)
    ensures Inv(DetachedFrom(s))
  {
    DetachPlaces(s);
    DetachTabled(s);
    DetachRest(s);
  }

  lemma DetachRest(s: State)
    requires Named(s) && Placed(s) && Counted(s) && Alive(s) && UsedOrQuiet(s) && TableUsed(s) && RemovalOk(s)
    requires DoomedFree(s) && |s.buckets| > 0 && RemovalAt(s, WasClosed)
    requires var t := DetachedFrom(s);
             Places(t) == Places(s) && InTable(t.buckets) <= InTable(s.buckets)
             && s.removal.value.c !in InTable(t.buckets)
    ensures var t := DetachedFrom(s);
            Named(t) && Placed(t) && Counted(t) && Alive(t) && UsedOrQuiet(t) && TableUsed(t) && RemovalOk(t) && DoomedFree(t)
  {
    hide InTable;
    hide Home;
    hide Places;
    hide Tabled;
    var t := DetachedFrom(s);
    assert Counted(t) by { assert forall x :: x in t.comps ==> Holds(t, x) == Holds(s, x); }
  }

  lemma DetachTabled(s: State)
    requires Tabled(s) && Placed(s) && RemovalAt(s, WasClosed)
    ensures Tabled(DetachedFrom(s))
  {
    hide InTable;
    hide Home;
    hide Placed;
    var t := DetachedFrom(s);
    var c := s.removal.value.c;
    var i := Home(s, s.comps[c].sockId);
    BucketNoDuplicates(s, i);
    EraseElements(s.buckets[i].queue, c);
    forall j | 0 <= j < |t.buckets|
      ensures BucketOk(t, j)
    {
      assert BucketOk(s, j);
      forall x | x in t.buckets[j].queue
        ensures x in t.comps && Home(t, t.comps[x].putId) == j
      {
        assert x in Elements(t.buckets[j].queue);
        SameHome(s, t, s.comps[x].putId);
      }
    }
  }

  lemma DetachTable(s: State)
    requires Tabled(s) && Named(s) && RemovalOk(s) && RemovalAt(s, WasClosed)
    ensures var c := s.removal.value.c;
            InTable(DetachedFrom(s).buckets)
            == if c in InTable(s.buckets) then InTable(s.buckets) - multiset{c} else InTable(s.buckets)
    ensures DetachedFrom(s).removal.value.stage == Detached(s.removal.value.c in InTable(s.buckets))
  {
    hide InTable;
    hide Home;
    var c := s.removal.value.c;
    var i := Home(s, s.comps[c].sockId);
    TableAtHome(s, c);
    TableUpdate(s.buckets, i, DetachFrom(s.buckets[i], c));
    if c in s.buckets[i].queue { EraseMultiset(s.buckets[i].queue, c); }
  }

  lemma DetachPlaces(s: State)
    requires Tabled(s) && Named(s) && Placed(s) && RemovalOk(s) && RemovalAt(s, WasClosed)
    ensures var t := DetachedFrom(s);
            Places(t) == Places(s) && InTable(t.buckets) <= InTable(s.buckets)
            && s.removal.value.c !in InTable(t.buckets)
  {
    hide InTable, Home, Places, Tabled, RemovalOk, Named, DetachFrom;
    DetachTable(s);
    var t := DetachedFrom(s);
    var c := s.removal.value.c;
    PlaceCount(s, c);
    forall x
      ensures Places(t)[x] == Places(s)[x]
    {
      PlaceCount(s, x);
      PlaceCount(t, x);
    }
    SamePlaces(s, t);
  }

  lemma AddKeeps(s: State, c: Id, n: Component)
    requires Inv(s) && CanAdd(s, c, n)
    ensures Inv(Added(s, c, n))
  {
    AddPlaces(s, c, n);
    AddTabled(s, c, n);
    AddCounted(s, c, n);
    AddPlaced(s, c, n);
    AddRest(s, c, n);
  }

  lemma AddPlaced(s: State, c: Id, n: Component)
    requires Placed(s) && CanAdd(s, c, n)
    requires Places(Added(s, c, n)) == Places(s) + multiset{c} && c !in Places(s)
    ensures Placed(Added(s, c, n))
  {
    hide Places;
    hide Home;
  }

  lemma AddRest(s: State, c: Id, n: Component)
    requires Inv(s) && CanAdd(s, c, n)
    requires var t := Added(s, c, n);
             InTable(t.buckets) == InTable(s.buckets) + multiset{c} && c !in s.del && c !in s.reaping
    ensures var t := Added(s, c, n);
            Named(t) && Alive(t) && UsedOrQuiet(t) && TableUsed(t) && RemovalOk(t) && DoomedFree(t)
  {
    hide InTable;
    hide Home;
    hide Places;
    hide Placed;
    hide Tabled;
    hide Counted;
  }

  lemma AddTable(s: State, c: Id, n: Component)
    requires CanAdd(s, c, n)
    ensures InTable(Added(s, c, n).buckets) == InTable(s.buckets) + multiset{c}
  {
    hide Home;
    hide InTable;
    var i := Home(s, n.sockId);
    TableUpdate(s.buckets, i, Added(s, c, n).buckets[i]);
  }

  lemma AddPlaces(s: State, c: Id, n: Component)
    requires Placed(s) && CanAdd(s, c, n)
    ensures var t := Added(s, c, n);
            Places(t) == Places(s) + multiset{c} && c !in Places(s)
            && InTable(t.buckets) == InTable(s.buckets) + multiset{c}
            && c !in s.del && c !in s.reaping
  {
    hide InTable, Home, Places;
    AddTable(s, c, n);
    var t := Added(s, c, n);
    PlaceCount(s, c);
    assert c !in Places(s);
    forall x
      ensures Places(t)[x] == (Places(s) + multiset{c})[x]
    {
      PlaceCount(s, x);
      PlaceCount(t, x);
    }
  }

  lemma AddTabled(s: State, c: Id, n: Component)
    requires Tabled(s) && CanAdd(s, c, n)
    ensures Tabled(Added(s, c, n))
  {
    var t := Added(s, c, n);
    hide Home;
    forall j | 0 <= j < |t.buckets|
      ensures BucketOk(t, j)
    {
      assert BucketOk(s, j);
      assert t.buckets[j].members == Elements(t.buckets[j].queue);
      forall x | x in t.buckets[j].queue
        ensures x in t.comps && Home(t, t.comps[x].putId) == j
      {
        SameHome(s, t, t.comps[x].putId);
      }
    }
  }

  lemma AddCounted(s: State, c: Id, n: Component)
    requires Counted(s) && Alive(s) && RemovalOk(s) && CanAdd(s, c, n)
    ensures Counted(Added(s, c, n))
  {
    hide InTable;
    hide Home;
    var t := Added(s, c, n);
    CountZero(s.packets, c);
    CountZero(s.users, c);
    forall x | x in t.comps
      ensures t.comps[x].ref == Holds(t, x)
    {
      if x != c { assert s.comps[x].ref == Holds(s, x); }
    }
  }

  lemma DestroyKeeps(s: State)
    requires Inv(s) && CanDestroy(s)
    ensures Inv(DestroyedFirst(s))
  {
    var c := s.reaping[0];
    DestroyPlaces(s);
    DestroyPlaced(s, DestroyedFirst(s), c);
    NothingHolds(s, c);
    DestroyTabled(s);
    DestroyRest(s);
  }

  lemma DestroyPlaces(s: State)
    requires Placed(s) && CanDestroy(s)
    ensures s.reaping[0] in s.comps && s.reaping[0] !in InTable(s.buckets)
    ensures s.swept.Nobody? || s.swept.c != s.reaping[0]
    ensures Places(DestroyedFirst(s)) == Places(s) - multiset{s.reaping[0]}
  {
    hide InTable, Places;
    var c, t := s.reaping[0], DestroyedFirst(s);
    PlaceCount(s, c);
    HeadCount(s.reaping, c);
    assert Places(s)[c] == 1;
    forall x
      ensures Places(t)[x] == (Places(s) - multiset{c})[x]
    {
      PlaceCount(s, x);
      PlaceCount(t, x);
      HeadCount(s.reaping, x);
    }
  }

  lemma DestroyPlaced(s: State, t: State, c: Id)
    requires Placed(s) && c in s.comps && Places(t) == Places(s) - multiset{c}
    requires t.comps == s.comps - {c} && t.destroyed == s.destroyed + {c}
    ensures Placed(t)
  {
    hide Places;
  }

  lemma DestroyTabled(s: State)
    requires Tabled(s) && CanDestroy(s) && s.reaping[0] !in InTable(s.buckets)
    ensures Tabled(DestroyedFirst(s))
  {
    hide InTable;
    hide Home;
    var t := DestroyedFirst(s);
    forall i | 0 <= i < |t.buckets|
      ensures BucketOk(t, i)
    {
      assert BucketOk(s, i);
      forall x | x in t.buckets[i].queue
        ensures x in t.comps && Home(t, t.comps[x].putId) == i
      {
        TableHas(s.buckets, i, x);
        SameHome(s, t, s.comps[x].putId);
      }
    }
  }

  lemma DestroyRest(s: State)
    requires Inv(s) && CanDestroy(s) && s.reaping[0] in s.comps
    requires s.reaping[0] !in s.packets.Values && s.reaping[0] !in s.users.Values
    requires s.removal.Some? ==> s.removal.value.c != s.reaping[0]
    ensures var t := DestroyedFirst(s);
            Named(t) && Counted(t) && Alive(t) && UsedOrQuiet(t) && TableUsed(t) && RemovalOk(t) && DoomedFree(t)
  {
    hide InTable, Home, Places, Tabled, Placed, Counted, UsedOrQuiet, TableUsed, DoomedFree, Named;
    DestroyCounted(s);
    DestroyMarks(s);
  }

  lemma DestroyCounted(s: State)
    requires Counted(s) && CanDestroy(s)
    ensures Counted(DestroyedFirst(s))
  {
    hide Count;
    var t := DestroyedFirst(s);
    assert forall x :: x in t.comps ==> Holds(t, x) == Holds(s, x);
  }

  lemma DestroyMarks(s: State)
    requires Named(s) && UsedOrQuiet(s) && TableUsed(s) && DoomedFree(s) && CanDestroy(s)
    ensures var t := DestroyedFirst(s); Named(t) && UsedOrQuiet(t) && TableUsed(t) && DoomedFree(t)
  {
    hide InTable, Home, Places;
    assert forall x :: x in s.reaping[1..] ==> x in s.reaping;
  }

  // ---------- the sweep ----------

  predicate SameId(m: Component, n: Component) {
    n.sockId == m.sockId && n.putId == m.putId && n.auto == m.auto
  }

  // What one pass does: it splits the queue, keeps every count, mark and key, and
  // leaves closed components without auto-reconnect as they are.
  lemma SweepQueueSplits(comps: map<Id, Component>, queue: seq<Id>, now: uint64, reconnect: map<Id, Conn>)
    requires forall c :: c in queue ==> c in comps
    ensures var (after, kept, swept) := SweepQueue(comps, queue, now, reconnect);
            && multiset(kept) + multiset(swept) == multiset(queue)
            && (forall x :: x in kept ==> x in queue)
            && (forall x :: x in swept ==> x in queue)
            && (forall c :: c in comps ==>
                  && after[c].ref == comps[c].ref && after[c].used == comps[c].used
                  && SameId(comps[c], after[c])
                  && (Quiet(comps[c]) ==> Quiet(after[c]))
                  && (c !in queue ==> after[c] == comps[c]))
  {
    hide SweepQueue;
    SweepQueueLists(comps, queue, now, reconnect);
    forall c | c in comps
      ensures var after := SweepQueue(comps, queue, now, reconnect).0;
              && after[c].ref == comps[c].ref && after[c].used == comps[c].used
              && SameId(comps[c], after[c])
              && (Quiet(comps[c]) ==> Quiet(after[c]))
              && (c !in queue ==> after[c] == comps[c])
    {
      SweepQueueMarks(comps, queue, now, reconnect, c);
    }
  }

  lemma {:induction false} SweepQueueLists(comps: map<Id, Component>, queue: seq<Id>, now: uint64, reconnect: map<Id, Conn>)
    requires forall c :: c in queue ==> c in comps
    ensures var (_, kept, swept) := SweepQueue(comps, queue, now, reconnect);
            && multiset(kept) + multiset(swept) == multiset(queue)
            && (forall x :: x in kept ==> x in queue)
            && (forall x :: x in swept ==> x in queue)
    decreases |queue|
  {
    hide CheckTimeout, SweepQueue;
    SweepUnfolds(comps, queue, now, reconnect);
    if queue != [] {
      var c, rest := queue[0], queue[1..];
      var (_, next) := CheckTimeout(comps[c], now, if c in reconnect then reconnect[c] else Closed);
      SweepQueueLists(comps[c := next], rest, now, reconnect);
      assert queue == [c] + rest;
    }
  }

  lemma {:induction false} SweepQueueMarks(comps: map<Id, Component>, queue: seq<Id>, now: uint64, reconnect: map<Id, Conn>, c: Id)
    requires (forall x :: x in queue ==> x in comps) && c in comps
    ensures var after := SweepQueue(comps, queue, now, reconnect).0;
            && c in after && after[c].ref == comps[c].ref && after[c].used == comps[c].used
            && SameId(comps[c], after[c])
            && (Quiet(comps[c]) ==> Quiet(after[c]))
            && (c !in queue ==> after[c] == comps[c])
    decreases |queue|
  {
    hide CheckTimeout, SweepQueue;
    SweepUnfolds(comps, queue, now, reconnect);
    if queue != [] {
      var x := queue[0];
      var (_, next) := CheckTimeout(comps[x], now, if x in reconnect then reconnect[x] else Closed);
      SweepQueueMarks(comps[x := next], queue[1..], now, reconnect, c);
    }
  }

  lemma SweepUnfolds(comps: map<Id, Component>, queue: seq<Id>, now: uint64, reconnect: map<Id, Conn>)
    requires forall c :: c in queue ==> c in comps
    ensures queue == [] ==> SweepQueue(comps, queue, now, reconnect) == (comps, [], [])
    ensures queue != [] ==>
              var c := queue[0];
              var (timeout, next) := CheckTimeout(comps[c], now, if c in reconnect then reconnect[c] else Closed);
              var (after, kept, swept) := SweepQueue(comps[c := next], queue[1..], now, reconnect);
              SweepQueue(comps, queue, now, reconnect)
              == if timeout then (after, kept, [c] + swept) else (after, [c] + kept, swept)
  {
    hide CheckTimeout;
  }

  lemma FirstOnce(queue: seq<Id>)
    requires queue != [] && NoDuplicates(queue)
    ensures queue[0] !in queue[1..] && NoDuplicates(queue[1..]) && queue == [queue[0]] + queue[1..]
  {
    var rest := queue[1..];
    assert forall i :: 0 <= i < |rest| ==> rest[i] == queue[i + 1];
  }

  // In a list without duplicates the two halves of a split are disjoint.
  lemma SplitElements(q: seq<Id>, kept: seq<Id>, swept: seq<Id>)
    requires forall x :: x in q ==> multiset(q)[x] == 1
    requires multiset(kept) + multiset(swept) == multiset(q)
    ensures Elements(kept) == Elements(q) - Elements(swept)
  {
    forall x
      ensures x in kept <==> x in q && x !in swept
    {
      assert multiset(q)[x] == multiset(kept)[x] + multiset(swept)[x];
      assert x in kept <==> x in multiset(kept);
      assert x in swept <==> x in multiset(swept);
      assert x in q <==> x in multiset(q);
    }
  }

  lemma BucketOnce(s: State, i: nat)
    requires Tabled(s) && Placed(s) && i < |s.buckets|
    ensures forall x :: x in s.buckets[i].queue ==> multiset(s.buckets[i].queue)[x] == 1
  {
    hide InTable;
    hide Home;
    var q := s.buckets[i].queue;
    TableUpdate(s.buckets, i, s.buckets[i]);
    assert BucketOk(s, i);
    forall x | x in q
      ensures multiset(q)[x] == 1
    {
      assert x in multiset(q) && multiset(q) <= InTable(s.buckets) <= Places(s);
    }
  }

  lemma SweepPlaces(s: State, i: nat, now: uint64, reconnect: map<Id, Conn>)
    requires CanSweep(s, i) && NoDuplicates(s.buckets[i].queue)
    ensures var t := SweptBucket(s, i, now, reconnect);
            Places(t) == Places(s) && InTable(t.buckets) <= InTable(s.buckets)
  {
    hide InTable;
    hide SweepQueue;
    hide NoDuplicates;
    var t := SweptBucket(s, i, now, reconnect);
    SweepQueueSplits(s.comps, s.buckets[i].queue, now, reconnect);
    TableUpdate(s.buckets, i, t.buckets[i]);
    var swept := SweepQueue(s.comps, s.buckets[i].queue, now, reconnect).2;
    assert multiset(s.timeouts + swept) == multiset(s.timeouts) + multiset(swept);
  }

  lemma SweepTabled(s: State, i: nat, now: uint64, reconnect: map<Id, Conn>)
    requires Tabled(s) && Placed(s) && CanSweep(s, i) && NoDuplicates(s.buckets[i].queue)
    ensures Tabled(SweptBucket(s, i, now, reconnect))
  {
    hide InTable;
    hide Home;
    hide Placed;
    hide SweepQueue;
    hide NoDuplicates;
    hide Elements;
    var t := SweptBucket(s, i, now, reconnect);
    var q := s.buckets[i].queue;
    SweepQueueSplits(s.comps, q, now, reconnect);
    BucketOnce(s, i);
    SplitElements(q, t.buckets[i].queue, SweepQueue(s.comps, q, now, reconnect).2);
    forall j | 0 <= j < |t.buckets|
      ensures BucketOk(t, j)
    {
      assert BucketOk(s, j) && BucketOk(s, i);
      forall x | x in t.buckets[j].queue
        ensures x in t.comps && Home(t, t.comps[x].putId) == j
      {
        assert x in s.buckets[j].queue && x in s.comps;
        SameHome(s, t, s.comps[x].putId);
      }
    }
  }

  // The sweep keeps every count, mark and closed state.
  ghost predicate KeepsMarks(s: State, t: State) {
    && t.comps.Keys == s.comps.Keys
    && forall c :: c in s.comps ==>
         && t.comps[c].ref == s.comps[c].ref && t.comps[c].used == s.comps[c].used
         && SameId(s.comps[c], t.comps[c]) && (Quiet(s.comps[c]) ==> Quiet(t.comps[c]))
  }

  lemma SweepMarks(s: State, i: nat, now: uint64, reconnect: map<Id, Conn>)
    requires CanSweep(s, i) && NoDuplicates(s.buckets[i].queue)
    ensures KeepsMarks(s, SweptBucket(s, i, now, reconnect))
  {
    hide SweepQueue;
    hide NoDuplicates;
    SweepQueueSplits(s.comps, s.buckets[i].queue, now, reconnect);
  }

  lemma SweepRest(s: State, i: nat, now: uint64, reconnect: map<Id, Conn>)
    requires Inv(s) && CanSweep(s, i)
    requires var t := SweptBucket(s, i, now, reconnect);
             KeepsMarks(s, t) && Places(t) == Places(s) && InTable(t.buckets) <= InTable(s.buckets)
    ensures var t := SweptBucket(s, i, now, reconnect);
            Named(t) && Placed(t) && Alive(t) && UsedOrQuiet(t) && TableUsed(t) && RemovalOk(t) && DoomedFree(t)
  {
    hide InTable;
    hide Home;
    hide Places;
    hide Tabled;
    hide Counted;
    hide SweepQueue;
    hide Quiet;
  }

  lemma SweepCounted(s: State, i: nat, now: uint64, reconnect: map<Id, Conn>)
    requires Counted(s) && CanSweep(s, i) && KeepsMarks(s, SweptBucket(s, i, now, reconnect))
    ensures Counted(SweptBucket(s, i, now, reconnect))
  {
    hide SweepQueue;
    hide Quiet;
    var t := SweptBucket(s, i, now, reconnect);
    assert forall x :: x in t.comps ==> Holds(t, x) == Holds(s, x);
  }

  lemma SweepKeeps(s: State, i: nat, now: uint64, reconnect: map<Id, Conn>)
    requires Inv(s) && CanSweep(s, i)
    ensures Inv(SweptBucket(s, i, now, reconnect))
  {
    hide SweptBucket;
    hide Places;
    hide InTable;
    hide NoDuplicates;
    BucketNoDuplicates(s, i);
    SweepPlaces(s, i, now, reconnect);
    SweepTabled(s, i, now, reconnect);
    SweepMarks(s, i, now, reconnect);
    SweepCounted(s, i, now, reconnect);
    SweepRest(s, i, now, reconnect);
  }

  // ---------- every step, every run ----------

  lemma StepKeeps(s: State, step: Step)
    requires Inv(s) && Enabled(s, step)
    ensures Inv(Next(s, step))
  {
    hide Inv;
    hide CanAdd, CanRead, CanWrite, CanPost, CanSweep, CanPop, CanClose, RemovalAt, CanRecycle, CanPutAway;
    hide CanDelete, CanHandOff, CanBind, CanUnbind, CanTakeDel, CanTakeRecycled, CanDestroy;
    hide Added, ReadFrom, WrittenTo, Posted, SweptBucket, PoppedTimeout, ClosedBy, DetachedFrom, RecycledFrom;
    hide UnmarkedFrom, ReleasedFrom, PutAway, Deleted, HandedOff, Bound, Unbound, DelTaken, RecycledTaken, DestroyedFirst;
    match step
    case AddComponent(c, n) => AddKeeps(s, c, n);
    case ReadEvent(c, arrived, now) => EventKeeps(s, step);
    case HandOff(c, p) => HolderKeeps(s, step);
    case WriteEvent(c, success, now) => EventKeeps(s, step);
    case PostReconnect(c, outcome, id, now) => EventKeeps(s, step);
    case SweepBucket(i, now, reconnect) => SweepKeeps(s, i, now, reconnect);
    case PopTimeout => ListKeeps(s, step);
    case RemoveClose(c, caller, notice) => CloseKeeps(s, c, caller, notice);
    case RemoveDetach => DetachKeeps(s);
    case RemoveRecycle => ListKeeps(s, step);
    case RemoveUnmark => UnmarkReleaseKeeps(s, step);
    case RemoveRelease => UnmarkReleaseKeeps(s, step);
    case MoveToRecycle => ListKeeps(s, step);
    case DeletePacket(p) => HolderKeeps(s, step);
    case Bind(u, c) => HolderKeeps(s, step);
    case Unbind(u) => HolderKeeps(s, step);
    case TakeDel => ListKeeps(s, step);
    case TakeRecycled(c) => ListKeeps(s, step);
    case Destroy => DestroyKeeps(s);
  }

  lemma {:induction false} EmptyTable(bs: seq<Bucket>)
    requires forall i :: 0 <= i < |bs| ==> bs[i] == Bucket([], {})
    ensures InTable(bs) == multiset{}
  {
    if bs != [] { EmptyTable(bs[1..]); }
  }

  lemma InitialHolds(s: State)
    requires Initial(s)
    ensures Inv(s)
  {
    EmptyTable(s.buckets);
    forall i | 0 <= i < |s.buckets|
      ensures BucketOk(s, i)
    {
      assert s.buckets[i] == Bucket([], {});
    }
    assert Places(s) == multiset{};
  }

  lemma {:induction false} RunKeeps(s: State, steps: seq<Step>)
    requires Inv(s) && IsRun(s, steps)
    ensures Inv(After(s, steps))
    decreases |steps|
  {
    hide Inv;
    hide Enabled;
    hide Next;
    if steps != [] {
      StepKeeps(s, steps[0]);
      RunKeeps(Next(s, steps[0]), steps[1..]);
    }
  }

  // In every run, whoever refers to a component refers to one that exists, and a
  // component's count is exactly who refers to it.
  lemma NobodyDangles(s: State, steps: seq<Step>)
    requires Initial(s) && IsRun(s, steps)
    ensures var t := After(s, steps);
            && (forall p :: p in t.packets ==> t.packets[p] in t.comps && t.packets[p] !in t.destroyed)
            && (forall u :: u in t.users ==> t.users[u] in t.comps && t.users[u] !in t.destroyed)
            && (t.removal.Some? ==> t.removal.value.c in t.comps && t.removal.value.c !in t.destroyed)
            && (forall c :: c in t.comps ==>
                  t.comps[c].ref == (if t.comps[c].used then 1 else 0) + Count(t.packets, c) + Count(t.users, c)
                                    + Pending(t, c))
  {
    hide InTable;
    hide Home;
    hide Places;
    hide IsRun;
    InitialHolds(s);
    RunKeeps(s, steps);
    var t := After(s, steps);
    assert forall c :: c in t.comps ==> t.comps[c].ref == Holds(t, c);
  }

  // In every run each existing component is in exactly one place, a destroyed one
  // is nowhere, and a bucket's set is exactly its queue, which holds no component
  // twice and only components whose id hashed to it when they were put there. That is
  // their current id unless they reconnect by themselves.
  lemma ExactlyOnePlace(s: State, steps: seq<Step>)
    requires Initial(s) && IsRun(s, steps)
    ensures var t := After(s, steps);
            && (forall c :: c in t.comps ==> Places(t)[c] == 1)
            && (forall c :: c !in t.comps ==> c !in Places(t))
            && t.destroyed !! t.comps.Keys
            && |t.buckets| > 0
            && (forall i :: 0 <= i < |t.buckets| ==>
                  && t.buckets[i].members == Elements(t.buckets[i].queue)
                  && NoDuplicates(t.buckets[i].queue))
            && (forall i, c :: 0 <= i < |t.buckets| && c in t.buckets[i].queue ==>
                  c in t.comps && Home(t, t.comps[c].putId) == i
                  && (!t.comps[c].auto ==> Home(t, t.comps[c].sockId) == i))
  {
    hide InTable;
    hide Home;
    hide Places;
    hide IsRun;
    hide NoDuplicates;
    InitialHolds(s);
    RunKeeps(s, steps);
    var t := After(s, steps);
    forall i | 0 <= i < |t.buckets|
      ensures BucketOk(t, i) && NoDuplicates(t.buckets[i].queue)
    {
      BucketNoDuplicates(t, i);
    }
    assert forall i, c :: 0 <= i < |t.buckets| && c in t.buckets[i].queue ==> BucketOk(t, i);
  }

  // What is about to be deleted is referred to by nobody, although the counts in
  // _del were read long before.
  lemma DestroyIsSafe(s: State, steps: seq<Step>)
    requires Initial(s) && IsRun(s, steps) && Enabled(After(s, steps), Destroy)
    ensures var t := After(s, steps);
            var c := t.reaping[0];
            && c in t.comps && t.comps[c].ref == 0 && !t.comps[c].used && t.comps[c].conn == Closed
            && c !in t.packets.Values && c !in t.users.Values
            && (t.removal.Some? ==> t.removal.value.c != c)
            && (t.swept != Nobody ==> t.swept.c != c)
  {
    hide InTable;
    hide Home;
    hide IsRun;
    hide Places;
    hide Tabled;
    hide Counted;
    hide Placed;
    hide Alive;
    hide TableUsed;
    InitialHolds(s);
    RunKeeps(s, steps);
    var t := After(s, steps);
    DestroyPlaces(t);
    assert t.reaping[0] in t.reaping;
    NothingHolds(t, t.reaping[0]);
  }

  // ---------- what later steps cannot undo ----------

  ghost predicate Known(s: State, c: Id) {
    c in s.comps || c in s.destroyed
  }

  ghost predicate OutOfTable(s: State, c: Id) {
    Known(s, c) && c !in InTable(s.buckets)
  }

  // Which components there are: only adding and destroying change that.
  lemma StepKnows(s: State, step: Step)
    requires Enabled(s, step)
    ensures var t := Next(s, step);
            match step
            case AddComponent(c, _) => t.comps.Keys == s.comps.Keys + {c} && t.destroyed == s.destroyed
            case Destroy =>
              s.reaping != [] && t.comps.Keys == s.comps.Keys - {s.reaping[0]} && t.destroyed == s.destroyed + {s.reaping[0]}
            case _ => t.comps.Keys == s.comps.Keys && t.destroyed == s.destroyed
  {
    hide InTable, Home, SweepQueue;
  }

  lemma StepSparesTable(s: State, step: Step)
    requires Enabled(s, step) && !step.AddComponent? && !step.SweepBucket? && !step.RemoveDetach?
    ensures Next(s, step).buckets == s.buckets
  {
    hide InTable, Home, SweepQueue;
  }

  // What is in the table: adding brings one in, a sweep takes some out, a detach one.
  lemma StepTable(s: State, step: Step)
    requires Inv(s) && Enabled(s, step)
    ensures var t := Next(s, step);
            match step
            case AddComponent(c, _) => InTable(t.buckets) == InTable(s.buckets) + multiset{c}
            case SweepBucket(_, _, _) => InTable(t.buckets) <= InTable(s.buckets)
            case RemoveDetach =>
              s.removal.Some? && t.removal.Some?
              && InTable(t.buckets) == InTable(s.buckets) - multiset{s.removal.value.c}
              && t.removal.value.stage == Detached(s.removal.value.c in InTable(s.buckets))
            case _ => InTable(t.buckets) == InTable(s.buckets)
  {
    hide InTable, Home, Places, SweepQueue, Enabled, Next;
    match step
    case AddComponent(c, n) => AddStep(s, c, n);
    case SweepBucket(i, now, reconnect) => SweepStep(s, i, now, reconnect);
    case RemoveDetach => DetachStep(s);
    case _ => StepSparesTable(s, step);
  }

  lemma AddStep(s: State, c: Id, n: Component)
    requires Enabled(s, AddComponent(c, n))
    ensures InTable(Next(s, AddComponent(c, n)).buckets) == InTable(s.buckets) + multiset{c}
  {
    hide InTable, Home;
    AddTable(s, c, n);
  }

  lemma SweepStep(s: State, i: nat, now: uint64, reconnect: map<Id, Conn>)
    requires Inv(s) && Enabled(s, SweepBucket(i, now, reconnect))
    ensures InTable(Next(s, SweepBucket(i, now, reconnect)).buckets) <= InTable(s.buckets)
  {
    hide InTable, Home, Inv, SweptBucket;
    SweepShrinks(s, i, now, reconnect);
  }

  lemma DetachStep(s: State)
    requires Inv(s) && Enabled(s, RemoveDetach)
    ensures var t := Next(s, RemoveDetach);
            s.removal.Some? && t.removal.Some?
            && InTable(t.buckets) == InTable(s.buckets) - multiset{s.removal.value.c}
            && t.removal.value.stage == Detached(s.removal.value.c in InTable(s.buckets))
  {
    hide InTable, Home, Places;
    DetachTable(s);
    var c := s.removal.value.c;
    if c in InTable(s.buckets) { TableOnce(s, c); }
  }

  lemma TableOnce(s: State, c: Id)
    requires Placed(s)
    ensures InTable(s.buckets)[c] <= 1
    ensures InTable(s.buckets)[c] == 1 ==> c in s.comps
  {
    hide InTable;
    assert InTable(s.buckets) <= Places(s);
    if InTable(s.buckets)[c] > 0 { assert c in Places(s); }
  }

  lemma StepStaysOut(s: State, step: Step, c: Id)
    requires Inv(s) && Enabled(s, step) && OutOfTable(s, c)
    ensures OutOfTable(Next(s, step), c)
  {
    hide InTable, Inv, Enabled, Next;
    StepKnows(s, step);
    StepTable(s, step);
    if step.AddComponent? { AddIsNew(s, step.c, step.n); }
  }

  lemma AddIsNew(s: State, c: Id, n: Component)
    requires Enabled(s, AddComponent(c, n))
    ensures !Known(s, c)
  {
  }

  lemma SweepShrinks(s: State, i: nat, now: uint64, reconnect: map<Id, Conn>)
    requires Inv(s) && CanSweep(s, i)
    ensures var t := SweptBucket(s, i, now, reconnect);
            InTable(t.buckets) <= InTable(s.buckets) && t.comps.Keys == s.comps.Keys && t.destroyed == s.destroyed
  {
    hide InTable;
    hide Home;
    hide Places;
    hide SweepQueue;
    BucketNoDuplicates(s, i);
    SweepPlaces(s, i, now, reconnect);
  }

  // Once out of the table, a component never comes back.
  lemma {:induction false} LeavesTableOnce(s: State, steps: seq<Step>, c: Id)
    requires Inv(s) && IsRun(s, steps) && OutOfTable(s, c)
    ensures OutOfTable(After(s, steps), c)
    decreases |steps|
  {
    hide Inv;
    hide Enabled;
    hide Next;
    hide OutOfTable;
    if steps != [] {
      StepStaysOut(s, steps[0], c);
      StepKeeps(s, steps[0]);
      LeavesTableOnce(Next(s, steps[0]), steps[1..], c);
    }
  }

  // The step takes c out of the table.
  ghost predicate Takes(s: State, step: Step, c: Id)
    requires Enabled(s, step)
  {
    c in InTable(s.buckets) && c !in InTable(Next(s, step).buckets)
  }

  ghost function Takings(s: State, steps: seq<Step>, c: Id): nat
    requires IsRun(s, steps)
    decreases |steps|
  {
    if steps == [] then 0
    else (if Takes(s, steps[0], c) then 1 else 0) + Takings(Next(s, steps[0]), steps[1..], c)
  }

  lemma TakenIsOut(s: State, step: Step, c: Id)
    requires Inv(s) && Enabled(s, step) && Takes(s, step, c)
    ensures OutOfTable(Next(s, step), c)
    ensures step.SweepBucket? || (step.RemoveDetach? && s.removal.Some? && s.removal.value.c == c)
    ensures step.RemoveDetach? ==> var r := Next(s, step).removal; r.Some? && r.value.stage == Detached(true)
  {
    hide InTable, Inv, Enabled, Next, Takes;
    TakesSaid(s, step, c);
    StepKnows(s, step);
    StepTable(s, step);
    InvTabledKnown(s, c);
  }

  lemma TakesSaid(s: State, step: Step, c: Id)
    requires Enabled(s, step)
    ensures Takes(s, step, c) <==> c in InTable(s.buckets) && c !in InTable(Next(s, step).buckets)
  {
    hide Enabled, Next, InTable;
  }

  lemma InvTabledKnown(s: State, c: Id)
    requires Inv(s) && c in InTable(s.buckets)
    ensures c in s.comps
  {
    hide InTable, Tabled;
    TabledKnown(s, c);
  }

  lemma TabledKnown(s: State, c: Id)
    requires Tabled(s) && c in InTable(s.buckets)
    ensures c in s.comps
  {
    hide Home;
    var i := TableMember(s.buckets, c);
    assert BucketOk(s, i);
  }

  lemma {:induction false} OutIsNotTaken(s: State, steps: seq<Step>, c: Id)
    requires Inv(s) && IsRun(s, steps) && OutOfTable(s, c)
    ensures Takings(s, steps, c) == 0
    decreases |steps|
  {
    hide Inv, Enabled, Next;
    if steps != [] {
      StepStaysOut(s, steps[0], c);
      StepKeeps(s, steps[0]);
      OutIsNotTaken(Next(s, steps[0]), steps[1..], c);
    }
  }

  // Who comes to be out of the table without having been out before was in it, and is
  // taken by just this step.
  lemma NotTakenNotOut(s: State, step: Step, c: Id)
    requires Inv(s) && Enabled(s, step) && !OutOfTable(s, c) && !Takes(s, step, c)
    ensures !OutOfTable(Next(s, step), c)
  {
    hide InTable, Inv, Enabled, Next, Takes;
    TakesSaid(s, step, c);
    StepKnows(s, step);
    StepTable(s, step);
    if step.Destroy? { DestroysKnown(s); }
  }

  lemma DestroysKnown(s: State)
    requires Inv(s) && Enabled(s, Destroy)
    ensures s.reaping[0] in s.comps
  {
    hide InTable, Home, Places;
    DestroyPlaces(s);
  }

  lemma StepStaysKnown(s: State, step: Step, c: Id)
    requires Enabled(s, step) && Known(s, c)
    ensures Known(Next(s, step), c)
  {
    hide Enabled, Next;
    StepKnows(s, step);
  }

  // Of all sweeps and removals in a run, however they race, at most one takes a
  // component out of the table: one if it is out in the end and was not before.
  lemma {:induction false} TakenAtMostOnce(s: State, steps: seq<Step>, c: Id)
    requires Inv(s) && IsRun(s, steps)
    ensures Takings(s, steps, c) == if OutOfTable(After(s, steps), c) && !OutOfTable(s, c) then 1 else 0
    decreases |steps|
  {
    hide Inv, Enabled, Next, OutOfTable, Takes;
    if steps != [] {
      StepKeeps(s, steps[0]);
      if OutOfTable(s, c) {
        OutIsNotTaken(s, steps, c);
      } else if Takes(s, steps[0], c) {
        TakenIsOut(s, steps[0], c);
        OutIsNotTaken(Next(s, steps[0]), steps[1..], c);
        LeavesTableOnce(Next(s, steps[0]), steps[1..], c);
      } else {
        NotTakenNotOut(s, steps[0], c);
        TakenAtMostOnce(Next(s, steps[0]), steps[1..], c);
      }
    }
  }

  lemma {:induction false} RunStaysKnown(s: State, steps: seq<Step>, c: Id)
    requires IsRun(s, steps) && Known(s, c)
    ensures Known(After(s, steps), c)
    decreases |steps|
  {
    hide Enabled, Next, Known;
    if steps != [] {
      StepStaysKnown(s, steps[0], c);
      RunStaysKnown(Next(s, steps[0]), steps[1..], c);
    }
  }

  // So whoever starts in the table is taken out exactly once, or still there.
  lemma TakenExactlyOnce(s: State, steps: seq<Step>, c: Id)
    requires Inv(s) && IsRun(s, steps) && c in InTable(s.buckets)
    ensures Takings(s, steps, c) == if c in InTable(After(s, steps).buckets) then 0 else 1
  {
    hide InTable, Home, Places, IsRun, After, Takings;
    TabledKnown(s, c);
    RunStaysKnown(s, steps, c);
    TakenAtMostOnce(s, steps, c);
  }

  // Waiting to be deleted, or gone.
  ghost predicate Doomed(s: State, c: Id) {
    c in s.destroyed || (c in s.comps && (c in s.del || c in s.reaping) && s.comps[c].ref == 0)
  }

  lemma StepStaysDoomed(s: State, step: Step, c: Id)
    requires Inv(s) && Enabled(s, step) && Doomed(s, c)
    ensures Doomed(Next(s, step), c)
  {
    hide Inv, Enabled, Next;
    if c in s.destroyed {
      StepKnows(s, step);
    } else {
      StepKeeps(s, step);
      StepKeepsDoomedListed(s, step, c);
      var t := Next(s, step);
      if c in t.comps && Waits(t, c) { WaitsFree(t, c); }
    }
  }

  lemma StepKeepsDoomedListed(s: State, step: Step, c: Id)
    requires Enabled(s, step) && c in s.comps && (c in s.del || c in s.reaping)
    ensures var t := Next(s, step); c in t.destroyed || (c in t.comps && (c in t.del || c in t.reaping))
  {
    hide InTable;
    hide Home;
    hide SweepQueue;
    if step == Destroy { assert s.reaping == [s.reaping[0]] + s.reaping[1..]; }
  }

  // A component whose count was seen at zero keeps it there until it is deleted, in
  // every continuation of the run.
  lemma {:induction false} DoomedStaysDoomed(s: State, steps: seq<Step>, c: Id)
    requires Inv(s) && IsRun(s, steps) && Doomed(s, c)
    ensures Doomed(After(s, steps), c)
    decreases |steps|
  {
    hide Inv;
    hide Enabled;
    hide Next;
    hide Doomed;
    if steps != [] {
      StepStaysDoomed(s, steps[0], c);
      StepKeeps(s, steps[0]);
      DoomedStaysDoomed(Next(s, steps[0]), steps[1..], c);
    }
  }

  // ---------- a reconnected component under its new id ----------

  // Looking in the bucket of its current id finds a component of the table exactly
  // when that is the bucket of the id it was put under.
  lemma FoundUnderNewIdIff(s: State, c: Id)
    requires Inv(s) && c in InTable(s.buckets)
    ensures c in s.comps && |s.buckets| > 0
    ensures c in s.buckets[Home(s, s.comps[c].sockId)].queue
            <==> Home(s, s.comps[c].sockId) == Home(s, s.comps[c].putId)
    ensures !s.comps[c].auto ==> c in s.buckets[Home(s, s.comps[c].sockId)].queue
  {
    hide InTable, Home, Places, Placed, Counted, UsedOrQuiet, TableUsed, RemovalOk, DoomedFree;
    TabledKnown(s, c);
    TableAtHome(s, c);
    var h := Home(s, s.comps[c].sockId);
    assert BucketOk(s, h);
  }

  function Client(id: uint64, putId: uint64, conn: Conn, ref: int, used: bool): Component {
    Component(id, putId, TcpConn, true, conn, ref, used, 0, 0)
  }

  // Whatever the hash: two ids of different buckets are enough. A client connects,
  // fails, and is posted to.
  lemma MissedAfterReconnect(s: State, c: Id, a: uint64, b: uint64) returns (steps: seq<Step>)
    requires Initial(s) && a != 0 && |s.buckets| > 0 && Home(s, a) != Home(s, b)
    ensures IsRun(s, steps) && var t := After(s, steps);
            && |t.buckets| == |s.buckets| && t.hash == s.hash
            && c in InTable(t.buckets) && c in t.comps && t.comps[c].sockId == b
            && c !in t.buckets[Home(t, b)].queue
  {
    hide InTable, SockHash, BucketIndex;
    var add, write, post := AddComponent(c, Client(a, 0, Connecting, 0, false)), WriteEvent(c, false, 0), PostReconnect(c, Connecting, Some(b), 0);
    assert s.buckets[Home(s, a)] == Bucket([], {}) && s.buckets[Home(s, b)] == Bucket([], {});
    var s1 := Next(s, add);
    TableHas(s1.buckets, Home(s, a), c);
    var s2 := Next(s1, write);
    var s3 := Next(s2, post);
    assert s3.buckets == s1.buckets && IsRun(s3, []);
    RunCons(s2, post, []);
    RunCons(s1, write, [post] + []);
    RunCons(s, add, [write] + ([post] + []));
    steps := [add] + ([write] + ([post] + []));
  }

  // ---------- when a late reference is safe ----------

  // A read callback may still hand out packets, and a thread may still bind a user,
  // when other threads have closed the component and put it away. That keeps the
  // invariant exactly while the component is not listed for deletion.
  lemma HandOffIff(s: State, c: Id, p: nat)
    requires Inv(s) && c in s.comps && p !in s.packets
    ensures Inv(HandedOff(s, c, p)) <==> !Waits(s, c)
  {
    hide Inv;
    if Waits(s, c) {
      WaitsFree(s, c);
      if Inv(HandedOff(s, c, p)) { WaitsFree(HandedOff(s, c, p), c); }
    } else {
      HandOffKeeps(s, c, p);
    }
  }

  lemma BindIff(s: State, u: nat, c: Id)
    requires Inv(s) && c in s.comps && u !in s.users
    ensures Inv(Bound(s, u, c)) <==> !Waits(s, c)
  {
    hide Inv;
    if Waits(s, c) {
      WaitsFree(s, c);
      if Inv(Bound(s, u, c)) { WaitsFree(Bound(s, u, c), c); }
    } else {
      BindKeeps(s, u, c);
    }
  }

  lemma WaitsFree(s: State, c: Id)
    requires Inv(s) && c in s.comps && Waits(s, c)
    ensures s.comps[c].ref == 0
  {
    hide InTable, Home, Places;
  }

  // A thread that reaches a component through a packet, a user or a live connection
  // may bind it, and so may the client that has just added it.
  lemma ReachableCanBind(s: State, c: Id)
    requires Inv(s) && Reachable(s, c)
    ensures c in s.comps && !Waits(s, c)
  {
    hide InTable, Home, Places;
    ReachableIsHeld(s, c);
    HeldFacts(s, c);
  }

  lemma AddedCanBind(s: State, c: Id, n: Component)
    requires Inv(s) && CanAdd(s, c, n)
    ensures c in Added(s, c, n).comps && !Waits(Added(s, c, n), c)
  {
    AddPlaces(s, c, n);
  }

  // The deletion does not look at the count again: some continuation deletes what is
  // listed, whatever refers to it by now. Holding an unfinished removal by the io
  // thread, it finishes that first.
  ghost predicate Deletes(s: State, steps: seq<Step>, c: Id) {
    IsRun(s, steps) && var t := After(s, steps); c in t.destroyed && t.packets == s.packets && t.users == s.users
  }

  ghost predicate CanDoom(s: State, c: Id) {
    |s.buckets| > 0 && Waits(s, c) && (IoBusy(s) ==> s.removal.value.c in s.comps)
  }

  // A removal under way goes on.
  function NextStage(r: Removal): Step {
    match r.stage
    case WasClosed => RemoveDetach
    case Detached(_) => RemoveRecycle
    case Recycled => RemoveUnmark
    case Unmarked => RemoveRelease
  }

  function StageRank(s: State): nat {
    match s.removal
    case None => 0
    case Some(r) =>
      match r.stage
      case WasClosed => 4
      case Detached(_) => 3
      case Recycled => 2
      case Unmarked => 1
  }

  lemma StageMoves(s: State)
    requires s.removal.Some? && s.removal.value.c in s.comps && |s.buckets| > 0
    ensures var step, r := NextStage(s.removal.value), s.removal.value;
            && Enabled(s, step)
            && var t := Next(s, step);
               && t.packets == s.packets && t.users == s.users && t.timeouts == s.timeouts && t.del == s.del
               && t.reaping == s.reaping && t.destroyed == s.destroyed && t.comps.Keys == s.comps.Keys
               && |t.buckets| == |s.buckets| && StageRank(t) < StageRank(s)
               && (if t.removal.Some? then t.removal.value.(stage := r.stage) == r && t.removal.value.stage != WasClosed
                                           && t.swept == s.swept
                   else t.swept == if r.caller == TimeoutThread && s.swept.Popped? then Removed(s.swept.c) else s.swept)
  {
    hide Home, DetachFrom;
  }

  function StagesLeft(s: State): nat {
    if IoBusy(s) then StageRank(s) else 0
  }

  function NextDooming(s: State): Step {
    if IoBusy(s) then NextStage(s.removal.value) else if s.reaping != [] then Destroy else TakeDel
  }

  lemma DoomStep(s: State, c: Id)
    requires CanDoom(s, c)
    ensures var step := NextDooming(s);
            && Enabled(s, step)
            && var t := Next(s, step);
               && t.packets == s.packets && t.users == s.users
               && (c in t.destroyed || CanDoom(t, c))
               && StagesLeft(t) <= StagesLeft(s) && |t.del| <= |s.del|
               && (StagesLeft(t) < StagesLeft(s) || |t.del| < |s.del| || (t.del == s.del && |t.reaping| < |s.reaping|))
  {
    if IoBusy(s) {
      hide Enabled, Next, StageRank, NextStage;
      StageMoves(s);
    } else if s.reaping != [] {
      assert s.reaping == [s.reaping[0]] + s.reaping[1..];
    }
  }

  lemma {:induction false} DoomRun(s: State, c: Id) returns (steps: seq<Step>)
    requires CanDoom(s, c)
    ensures Deletes(s, steps, c)
    decreases StagesLeft(s), |s.del|, |s.reaping|
  {
    hide CanDoom, Enabled, Next, StagesLeft, NextDooming;
    DoomStep(s, c);
    var t := Next(s, NextDooming(s));
    var rest := [];
    if c !in t.destroyed { rest := DoomRun(t, c); }
    else { assert Deletes(t, [], c); }
    steps := [NextDooming(s)] + rest;
    RunCons(s, NextDooming(s), rest);
  }

  lemma RunCons(s: State, step: Step, rest: seq<Step>)
    requires Enabled(s, step) && IsRun(Next(s, step), rest)
    ensures IsRun(s, [step] + rest) && After(s, [step] + rest) == After(Next(s, step), rest)
  {
    hide Enabled, Next;
    assert ([step] + rest)[1..] == rest;
  }

  lemma InvCanDoom(s: State, c: Id)
    requires Inv(s) && Waits(s, c)
    ensures CanDoom(s, c)
  {
    hide InTable, Home, Places;
  }

  // A late packet, or a late user, is left at a deleted component by some
  // continuation exactly when its component was listed for deletion.
  ghost predicate PacketStrands(s: State, steps: seq<Step>, p: nat) {
    IsRun(s, steps) && var t := After(s, steps); p in t.packets && t.packets[p] in t.destroyed
  }

  ghost predicate UserStrands(s: State, steps: seq<Step>, u: nat) {
    IsRun(s, steps) && var t := After(s, steps); u in t.users && t.users[u] in t.destroyed
  }

  lemma LateHandOffStrandsIff(s: State, c: Id, p: nat)
    requires Inv(s) && c in s.comps && p !in s.packets
    ensures (exists steps :: PacketStrands(HandedOff(s, c, p), steps, p)) <==> Waits(s, c)
  {
    hide Inv, IsRun, After;
    var late := HandedOff(s, c, p);
    if Waits(s, c) {
      InvCanDoom(s, c);
      assert CanDoom(late, c);
      var steps := DoomRun(late, c);
      assert PacketStrands(late, steps, p);
    } else {
      HandOffKeeps(s, c, p);
      forall steps
        ensures !PacketStrands(late, steps, p)
      {
        if IsRun(late, steps) { NothingStrands(late, steps); }
      }
    }
  }

  lemma LateBindStrandsIff(s: State, c: Id, u: nat)
    requires Inv(s) && c in s.comps && u !in s.users
    ensures (exists steps :: UserStrands(Bound(s, u, c), steps, u)) <==> Waits(s, c)
  {
    hide Inv, IsRun, After;
    var late := Bound(s, u, c);
    if Waits(s, c) {
      InvCanDoom(s, c);
      assert CanDoom(late, c);
      var steps := DoomRun(late, c);
      assert UserStrands(late, steps, u);
    } else {
      BindKeeps(s, u, c);
      forall steps
        ensures !UserStrands(late, steps, u)
      {
        if IsRun(late, steps) { NothingStrands(late, steps); }
      }
    }
  }

  lemma NothingStrands(s: State, steps: seq<Step>)
    requires Inv(s) && IsRun(s, steps)
    ensures forall p :: !PacketStrands(s, steps, p)
    ensures forall u :: !UserStrands(s, steps, u)
  {
    hide IsRun, After, InTable, Home, Places, Tabled, Counted, UsedOrQuiet, TableUsed, RemovalOk, DoomedFree, Named;
    RunKeeps(s, steps);
    var t := After(s, steps);
    assert forall p :: p in t.packets ==> t.packets[p] in t.comps.Keys;
    assert forall u :: u in t.users ==> t.users[u] in t.comps.Keys;
  }

  lemma {:induction false} RunSnoc(s: State, steps: seq<Step>, step: Step)
    requires IsRun(s, steps) && Enabled(After(s, steps), step)
    ensures IsRun(s, steps + [step]) && After(s, steps + [step]) == Next(After(s, steps), step)
    decreases |steps|
  {
    hide Enabled;
    hide Next;
    if steps == [] {
      assert [step][1..] == [] && [] + [step] == [step];
      assert IsRun(Next(s, step), []);
    } else {
      RunSnoc(Next(s, steps[0]), steps[1..], step);
      assert (steps + [step])[1..] == steps[1..] + [step];
    }
  }

  // That state is reached: an idle connection is swept, closed by the timeout
  // thread, and put into _del, while the io thread may still be in its callback.
  function Idle(conn: Conn, ref: int, used: bool): Component {
    Component(1, 1, TcpActConn, false, conn, ref, used, 0, 0)
  }

  function AnyHash(sockId: uint64): nat {
    0
  }

  function OneIdle(c: Component, inTable: bool, timeouts: seq<Id>, swept: Swept, del: seq<Id>, stage: Option<Stage>): State {
    State(AnyHash, map[0 := c], [if inTable then Bucket([0], {0}) else Bucket([], {})], timeouts, swept, [], del, [],
          if stage.Some? then Some(Removal(0, TimeoutThread, stage.value)) else None, map[], map[], {})
  }

  const EMPTY := State(AnyHash, map[], [Bucket([], {})], [], Nobody, [], [], [], None, map[], map[], {})

  ghost predicate Goes(s: State, step: Step, t: State) {
    Enabled(s, step) && Next(s, step) == t
  }

  lemma ExtendRun(steps: seq<Step>, s: State, step: Step, t: State)
    requires IsRun(EMPTY, steps) && After(EMPTY, steps) == s && Goes(s, step, t)
    ensures IsRun(EMPTY, steps + [step]) && After(EMPTY, steps + [step]) == t
  {
    RunSnoc(EMPTY, steps, step);
  }

  const NOW: uint64 := IDLE_TIMEOUT + 1
  const S1 := OneIdle(Idle(Connected, 1, true), true, [], Nobody, [], None)
  const S2 := OneIdle(Idle(Connected, 1, true), false, [0], Nobody, [], None)
  const S3 := OneIdle(Idle(Connected, 1, true), false, [], Popped(0), [], None)
  const S4 := OneIdle(Idle(Closed, 1, true), false, [], Popped(0), [], Some(WasClosed))
  const S5 := OneIdle(Idle(Closed, 1, true), false, [], Popped(0), [], Some(Detached(false)))
  const S6 := OneIdle(Idle(Closed, 1, true), false, [], Popped(0), [], Some(Recycled))
  const S7 := OneIdle(Idle(Closed, 1, false), false, [], Popped(0), [], Some(Unmarked))
  const S8 := OneIdle(Idle(Closed, 0, false), false, [], Removed(0), [], None)
  const DOOMED := OneIdle(Idle(Closed, 0, false), false, [], Nobody, [0], None)

  lemma IdleAdd()
    ensures Goes(EMPTY, AddComponent(0, Idle(Connected, 0, false)), S1)
  {
    hide SockHash;
    var n := Idle(Connected, 0, false);
    assert CanAdd(EMPTY, 0, n);
    var t := Added(EMPTY, 0, n);
    assert [] + [0 as Id] == [0] && {} + {0 as Id} == {0};
    assert t.buckets == [Bucket([0], {0})];
    assert t.comps == map[0 := Idle(Connected, 1, true)];
  }

  lemma IdleSweep()
    ensures Goes(S1, SweepBucket(0, NOW, map[]), S2)
  {
    hide SweepQueue;
    hide Elements;
    IdleQueue(S1.comps);
    assert [] + [0 as Id] == [0] && {0 as Id} - {0} == {};
    var t := SweptBucket(S1, 0, NOW, map[]);
    assert t.buckets == [Bucket([], {})] && t.timeouts == [] + [0];
  }

  lemma IdleQueue(comps: map<Id, Component>)
    requires comps == map[0 := Idle(Connected, 1, true)]
    ensures SweepQueue(comps, [0], NOW, map[]) == (comps, [], [0]) && Elements([0 as Id]) == {0}
  {
    assert [0 as Id][1..] == [] && [0 as Id] + [] == [0] && comps[0 := comps[0]] == comps;
    assert CheckTimeout(comps[0], NOW, Closed) == (true, comps[0]);
    assert SweepQueue(comps, [], NOW, map[]) == (comps, [], []);
  }

  lemma IdlePop()
    ensures Goes(S2, PopTimeout, S3)
  {
  }

  lemma IdleClose()
    ensures Goes(S3, RemoveClose(0, TimeoutThread, None), S4)
  {
    assert ClosedBy(S3, 0, TimeoutThread, None).comps == S4.comps;
  }

  lemma IdleDetach()
    ensures Goes(S4, RemoveDetach, S5)
  {
    hide SockHash;
    assert DetachedFrom(S4).buckets == S4.buckets;
  }

  lemma IdleRecycle()
    ensures Goes(S5, RemoveRecycle, S6)
  {
  }

  lemma IdleUnmark()
    ensures Goes(S6, RemoveUnmark, S7)
  {
    assert UnmarkedFrom(S6).comps == S7.comps;
  }

  lemma IdleRelease()
    ensures Goes(S7, RemoveRelease, S8)
  {
    assert ReleasedFrom(S7).comps == S8.comps;
  }

  lemma IdlePutAway()
    ensures Goes(S8, MoveToRecycle, DOOMED)
  {
  }

  lemma IdleConnectionIsDoomed() returns (steps: seq<Step>)
    ensures Initial(EMPTY) && IsRun(EMPTY, steps) && After(EMPTY, steps) == DOOMED
  {
    hide IsRun, After, Goes, OneIdle, Idle, Initial;
    EmptyRun();
    steps := [];
    var add := AddComponent(0, Idle(Connected, 0, false));
    IdleAdd(); ExtendRun(steps, EMPTY, add, S1); steps := steps + [add];
    var sweep := SweepBucket(0, NOW, map[]);
    IdleSweep(); ExtendRun(steps, S1, sweep, S2); steps := steps + [sweep];
    IdlePop(); ExtendRun(steps, S2, PopTimeout, S3); steps := steps + [PopTimeout];
    var close := RemoveClose(0, TimeoutThread, None);
    IdleClose(); ExtendRun(steps, S3, close, S4); steps := steps + [close];
    IdleDetach(); ExtendRun(steps, S4, RemoveDetach, S5); steps := steps + [RemoveDetach];
    IdleRecycle(); ExtendRun(steps, S5, RemoveRecycle, S6); steps := steps + [RemoveRecycle];
    IdleUnmark(); ExtendRun(steps, S6, RemoveUnmark, S7); steps := steps + [RemoveUnmark];
    IdleRelease(); ExtendRun(steps, S7, RemoveRelease, S8); steps := steps + [RemoveRelease];
    IdlePutAway(); ExtendRun(steps, S8, MoveToRecycle, DOOMED); steps := steps + [MoveToRecycle];
  }

  // So the late hand-off does leave a packet at a deleted component in some run.
  lemma LateHandOffDangles(p: nat) returns (steps: seq<Step>, more: seq<Step>)
    ensures Initial(EMPTY) && IsRun(EMPTY, steps) && var s := After(EMPTY, steps);
            0 in s.comps && IoHandling(s) && PacketStrands(HandedOff(s, 0, p), more, p)
  {
    hide IsRun, After, PacketStrands, Initial;
    steps := IdleConnectionIsDoomed();
    EmptyRun();
    InitialHolds(EMPTY);
    RunKeeps(EMPTY, steps);
    LateHandOffStrandsIff(DOOMED, 0, p);
    more :| PacketStrands(HandedOff(DOOMED, 0, p), more, p);
  }

  lemma EmptyRun()
    ensures IsRun(EMPTY, []) && After(EMPTY, []) == EMPTY && Initial(EMPTY)
  {
  }
}
