/** The life of a connection object, as a state machine whose steps are the atomic
    regions of the io thread, the timeout thread and everybody else: hashioc.cpp,
    transport.cpp, pack.cpp and baseuser.h. */
module Lifetime {
  import opened Bytes
  import opened Lists
  import opened HashIndex

  // A component's identity: what an IOComponent* points at. Never reused.
  type Id = nat

  datatype Kind = TcpConn | TcpActConn

  datatype Conn = Closed | Connecting | Connected

  // `putId` is the id the component had when it was put into the table. A reconnect
  // gives it a new local address, hence a new id, and leaves it in its bucket.
  datatype Component = Component(
    sockId: uint64, putId: uint64, kind: Kind, auto: bool, conn: Conn, ref: int, used: bool,
    startConn: uint64, lastUse: uint64)
  {
    predicate InConnState() {
      conn == Connected || conn == Connecting
    }
  }

  // SetQueue: a bucket keeps its components in a queue and again in a set.
  datatype Bucket = Bucket(queue: seq<Id>, members: set<Id>)

  // Where Transport::remove_component stands, under _iocs_mutex.
  datatype Stage =
    | WasClosed              // close() has returned
    | Detached(found: bool)  // out of the bucket, if it was there
    | Recycled               // pushed to _recycle, if it was found
    | Unmarked               // set_used(false) done, sub_ref() not yet

  datatype Caller = IoThread | TimeoutThread | Other

  datatype Removal = Removal(c: Id, caller: Caller, stage: Stage)

  // What the timeout thread took from its list and has not yet put away.
  datatype Swept = Nobody | Popped(c: Id) | Removed(c: Id)

  datatype State = State(
    hash: uint64 -> nat,        // of socket ids; nothing depends on which it is
    comps: map<Id, Component>,  // components that exist
    buckets: seq<Bucket>,
    timeouts: seq<Id>,          // the timeout thread's list
    swept: Swept,
    recycle: seq<Id>,
    del: seq<Id>,
    reaping: seq<Id>,           // the io thread's list of what it will delete
    removal: Option<Removal>,
    packets: map<nat, Id>,      // the _ioc of every packet that has one
    users: map<nat, Id>,        // the _ioc of every bound user
    destroyed: set<Id>)

  function Home(s: State, sockId: uint64): (i: nat)
    requires |s.buckets| > 0
    ensures i < |s.buckets|
  {
    BucketIndex(s.hash(sockId), |s.buckets|)
  }

  // ---------- places ----------

  function InTable(bs: seq<Bucket>): multiset<Id> {
    if bs == [] then multiset{} else multiset(bs[0].queue) + InTable(bs[1..])
  }

  function InSweep(w: Swept): multiset<Id> {
    if w.Nobody? then multiset{} else multiset{w.c}
  }

  function InRemoval(r: Option<Removal>): multiset<Id> {
    if r.Some? && r.value.stage == Detached(true) then multiset{r.value.c} else multiset{}
  }

  // Every place a component can be in, with multiplicity.
  function Places(s: State): multiset<Id> {
    InTable(s.buckets) + multiset(s.timeouts) + InSweep(s.swept) + InRemoval(s.removal)
    + multiset(s.recycle) + multiset(s.del) + multiset(s.reaping)
  }

  // ---------- the invariant ----------

  ghost predicate BucketOk(s: State, i: nat)
    requires i < |s.buckets|
  {
    && s.buckets[i].members == Elements(s.buckets[i].queue)
    && forall c :: c in s.buckets[i].queue ==> c in s.comps && Home(s, s.comps[c].putId) == i
  }

  ghost predicate Tabled(s: State) {
    |s.buckets| > 0 && forall i :: 0 <= i < |s.buckets| ==> BucketOk(s, i)
  }

  // Only a component that reconnects by itself changes its id.
  ghost predicate Named(s: State) {
    forall c :: c in s.comps && !s.comps[c].auto ==> s.comps[c].sockId == s.comps[c].putId
  }

  // Each existing component is in exactly one place, and nothing else is anywhere.
  ghost predicate Placed(s: State) {
    && (forall c :: c in s.comps.Keys ==> Places(s)[c] == 1)
    && (forall c :: c in Places(s) ==> c in s.comps.Keys)
    && s.destroyed !! s.comps.Keys
  }

  // Between set_used(false) and sub_ref() the count is one ahead.
  function Pending(s: State, c: Id): nat {
    if s.removal.Some? && s.removal.value.c == c && s.removal.value.stage == Unmarked then 1 else 0
  }

  function Holds(s: State, c: Id): nat
    requires c in s.comps
  {
    (if s.comps[c].used then 1 else 0) + Count(s.packets, c) + Count(s.users, c) + Pending(s, c)
  }

  ghost predicate Counted(s: State) {
    forall c :: c in s.comps ==> s.comps[c].ref == Holds(s, c)
  }

  // Packets and users only refer to components that exist.
  ghost predicate Alive(s: State) {
    && (forall p :: p in s.packets ==> s.packets[p] in s.comps)
    && (forall u :: u in s.users ==> s.users[u] in s.comps)
  }

  predicate Quiet(c: Component) {
    c.conn == Closed && !c.auto
  }

  // A component leaves `used` closed for good.
  ghost predicate UsedOrQuiet(s: State) {
    forall c :: c in s.comps && !s.comps[c].used ==> Quiet(s.comps[c])
  }

  ghost predicate TableUsed(s: State) {
    forall c :: c in s.comps && !s.comps[c].used ==> c !in InTable(s.buckets)
  }

  // A removal works on a closed component; it is out of the table after the first
  // stage and unmarked in the last.
  ghost predicate RemovalOk(s: State) {
    s.removal.Some? ==>
      var r := s.removal.value;
      r.c in s.comps && Quiet(s.comps[r.c]) && (s.comps[r.c].used <==> r.stage != Unmarked)
      && (r.stage != WasClosed ==> r.c !in InTable(s.buckets))
  }

  // Its count was seen at zero, and it is listed for deletion.
  predicate Waits(s: State, c: Id) {
    c in s.del || c in s.reaping
  }

  // What waits to be deleted is free.
  ghost predicate DoomedFree(s: State) {
    forall c :: c in s.comps && Waits(s, c) ==> s.comps[c].ref == 0
  }

  ghost predicate Inv(s: State) {
    && Tabled(s) && Named(s) && Placed(s) && Counted(s) && Alive(s)
    && UsedOrQuiet(s) && TableUsed(s) && RemovalOk(s) && DoomedFree(s)
  }

  // ---------- check_timeout ----------

  const CONN_TIMEOUT := 2_000_000
  const RECONN_TIME := 10_000_000
  const IDLE_TIMEOUT := 30_000_000

  // `then < now - span` in unsigned 64-bit arithmetic.
  predicate Elapsed(since: uint64, now: uint64, span: nat) {
    since < (now - span) % MAX64
  }

  // Whether to sweep the component, and what it becomes. `reconnect` is what
  // socket_connect would make of it.
  function CheckTimeout(c: Component, now: uint64, reconnect: Conn): (r: (bool, Component))
    ensures r.1.ref == c.ref && r.1.used == c.used && r.1.kind == c.kind
    ensures r.1.sockId == c.sockId && r.1.putId == c.putId && r.1.auto == c.auto
    ensures Quiet(c) ==> r == (true, c)
    ensures !r.0 && r.1.conn == Closed ==> c.auto && c.kind == TcpConn
  {
    match c.conn
    case Connecting =>
      if c.startConn > 0 && Elapsed(c.startConn, now, CONN_TIMEOUT) then
        (c.kind != TcpConn || !c.auto, c.(conn := Closed))
      else (false, c)
    case Connected =>
      (c.kind == TcpActConn && Elapsed(c.lastUse, now, IDLE_TIMEOUT), c)
    case Closed =>
      if c.kind == TcpConn && c.auto then
        if c.startConn > 0 && Elapsed(c.startConn, now, RECONN_TIME) then
          (false, c.(startConn := now, conn := reconnect))
        else (false, c)
      else (true, c)
  }

  // One pass over a bucket's queue: the components after it, who stays, who is
  // swept.
  function SweepQueue(comps: map<Id, Component>, queue: seq<Id>, now: uint64, reconnect: map<Id, Conn>)
    : (r: (map<Id, Component>, seq<Id>, seq<Id>))
    requires forall c :: c in queue ==> c in comps
    ensures r.0.Keys == comps.Keys
    decreases |queue|
  {
    if queue == [] then (comps, [], [])
    else
      var c := queue[0];
      var (timeout, next) := CheckTimeout(comps[c], now, if c in reconnect then reconnect[c] else Closed);
      var (comps', kept, swept) := SweepQueue(comps[c := next], queue[1..], now, reconnect);
      if timeout then (comps', kept, [c] + swept) else (comps', [c] + kept, swept)
  }

  // ---------- the atomic regions ----------

  // Only `ref` moves.
  function AddRef(comps: map<Id, Component>, c: Id, change: int): map<Id, Component>
    requires c in comps
  {
    comps[c := comps[c].(ref := comps[c].ref + change)]
  }

  function SetConn(comps: map<Id, Component>, c: Id, conn: Conn): map<Id, Component>
    requires c in comps
  {
    comps[c := comps[c].(conn := conn)]
  }

  // _last_use_time.
  function Touched(comps: map<Id, Component>, c: Id, now: uint64): map<Id, Component>
    requires c in comps
  {
    comps[c := comps[c].(lastUse := now)]
  }

  function SetId(comps: map<Id, Component>, c: Id, id: Option<uint64>): map<Id, Component>
    requires c in comps
  {
    if id.Some? then comps[c := comps[c].(sockId := id.value)] else comps
  }

  // The io thread is inside remove_component.
  predicate IoBusy(s: State) {
    s.removal.Some? && s.removal.value.caller == IoThread
  }

  // The io thread is handling events, not deleting.
  predicate IoHandling(s: State) {
    !IoBusy(s) && s.reaping == []
  }

  // Transport::add_component, with HashSock::put succeeding.
  predicate CanAdd(s: State, c: Id, n: Component) {
    && |s.buckets| > 0 && c !in s.comps && c !in s.destroyed
    && n.sockId != 0 && n.ref == 0 && !n.used
    && c !in s.buckets[Home(s, n.sockId)].members
  }

  function Added(s: State, c: Id, n: Component): State
    requires CanAdd(s, c, n)
  {
    var i := Home(s, n.sockId);
    var b := s.buckets[i];
    s.(comps := s.comps[c := n.(putId := n.sockId, used := true, ref := n.ref + 1)],
       buckets := s.buckets[i := Bucket(b.queue + [c], b.members + {c})])
  }

  // One read callback: the packets it hands to the worker queue, less those the
  // queue refuses; none unless connected. Every event counts as use.
  predicate CanRead(s: State, c: Id, arrived: set<nat>) {
    && c in s.comps && s.comps[c].InConnState() && (arrived != {} ==> s.comps[c].conn == Connected)
    && arrived !! s.packets.Keys && IoHandling(s)
  }

  function ReadFrom(s: State, c: Id, arrived: set<nat>, now: uint64): State
    requires CanRead(s, c, arrived)
  {
    s.(comps := Touched(AddRef(s.comps, c, |arrived|), c, now), packets := s.packets + map p | p in arrived :: c)
  }

  // One write callback: while connecting it reports how that went.
  predicate CanWrite(s: State, c: Id) {
    c in s.comps && s.comps[c].InConnState() && IoHandling(s)
  }

  function WrittenTo(s: State, c: Id, success: bool, now: uint64): State
    requires CanWrite(s, c)
  {
    var conn := if s.comps[c].conn == Connected then Connected else if success then Connected else Closed;
    s.(comps := Touched(SetConn(s.comps, c, conn), c, now))
  }

  // post_packet on an offline auto-reconnecting component. `id` is the socket id of
  // the new local address, if init() gets as far as setting it.
  predicate CanPost(s: State, c: Id) {
    c in s.comps && s.comps[c].conn == Closed && s.comps[c].auto
  }

  function Posted(s: State, c: Id, outcome: Conn, id: Option<uint64>, now: uint64): State
    requires CanPost(s, c)
  {
    s.(comps := SetId(SetConn(Tried(s.comps, c, now), c, outcome), c, id))
  }

  // socket_connect notes when it was last tried; only a client's init goes there.
  function Tried(comps: map<Id, Component>, c: Id, now: uint64): map<Id, Component>
    requires c in comps
  {
    if comps[c].kind == TcpConn then comps[c := comps[c].(startConn := now)] else comps
  }

  // get_timeout_list under one bucket's lock.
  predicate CanSweep(s: State, i: nat) {
    i < |s.buckets| && s.swept == Nobody && forall c :: c in s.buckets[i].queue ==> c in s.comps
  }

  function SweptBucket(s: State, i: nat, now: uint64, reconnect: map<Id, Conn>): State
    requires CanSweep(s, i)
  {
    var b := s.buckets[i];
    var (comps, kept, swept) := SweepQueue(s.comps, b.queue, now, reconnect);
    s.(comps := comps,
       buckets := s.buckets[i := Bucket(kept, b.members - Elements(swept))],
       timeouts := s.timeouts + swept)
  }

  predicate CanPop(s: State) {
    s.timeouts != [] && s.swept == Nobody
  }

  function PoppedTimeout(s: State): State
    requires CanPop(s)
  {
    s.(timeouts := s.timeouts[1..], swept := Popped(s.timeouts[0]))
  }

  // remove_component from taking _iocs_mutex up to the `used` check. close()
  // leaves the component closed, and a notice behind if it was connected and the
  // worker queue accepts the packet.
  predicate CanClose(s: State, c: Id, caller: Caller, notice: Option<nat>) {
    && c in s.comps && s.removal == None && (notice.Some? ==> notice.value !in s.packets)
    && (caller == IoThread ==> s.reaping == [])
    && (caller == TimeoutThread ==> s.swept == Popped(c))
  }

  function ClosedBy(s: State, c: Id, caller: Caller, notice: Option<nat>): State
    requires CanClose(s, c, caller, notice)
  {
    var told := s.comps[c].InConnState() && notice.Some?;
    var t := s.(comps := SetConn(AddRef(s.comps, c, if told then 1 else 0), c, Closed),
                packets := if told then s.packets[notice.value := c] else s.packets);
    if s.comps[c].auto || !s.comps[c].used then Finished(t, caller)
    else t.(removal := Some(Removal(c, caller, WasClosed)))
  }

  // remove_component returned: the timeout thread goes on to moveto_recycle.
  function Finished(s: State, caller: Caller): State {
    s.(removal := None, swept := if caller == TimeoutThread && s.swept.Popped? then Removed(s.swept.c) else s.swept)
  }

  predicate RemovalAt(s: State, stage: Stage) {
    s.removal.Some? && s.removal.value.stage == stage && s.removal.value.c in s.comps && |s.buckets| > 0
  }

  // HashSock::remove, inside the bucket's lock.
  function DetachFrom(b: Bucket, c: Id): Bucket {
    if c in b.members then Bucket(Erase(b.queue, c), b.members - {c}) else b
  }

  function DetachedFrom(s: State): State
    requires RemovalAt(s, WasClosed)
  {
    var r := s.removal.value;
    var i := Home(s, s.comps[r.c].sockId);
    s.(removal := Some(r.(stage := Detached(r.c in s.buckets[i].members))),
       buckets := s.buckets[i := DetachFrom(s.buckets[i], r.c)])
  }

  // HashSock::remove, pushing to _recycle.
  predicate CanRecycle(s: State) {
    s.removal.Some? && s.removal.value.stage.Detached?
  }

  function RecycledFrom(s: State): State
    requires CanRecycle(s)
  {
    var r := s.removal.value;
    s.(removal := Some(r.(stage := Recycled)), recycle := if r.stage.found then s.recycle + [r.c] else s.recycle)
  }

  function UnmarkedFrom(s: State): State
    requires RemovalAt(s, Recycled)
  {
    var r := s.removal.value;
    s.(removal := Some(r.(stage := Unmarked)), comps := s.comps[r.c := s.comps[r.c].(used := false)])
  }

  function ReleasedFrom(s: State): State
    requires RemovalAt(s, Unmarked)
  {
    var r := s.removal.value;
    Finished(s.(comps := AddRef(s.comps, r.c, -1)), r.caller)
  }

  // moveto_recycle for what the timeout thread swept.
  predicate CanPutAway(s: State) {
    s.swept.Removed? && s.swept.c in s.comps
  }

  function PutAway(s: State): State
    requires CanPutAway(s)
  {
    if s.comps[s.swept.c].ref <= 0 then s.(swept := Nobody, del := s.del + [s.swept.c])
    else s.(swept := Nobody, recycle := s.recycle + [s.swept.c])
  }

  // A worker deletes a packet.
  predicate CanDelete(s: State, p: nat) {
    p in s.packets && s.packets[p] in s.comps
  }

  function Deleted(s: State, p: nat): State
    requires CanDelete(s, p)
  {
    s.(comps := AddRef(s.comps, s.packets[p], -1), packets := s.packets - {p})
  }

  // A thread can reach c through a packet or a user that refers to it; the io
  // thread's connect callback reaches c as well.
  predicate Reachable(s: State, c: Id) {
    c in s.packets.Values || c in s.users.Values || (c in s.comps && s.comps[c].conn == Connected)
  }

  // The second half of bind_ioc; the first half is an unbind.
  predicate CanBind(s: State, u: nat, c: Id) {
    u !in s.users && c in s.comps && !Waits(s, c)
  }

  function Bound(s: State, u: nat, c: Id): State
    requires c in s.comps
  {
    s.(comps := AddRef(s.comps, c, 1), users := s.users[u := c])
  }

  // One packet handed to the worker queue for c, whatever became of c since the
  // read callback found it connected.
  predicate CanHandOff(s: State, c: Id, p: nat) {
    p !in s.packets && c in s.comps && !Waits(s, c)
  }

  function HandedOff(s: State, c: Id, p: nat): State
    requires c in s.comps
  {
    s.(comps := AddRef(s.comps, c, 1), packets := s.packets[p := c])
  }

  predicate CanUnbind(s: State, u: nat) {
    u in s.users && s.users[u] in s.comps
  }

  function Unbound(s: State, u: nat): State
    requires CanUnbind(s, u)
  {
    s.(comps := AddRef(s.comps, s.users[u], -1), users := s.users - {u})
  }

  // get_del_list: the whole of _del without looking at the counts again...
  predicate CanTakeDel(s: State) {
    IoHandling(s)
  }

  function DelTaken(s: State): State
    requires CanTakeDel(s)
  {
    s.(reaping := s.del, del := [])
  }

  // ... then whatever in _recycle is free.
  predicate CanTakeRecycled(s: State, c: Id) {
    !IoBusy(s) && c in s.recycle && c in s.comps && s.comps[c].ref == 0
  }

  function RecycledTaken(s: State, c: Id): State
    requires CanTakeRecycled(s, c)
  {
    s.(recycle := Erase(s.recycle, c), reaping := s.reaping + [c])
  }

  predicate CanDestroy(s: State) {
    !IoBusy(s) && s.reaping != []
  }

  function DestroyedFirst(s: State): State
    requires CanDestroy(s)
  {
    s.(reaping := s.reaping[1..], comps := s.comps - {s.reaping[0]}, destroyed := s.destroyed + {s.reaping[0]})
  }

  // ---------- runs ----------

  datatype Step =
    | AddComponent(c: Id, n: Component)
    | ReadEvent(c: Id, arrived: set<nat>, now: uint64)
    | HandOff(c: Id, p: nat)
    | WriteEvent(c: Id, success: bool, now: uint64)
    | PostReconnect(c: Id, outcome: Conn, id: Option<uint64>, now: uint64)
    | SweepBucket(i: nat, now: uint64, reconnect: map<Id, Conn>)
    | PopTimeout
    | RemoveClose(c: Id, caller: Caller, notice: Option<nat>)
    | RemoveDetach
    | RemoveRecycle
    | RemoveUnmark
    | RemoveRelease
    | MoveToRecycle
    | DeletePacket(p: nat)
    | Bind(u: nat, c: Id)
    | Unbind(u: nat)
    | TakeDel
    | TakeRecycled(c: Id)
    | Destroy

  predicate Enabled(s: State, step: Step) {
    match step
    case AddComponent(c, n) => CanAdd(s, c, n)
    case ReadEvent(c, arrived, _) => CanRead(s, c, arrived)
    case HandOff(c, p) => CanHandOff(s, c, p)
    case WriteEvent(c, _, _) => CanWrite(s, c)
    case PostReconnect(c, _, _, _) => CanPost(s, c)
    case SweepBucket(i, _, _) => CanSweep(s, i)
    case PopTimeout => CanPop(s)
    case RemoveClose(c, caller, notice) => CanClose(s, c, caller, notice)
    case RemoveDetach => RemovalAt(s, WasClosed)
    case RemoveRecycle => CanRecycle(s)
    case RemoveUnmark => RemovalAt(s, Recycled)
    case RemoveRelease => RemovalAt(s, Unmarked)
    case MoveToRecycle => CanPutAway(s)
    case DeletePacket(p) => CanDelete(s, p)
    case Bind(u, c) => CanBind(s, u, c)
    case Unbind(u) => CanUnbind(s, u)
    case TakeDel => CanTakeDel(s)
    case TakeRecycled(c) => CanTakeRecycled(s, c)
    case Destroy => CanDestroy(s)
  }

  function Next(s: State, step: Step): State
    requires Enabled(s, step)
  {
    match step
    case AddComponent(c, n) => Added(s, c, n)
    case ReadEvent(c, arrived, now) => ReadFrom(s, c, arrived, now)
    case HandOff(c, p) => HandedOff(s, c, p)
    case WriteEvent(c, success, now) => WrittenTo(s, c, success, now)
    case PostReconnect(c, outcome, id, now) => Posted(s, c, outcome, id, now)
    case SweepBucket(i, now, reconnect) => SweptBucket(s, i, now, reconnect)
    case PopTimeout => PoppedTimeout(s)
    case RemoveClose(c, caller, notice) => ClosedBy(s, c, caller, notice)
    case RemoveDetach => DetachedFrom(s)
    case RemoveRecycle => RecycledFrom(s)
    case RemoveUnmark => UnmarkedFrom(s)
    case RemoveRelease => ReleasedFrom(s)
    case MoveToRecycle => PutAway(s)
    case DeletePacket(p) => Deleted(s, p)
    case Bind(u, c) => Bound(s, u, c)
    case Unbind(u) => Unbound(s, u)
    case TakeDel => DelTaken(s)
    case TakeRecycled(c) => RecycledTaken(s, c)
    case Destroy => DestroyedFirst(s)
  }

  // A run: every step enabled where it is taken.
  predicate IsRun(s: State, steps: seq<Step>)
    decreases |steps|
  {
    steps == [] || (Enabled(s, steps[0]) && IsRun(Next(s, steps[0]), steps[1..]))
  }

  function After(s: State, steps: seq<Step>): State
    requires IsRun(s, steps)
    decreases |steps|
  {
    if steps == [] then s else After(Next(s, steps[0]), steps[1..])
  }

  // A transport before its first component.
  predicate Initial(s: State) {
    && IsPowerOf4(|s.buckets|) && (forall i :: 0 <= i < |s.buckets| ==> s.buckets[i] == Bucket([], {}))
    && s.comps == map[] && s.timeouts == [] && s.swept == Nobody && s.recycle == [] && s.del == []
    && s.reaping == [] && s.removal == None && s.packets == map[] && s.users == map[] && s.destroyed == {}
  }
}
