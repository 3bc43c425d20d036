/** What can become of a component: some continuation of a run deletes it exactly when
    it does not reconnect by itself. */
module LifetimeProgress {
  import opened Bytes
  import opened Lists
  import opened Lifetime
  import opened LifetimeProof

  // ---------- who still has to be removed is on its way ----------

  ghost predicate OnItsWay(s: State, c: Id) {
    c in InTable(s.buckets) || c in s.timeouts || s.swept == Popped(c) || (s.removal.Some? && s.removal.value.c == c)
  }

  ghost predicate UsedOnTheirWay(s: State) {
    forall c :: c in s.comps && s.comps[c].used && !s.comps[c].auto ==> OnItsWay(s, c)
  }

  // The timeout thread removes what it has popped.
  ghost predicate InHand(s: State) {
    s.removal.Some? && s.removal.value.caller == TimeoutThread ==> s.swept == Popped(s.removal.value.c)
  }

  ghost predicate Tidy(s: State) {
    UsedOnTheirWay(s) && InHand(s)
  }

  // Only an unmark clears a mark, and nothing changes `auto`.
  lemma StepMarks(s: State, step: Step, c: Id)
    requires Enabled(s, step) && c in s.comps
    ensures var t := Next(s, step);
            c in t.comps ==>
              && t.comps[c].auto == s.comps[c].auto
              && (t.comps[c].used ==> s.comps[c].used)
              && (step.RemoveUnmark? && s.removal.Some? && s.removal.value.c == c ==> !t.comps[c].used)
  {
    if step.SweepBucket? {
      hide SweepQueue, InTable;
      SweepQueueMarks(s.comps, s.buckets[step.i].queue, step.now, step.reconnect, c);
    } else if MovesOnly(step) {
      MovesSpareComponents(s, step);
    } else {
      OtherMarks(s, step, c);
    }
  }

  predicate MovesOnly(step: Step) {
    step.PopTimeout? || step.RemoveDetach? || step.RemoveRecycle? || step.MoveToRecycle? || step.TakeDel? || step.TakeRecycled?
  }

  lemma MovesSpareComponents(s: State, step: Step)
    requires Enabled(s, step) && MovesOnly(step)
    ensures Next(s, step).comps == s.comps
  {
    hide InTable, Home, DetachFrom, Erase;
  }

  lemma OtherMarks(s: State, step: Step, c: Id)
    requires Enabled(s, step) && !step.SweepBucket? && !MovesOnly(step) && c in s.comps
    ensures var t := Next(s, step);
            c in t.comps ==>
              && t.comps[c].auto == s.comps[c].auto
              && (t.comps[c].used ==> s.comps[c].used)
              && (step.RemoveUnmark? && s.removal.Some? && s.removal.value.c == c ==> !t.comps[c].used)
  {
    hide InTable, Home, CheckTimeout;
  }

  lemma SweptGoOn(s: State, i: nat, now: uint64, reconnect: map<Id, Conn>, c: Id)
    requires Inv(s) && CanSweep(s, i)
    ensures var t := SweptBucket(s, i, now, reconnect);
            c in InTable(s.buckets) || c in s.timeouts ==> c in InTable(t.buckets) || c in t.timeouts
  {
    hide InTable, Home, SweepQueue, NoDuplicates;
    BucketNoDuplicates(s, i);
    SweepPlaces(s, i, now, reconnect);
    var t := SweptBucket(s, i, now, reconnect);
    assert Places(t)[c] == Places(s)[c];
    assert c in t.timeouts <==> multiset(t.timeouts)[c] > 0;
    assert c in s.timeouts <==> multiset(s.timeouts)[c] > 0;
  }

  // Whoever was on its way is so still, or unmarked, or reconnects.
  lemma StaysOnItsWay(s: State, step: Step, c: Id)
    requires Inv(s) && InHand(s) && Enabled(s, step) && c in s.comps && OnItsWay(s, c)
    ensures var t := Next(s, step); c in t.comps && t.comps[c].used && !t.comps[c].auto ==> OnItsWay(t, c)
  {
    hide InTable, Inv, Enabled, Next, InHand, SweptBucket, CanSweep;
    if step.SweepBucket? {
      SweepSparesHands(s, step.i, step.now, step.reconnect);
      SweptGoOn(s, step.i, step.now, step.reconnect, c);
    } else if c in InTable(s.buckets) {
      StepTable(s, step);
      if step.RemoveDetach? { DetachSparesHands(s); }
    } else if Hands(step) {
      OthersOnTheirWay(s, step, c);
    } else {
      RestSparesHands(s, step);
    }
  }

  lemma SweepSparesHands(s: State, i: nat, now: uint64, reconnect: map<Id, Conn>)
    requires Enabled(s, SweepBucket(i, now, reconnect))
    ensures CanSweep(s, i)
    ensures var t := SweptBucket(s, i, now, reconnect);
            Next(s, SweepBucket(i, now, reconnect)) == t && t.swept == s.swept && t.removal == s.removal
  {
    hide SweepQueue;
  }

  lemma DetachSparesHands(s: State)
    requires Enabled(s, RemoveDetach)
    ensures var t := Next(s, RemoveDetach);
            s.removal.Some? && t.removal.Some? && t.removal.value.c == s.removal.value.c
  {
    hide Home;
  }

  // The steps of the timeout thread's list and of removals.
  predicate Hands(step: Step) {
    step.PopTimeout? || step.RemoveClose? || step.RemoveDetach? || step.RemoveRecycle? || step.RemoveUnmark?
    || step.RemoveRelease? || step.MoveToRecycle?
  }

  lemma RestSparesHands(s: State, step: Step)
    requires Enabled(s, step) && !Hands(step) && !step.SweepBucket?
    ensures var t := Next(s, step); t.timeouts == s.timeouts && t.swept == s.swept && t.removal == s.removal
  {
    hide InTable, Home, Erase;
  }

  lemma OthersOnTheirWay(s: State, step: Step, c: Id)
    requires Inv(s) && InHand(s) && Enabled(s, step) && Hands(step) && c in s.comps
    requires c in s.timeouts || s.swept == Popped(c) || (s.removal.Some? && s.removal.value.c == c)
    ensures var t := Next(s, step); c in t.comps && t.comps[c].used && !t.comps[c].auto ==> OnItsWay(t, c)
  {
    hide InTable, Home, Places, Tabled, Placed, Counted, Alive, DoomedFree, Named;
  }

  lemma StepTidy(s: State, step: Step)
    requires Inv(s) && Tidy(s) && Enabled(s, step)
    ensures Tidy(Next(s, step))
  {
    hide Inv, Enabled, Next, OnItsWay, InHand;
    var t := Next(s, step);
    forall c | c in t.comps && t.comps[c].used && !t.comps[c].auto
      ensures OnItsWay(t, c)
    {
      if c in s.comps {
        StepMarks(s, step, c);
        StaysOnItsWay(s, step, c);
      } else {
        NewOnItsWay(s, step, c);
      }
    }
    StaysInHand(s, step);
  }

  lemma NewOnItsWay(s: State, step: Step, c: Id)
    requires Inv(s) && Enabled(s, step) && c !in s.comps && c in Next(s, step).comps
    ensures OnItsWay(Next(s, step), c)
  {
    hide Inv, Enabled, Next, InTable;
    StepKnows(s, step);
    StepTable(s, step);
  }

  lemma StaysInHand(s: State, step: Step)
    requires InHand(s) && Enabled(s, step)
    ensures InHand(Next(s, step))
  {
    hide InTable, Home, SweepQueue;
  }

  lemma {:induction false} RunTidy(s: State, steps: seq<Step>)
    requires Inv(s) && Tidy(s) && IsRun(s, steps)
    ensures Inv(After(s, steps)) && Tidy(After(s, steps))
    decreases |steps|
  {
    hide Inv, Tidy, Enabled, Next;
    if steps != [] {
      StepKeeps(s, steps[0]);
      StepTidy(s, steps[0]);
      RunTidy(Next(s, steps[0]), steps[1..]);
    }
  }

  // ---------- those that reconnect stay ----------

  lemma StepKeepsAuto(s: State, step: Step, c: Id)
    requires Inv(s) && Enabled(s, step) && c in s.comps && s.comps[c].auto
    ensures c in Next(s, step).comps && Next(s, step).comps[c].auto
  {
    hide Inv, Enabled, Next;
    StepKnows(s, step);
    StepMarks(s, step, c);
    if step.Destroy? { DestroysQuiet(s); }
  }

  lemma DestroysQuiet(s: State)
    requires Inv(s) && Enabled(s, Destroy)
    ensures s.reaping != [] && s.reaping[0] in s.comps && !s.comps[s.reaping[0]].auto
    ensures s.reaping[0] !in s.packets.Values && s.reaping[0] !in s.users.Values
  {
    hide InTable, Home, Places;
    DestroyPlaces(s);
    NothingHolds(s, s.reaping[0]);
  }

  lemma {:induction false} RunKeepsAuto(s: State, steps: seq<Step>, c: Id)
    requires Inv(s) && IsRun(s, steps) && c in s.comps && s.comps[c].auto
    ensures c in After(s, steps).comps && After(s, steps).comps[c].auto
    decreases |steps|
  {
    hide Inv, Enabled, Next;
    if steps != [] {
      StepKeeps(s, steps[0]);
      StepKeepsAuto(s, steps[0], c);
      RunKeepsAuto(Next(s, steps[0]), steps[1..], c);
    }
  }

  // ---------- the others can be deleted ----------

  // What refers to other components.
  function Others(m: map<nat, Id>, c: Id): map<nat, Id> {
    map k | k in m && m[k] != c :: m[k]
  }

  ghost predicate Reapable(s: State, c: Id) {
    Inv(s) && Tidy(s) && c in s.comps && !s.comps[c].auto
  }

  // c is deleted, and nothing that refers to another component is touched.
  ghost predicate Reaps(s: State, steps: seq<Step>, c: Id) {
    IsRun(s, steps)
    && var t := After(s, steps);
       c in t.destroyed && t.packets == Others(s.packets, c) && t.users == Others(s.users, c)
  }

  // How far c is from being deleted, most significant first: in the table, how many
  // are before it in the timeout thread's list and hand, the removal under way, who
  // holds packets and users, the lists of the io thread.
  function InTableRank(s: State, c: Id): nat {
    if c !in InTable(s.buckets) then 0 else if RemovalAt(s, WasClosed) && s.removal.value.c == c then 1 else 2
  }

  function HandRank(s: State): nat {
    match s.swept
    case Nobody => 0
    case Removed(_) => 1
    case Popped(_) => if s.removal.Some? && s.removal.value.caller == TimeoutThread then 2 else 3
  }

  function ListRank(s: State): nat {
    |s.del| + |s.recycle|
  }

  predicate Hastens(s: State, t: State, c: Id) {
    || InTableRank(t, c) < InTableRank(s, c)
    || (InTableRank(t, c) == InTableRank(s, c) && HastensHands(s, t))
  }

  predicate HastensHands(s: State, t: State) {
    || |t.timeouts| < |s.timeouts|
    || (|t.timeouts| == |s.timeouts|
        && (HandRank(t) < HandRank(s)
            || (HandRank(t) == HandRank(s)
                && (StageRank(t) < StageRank(s) || (StageRank(t) == StageRank(s) && HastensLists(s, t))))))
  }

  predicate HastensLists(s: State, t: State) {
    || |t.packets| + |t.users| < |s.packets| + |s.users|
    || (|t.packets| + |t.users| == |s.packets| + |s.users|
        && (ListRank(t) < ListRank(s) || (ListRank(t) == ListRank(s) && |t.reaping| < |s.reaping|)))
  }

  // The step leads on: it touches no other component's packets and users.
  ghost predicate LeadsOn(s: State, step: Step, c: Id) {
    Enabled(s, step)
    && var t := Next(s, step);
       && Others(t.packets, c) == Others(s.packets, c) && Others(t.users, c) == Others(s.users, c)
       && if c in t.destroyed then t.packets == Others(s.packets, c) && t.users == Others(s.users, c)
          else Hastens(s, t, c)
  }

  lemma StageHastens(s: State)
    requires s.removal.Some? && InHand(s) && s.removal.value.c in s.comps && |s.buckets| > 0
    ensures var step := NextStage(s.removal.value);
            && Enabled(s, step)
            && var t := Next(s, step);
               && t.packets == s.packets && t.users == s.users && t.timeouts == s.timeouts
               && t.destroyed == s.destroyed && HastensHands(s, t)
               && (t.removal.Some? ==> t.removal.value.c == s.removal.value.c && t.removal.value.stage != WasClosed)
  {
    hide Enabled, Next, StageRank, NextStage;
    StageMoves(s);
  }

  lemma StageLeadsOn(s: State, c: Id)
    requires Reapable(s, c) && s.removal.Some?
    ensures LeadsOn(s, NextStage(s.removal.value), c)
  {
    hide Inv, Enabled, Next, InTable, HastensHands;
    var step := NextStage(s.removal.value);
    InvRemoval(s, c);
    StageHastens(s);
    StepTable(s, step);
  }

  lemma InvRemoval(s: State, c: Id)
    requires Inv(s)
    ensures |s.buckets| > 0 && (c in s.comps ==> c !in s.destroyed)
    ensures s.removal.Some? ==>
              && s.removal.value.c in s.comps
              && (s.removal.value.stage != WasClosed ==> s.removal.value.c !in InTable(s.buckets))
    ensures InTable(s.buckets)[c] <= 1
  {
    hide InTable, Home, Places, Counted;
    TableOnce(s, c);
  }

  // In the table, somebody removes it.
  lemma CloseLeadsOn(s: State, c: Id)
    requires Reapable(s, c) && s.removal == None && c in InTable(s.buckets)
    ensures LeadsOn(s, RemoveClose(c, Other, None), c)
  {
    hide InTable, Home, Places, Tabled, Placed, Counted, Alive, UsedOrQuiet, Named, Tidy, HastensHands;
    InvRemoval(s, c);
    assert s.comps[c].used;
    SameHolders(s, ClosedBy(s, c, Other, None));
  }

  lemma SameHolders(s: State, t: State)
    ensures t.packets == s.packets && t.users == s.users ==>
              forall c :: Others(t.packets, c) == Others(s.packets, c) && Others(t.users, c) == Others(s.users, c)
  {
  }

  // Out of the table, the timeout thread goes on.
  lemma HandsLeadOn(s: State, c: Id)
    requires Reapable(s, c) && s.removal == None && c !in InTable(s.buckets)
    requires s.swept != Nobody || s.timeouts != []
    ensures exists step :: LeadsOn(s, step, c)
  {
    hide Inv, Tidy, Enabled, Next, InTable;
    InvRemoval(s, c);
    var step := match s.swept
                case Nobody => PopTimeout
                case Popped(x) => RemoveClose(x, TimeoutThread, None)
                case Removed(x) => MoveToRecycle;
    HandHastens(s, step);
    StepTable(s, step);
    SameHolders(s, Next(s, step));
    assert LeadsOn(s, step, c);
  }

  lemma HandHastens(s: State, step: Step)
    requires Inv(s) && s.removal == None && (s.swept != Nobody || s.timeouts != [])
    requires step == match s.swept
                     case Nobody => PopTimeout
                     case Popped(x) => RemoveClose(x, TimeoutThread, None)
                     case Removed(x) => MoveToRecycle
    ensures Enabled(s, step)
    ensures var t := Next(s, step);
            && t.packets == s.packets && t.users == s.users && t.destroyed == s.destroyed
            && HastensHands(s, t)
  {
    hide InTable, Home, Places, Tabled, Counted, Alive, UsedOrQuiet, Named;
    SweptExists(s);
  }

  lemma SweptExists(s: State)
    requires Inv(s)
    ensures s.swept != Nobody ==> s.swept.c in s.comps
  {
    hide InTable, Home, Tabled, Counted, Alive, UsedOrQuiet, Named, TableUsed, DoomedFree, RemovalOk;
    if s.swept != Nobody { assert s.swept.c in Places(s); }
  }

  // Then it is unmarked and in a list of the io thread.
  lemma AtRest(s: State, c: Id)
    requires Reapable(s, c) && s.removal == None && c !in InTable(s.buckets) && s.swept == Nobody && s.timeouts == []
    ensures !s.comps[c].used && (c in s.recycle || c in s.del || c in s.reaping)
    ensures c !in s.packets.Values && c !in s.users.Values ==> s.comps[c].ref == 0
  {
    hide InTable, Home, Tabled, Alive, UsedOrQuiet, Named, TableUsed, DoomedFree, RemovalOk;
    assert Places(s)[c] == 1;
    assert s.comps[c].ref == Holds(s, c);
    if c !in s.packets.Values { CountZero(s.packets, c); }
    if c !in s.users.Values { CountZero(s.users, c); }
  }

  // Workers delete its packets, its users let it go.
  lemma HoldersLeadOn(s: State, c: Id)
    requires Reapable(s, c) && (c in s.packets.Values || c in s.users.Values)
    ensures exists step :: LeadsOn(s, step, c)
  {
    hide LeadsOn, Reapable;
    if c in s.packets.Values {
      var p :| p in s.packets && s.packets[p] == c;
      PacketLeadsOn(s, p, c);
    } else {
      var u :| u in s.users && s.users[u] == c;
      UserLeadsOn(s, u, c);
    }
  }

  lemma PacketLeadsOn(s: State, p: nat, c: Id)
    requires Reapable(s, c) && p in s.packets && s.packets[p] == c
    ensures LeadsOn(s, DeletePacket(p), c)
  {
    hide Inv, Tidy, InTable, Others;
    InvRemoval(s, c);
    OthersWithout(s.packets, p, c);
  }

  lemma UserLeadsOn(s: State, u: nat, c: Id)
    requires Reapable(s, c) && u in s.users && s.users[u] == c
    ensures LeadsOn(s, Step.Unbind(u), c)
  {
    hide Inv, Tidy, InTable, Others;
    InvRemoval(s, c);
    OthersWithout(s.users, u, c);
  }

  lemma OthersWithout(m: map<nat, Id>, k: nat, c: Id)
    requires k in m && m[k] == c
    ensures Others(m - {k}, c) == Others(m, c) && |m - {k}| < |m|
  {
    assert (m - {k}).Keys == m.Keys - {k};
    assert |(m - {k}).Keys| == |m - {k}|;
  }

  lemma OthersAll(m: map<nat, Id>, c: Id)
    requires c !in m.Values
    ensures Others(m, c) == m
  {
  }

  // The io thread deletes what it has, takes over what is listed, or what is free.
  lemma ListsLeadOn(s: State, c: Id)
    requires Reapable(s, c) && s.removal == None && c !in InTable(s.buckets) && s.swept == Nobody && s.timeouts == []
    requires c !in s.packets.Values && c !in s.users.Values
    ensures exists step :: LeadsOn(s, step, c)
  {
    hide Inv, Tidy, InTable, Enabled, Next;
    InvRemoval(s, c);
    AtRest(s, c);
    OthersAll(s.packets, c);
    OthersAll(s.users, c);
    var step := if s.reaping != [] then Destroy else if c in s.del then TakeDel else TakeRecycled(c);
    ListHastens(s, step, c);
    assert LeadsOn(s, step, c);
  }

  lemma ListHastens(s: State, step: Step, c: Id)
    requires s.removal == None && c in s.comps && c !in s.destroyed && s.comps[c].ref == 0
    requires c in s.recycle || c in s.del || c in s.reaping
    requires step == if s.reaping != [] then Destroy else if c in s.del then TakeDel else TakeRecycled(c)
    ensures Enabled(s, step)
    ensures var t := Next(s, step);
            && t.packets == s.packets && t.users == s.users && t.buckets == s.buckets
            && t.timeouts == s.timeouts && t.swept == s.swept && t.removal == None && HastensLists(s, t)
  {
    if s.reaping != [] { DestroyHastens(s); }
    else if c in s.del { DelHastens(s); }
    else { RecycledHastens(s, c); }
  }

  lemma DestroyHastens(s: State)
    requires s.removal == None && s.reaping != []
    ensures Enabled(s, Destroy)
    ensures var t := Next(s, Destroy);
            && t.packets == s.packets && t.users == s.users && t.buckets == s.buckets
            && t.timeouts == s.timeouts && t.swept == s.swept && t.removal == None && HastensLists(s, t)
  {
    hide InTable, Home;
  }

  lemma DelHastens(s: State)
    requires s.removal == None && s.reaping == [] && s.del != []
    ensures Enabled(s, TakeDel)
    ensures var t := Next(s, TakeDel);
            && t.packets == s.packets && t.users == s.users && t.buckets == s.buckets
            && t.timeouts == s.timeouts && t.swept == s.swept && t.removal == None && HastensLists(s, t)
  {
    hide InTable, Home;
  }

  lemma RecycledHastens(s: State, c: Id)
    requires s.removal == None && s.reaping == [] && c in s.recycle && c in s.comps && s.comps[c].ref == 0
    ensures Enabled(s, TakeRecycled(c))
    ensures var t := Next(s, TakeRecycled(c));
            && t.packets == s.packets && t.users == s.users && t.buckets == s.buckets
            && t.timeouts == s.timeouts && t.swept == s.swept && t.removal == None && HastensLists(s, t)
  {
    hide InTable, Home;
    EraseMultiset(s.recycle, c);
  }

  lemma ReapStep(s: State, c: Id)
    requires Reapable(s, c)
    ensures exists step :: LeadsOn(s, step, c)
  {
    hide Reapable, LeadsOn, InTable;
    if s.removal.Some? { StageLeadsOn(s, c); }
    else if c in InTable(s.buckets) { CloseLeadsOn(s, c); }
    else if s.swept != Nobody || s.timeouts != [] { HandsLeadOn(s, c); }
    else if c in s.packets.Values || c in s.users.Values { HoldersLeadOn(s, c); }
    else { ListsLeadOn(s, c); }
  }

  lemma StaysReapable(s: State, step: Step, c: Id)
    requires Reapable(s, c) && Enabled(s, step)
    ensures c in Next(s, step).destroyed || Reapable(Next(s, step), c)
  {
    hide Inv, Tidy, Enabled, Next;
    StepKeeps(s, step);
    StepTidy(s, step);
    StepKnows(s, step);
    StepMarks(s, step, c);
  }

  lemma {:induction false} ReapRun(s: State, c: Id) returns (steps: seq<Step>)
    requires Reapable(s, c)
    ensures Reaps(s, steps, c)
    decreases InTableRank(s, c), |s.timeouts|, HandRank(s), StageRank(s), |s.packets| + |s.users|, ListRank(s), |s.reaping|
  {
    hide Reapable, Enabled, Next, InTableRank, HandRank, StageRank, ListRank;
    ReapStep(s, c);
    var step :| LeadsOn(s, step, c);
    var t, rest := Next(s, step), [];
    StaysReapable(s, step, c);
    if c !in t.destroyed { rest := ReapRun(t, c); }
    steps := [step] + rest;
    RunCons(s, step, rest);
  }

  lemma InitiallyTidy(s: State)
    requires Initial(s)
    ensures Tidy(s)
  {
  }

  // In every reachable state, some continuation deletes a component exactly when it
  // does not reconnect by itself.
  lemma DeletableIff(s: State, steps: seq<Step>, c: Id)
    requires Initial(s) && IsRun(s, steps) && c in After(s, steps).comps
    ensures var t := After(s, steps);
            (exists more :: IsRun(t, more) && c in After(t, more).destroyed) <==> !t.comps[c].auto
  {
    hide Inv, Tidy, IsRun, After, Initial;
    InitialHolds(s);
    InitiallyTidy(s);
    RunTidy(s, steps);
    var t := After(s, steps);
    if t.comps[c].auto {
      forall more | IsRun(t, more)
        ensures c !in After(t, more).destroyed
      {
        RunKeeps(t, more);
        RunKeepsAuto(t, more, c);
        InvRemoval(After(t, more), c);
      }
    } else {
      var more := ReapRun(t, c);
      assert IsRun(t, more) && c in After(t, more).destroyed;
    }
  }

  // Nothing leaks: a component that does not reconnect and that no packet and no user
  // refers to is deleted by a continuation that touches no packet and no user.
  lemma NothingLeaks(s: State, steps: seq<Step>, c: Id) returns (more: seq<Step>)
    requires Initial(s) && IsRun(s, steps) && c in After(s, steps).comps
    requires var t := After(s, steps); !t.comps[c].auto && c !in t.packets.Values && c !in t.users.Values
    ensures Deletes(After(s, steps), more, c)
  {
    hide Inv, Tidy, IsRun, After, Initial;
    InitialHolds(s);
    InitiallyTidy(s);
    RunTidy(s, steps);
    var t := After(s, steps);
    more := ReapRun(t, c);
    OthersAll(t.packets, c);
    OthersAll(t.users, c);
  }
}
