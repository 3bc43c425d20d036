/** The worker queue of src/comm/queuethread.cpp: a mutex with its condition variable,
    workers, and producers that read the stop flag before they lock. */
module WorkerQueue {
  import opened Bytes

  // Each region between taking the lock and giving it up, by unlock or by wait, is one
  // step; the queue inside is the one of src/comm/dataqueue.h.

  type Packet = nat

  // Ready: about to take the lock, at the start of run, after handling a packet, or
  // woken inside wait. Waiting: blocked in wait. Holding: outside the lock with a packet.
  datatype Worker = Ready | Waiting | Holding(packet: Packet) | Exited

  // `arriving` are the packets whose push has found the stop flag clear and has not
  // taken the lock yet. The rest of the fields after `workers` is history.
  datatype State = State(
    stop: bool,
    max: int,
    queue: seq<Packet>,
    workers: seq<Worker>,
    arriving: multiset<Packet>,
    returnedTrue: multiset<Packet>,
    accepted: seq<Packet>,
    popped: seq<Packet>,
    handled: multiset<Packet>,
    freed: multiset<Packet>,
    late: seq<Packet>)

  datatype Step =
    | BeginPush(packet: Packet)
    | LockPush(packet: Packet, woken: Option<nat>)
    | Stop
    | Turn(worker: nat)
    | Handle(worker: nat)
    | WakeUp(worker: nat)

  function Initial(workers: nat, max: int): State {
    State(false, max, [], seq(workers, _ => Ready), multiset{}, multiset{}, [], [], multiset{}, multiset{}, [])
  }

  predicate Is(s: State, w: nat, k: Worker) {
    w < |s.workers| && s.workers[w] == k
  }

  predicate SomeWaiting(s: State) {
    Waiting in s.workers
  }

  predicate AllExited(s: State) {
    forall w :: 0 <= w < |s.workers| ==> s.workers[w].Exited?
  }

  predicate Full(s: State) {
    |s.queue| > s.max && s.max > 0
  }

  // signal wakes one of the waiting workers, whichever it likes.
  predicate MayWake(s: State, woken: Option<nat>) {
    match woken
    case None => !SomeWaiting(s)
    case Some(w) => Is(s, w, Waiting)
  }

  predicate Can(s: State, step: Step) {
    match step
    case BeginPush(_) => true
    case LockPush(p, woken) => p in s.arriving && (Full(s) || MayWake(s, woken))
    case Stop => true
    case Turn(w) => Is(s, w, Ready)
    case Handle(w) => w < |s.workers| && s.workers[w].Holding?
    case WakeUp(w) => Is(s, w, Waiting)
  }

  // The unlocked look at the stop flag: when set, the packet is freed at once.
  function Begun(s: State, p: Packet): State {
    if s.stop then s.(freed := s.freed + multiset{p}, returnedTrue := s.returnedTrue + multiset{p})
    else s.(arriving := s.arriving + multiset{p})
  }

  // The flag is not looked at again under the lock.
  function Pushed(s: State, p: Packet, woken: Option<nat>): State
    requires Can(s, LockPush(p, woken))
  {
    var t := s.(arriving := s.arriving - multiset{p});
    if Full(s) then t
    else
      t.(queue := s.queue + [p], accepted := s.accepted + [p],
         returnedTrue := s.returnedTrue + multiset{p},
         workers := if woken.Some? then s.workers[woken.value := Ready] else s.workers,
         late := if AllExited(s) then s.late + [p] else s.late)
  }

  function AllWoken(workers: seq<Worker>): (r: seq<Worker>)
    ensures |r| == |workers|
    ensures forall w :: 0 <= w < |r| ==> r[w] == if workers[w].Waiting? then Ready else workers[w]
  {
    seq(|workers|, w requires 0 <= w < |workers| => if workers[w].Waiting? then Ready else workers[w])
  }

  function Stopped(s: State): State {
    s.(stop := true, workers := AllWoken(s.workers))
  }

  // Under the lock: leave and free everything, go to sleep, or take a packet.
  function Turned(s: State, w: nat): State
    requires Can(s, Turn(w))
  {
    if s.stop then
      s.(workers := s.workers[w := Exited], queue := [], popped := s.popped + s.queue,
         freed := s.freed + multiset(s.queue))
    else if s.queue == [] then s.(workers := s.workers[w := Waiting])
    else
      s.(workers := s.workers[w := Holding(s.queue[0])], queue := s.queue[1..], popped := s.popped + [s.queue[0]])
  }

  function Handled(s: State, w: nat): State
    requires Can(s, Handle(w))
  {
    s.(workers := s.workers[w := Ready], handled := s.handled + multiset{s.workers[w].packet})
  }

  function After(s: State, step: Step): State
    requires Can(s, step)
  {
    match step
    case BeginPush(p) => Begun(s, p)
    case LockPush(p, woken) => Pushed(s, p, woken)
    case Stop => Stopped(s)
    case Turn(w) => Turned(s, w)
    case Handle(w) => Handled(s, w)
    case WakeUp(w) => s.(workers := s.workers[w := Ready])
  }

  predicate IsRun(s: State, steps: seq<Step>)
    decreases |steps|
  {
    steps == [] || (Can(s, steps[0]) && IsRun(After(s, steps[0]), steps[1..]))
  }

  function Last(s: State, steps: seq<Step>): State
    requires IsRun(s, steps)
    decreases |steps|
  {
    if steps == [] then s else Last(After(s, steps[0]), steps[1..])
  }

  // ------------------------------------------------------------- what is kept

  function HeldBy(k: Worker): multiset<Packet> {
    if k.Holding? then multiset{k.packet} else multiset{}
  }

  function Held(workers: seq<Worker>): multiset<Packet> {
    if workers == [] then multiset{} else Held(workers[..|workers| - 1]) + HeldBy(workers[|workers| - 1])
  }

  function Readies(workers: seq<Worker>): nat {
    if workers == [] then 0
    else Readies(workers[..|workers| - 1]) + if workers[|workers| - 1].Ready? then 1 else 0
  }

  // Every packet whose push returned true is queued, held, handled or freed.
  predicate Conserved(s: State) {
    s.returnedTrue == multiset(s.queue) + Held(s.workers) + s.handled + s.freed
  }

  // Packets leave in the order they were accepted.
  predicate Fifo(s: State) {
    s.accepted == s.popped + s.queue
  }

  predicate Bounded(s: State) {
    s.max > 0 ==> |s.queue| <= s.max + 1
  }

  // Nobody sleeps while there are more packets than workers on their way to them.
  predicate NoLostWakeUp(s: State) {
    !SomeWaiting(s) || |s.queue| <= Readies(s.workers)
  }

  predicate StopWakes(s: State) {
    (s.stop ==> !SomeWaiting(s)) && (Exited in s.workers ==> s.stop)
  }

  // With every worker gone, just the pushes that came later are still queued.
  predicate OnlyLateLeft(s: State) {
    if AllExited(s) && s.workers != [] then s.queue == s.late else s.late == []
  }

  predicate Inv(s: State) {
    Conserved(s) && Fifo(s) && Bounded(s) && NoLostWakeUp(s) && StopWakes(s) && (s.workers != [] ==> OnlyLateLeft(s))
  }

  lemma Exchange(a: multiset<Packet>, b: multiset<Packet>, c: multiset<Packet>)
    ensures (a + b) + c == (a + c) + b
  {
  }

  // Worker w's share taken out.
  lemma {:induction false} HeldShare(workers: seq<Worker>, w: nat)
    requires w < |workers|
    ensures Held(workers) == Held(workers[w := Exited]) + HeldBy(workers[w])
  {
    hide HeldBy;
    var last := |workers| - 1;
    var front, rest := workers[..last], workers[w := Exited];
    HoldsNothing();
    if w == last {
      assert rest[..last] == front;
    } else {
      assert rest[..last] == front[w := Exited];
      HeldShare(front, w);
      Exchange(Held(front[w := Exited]), HeldBy(workers[w]), HeldBy(workers[last]));
    }
  }

  lemma HoldsNothing()
    ensures HeldBy(Exited) == multiset{}
  {
  }

  lemma HeldChange(workers: seq<Worker>, w: nat, k: Worker)
    requires w < |workers|
    ensures Held(workers) == Held(workers[w := Exited]) + HeldBy(workers[w])
    ensures Held(workers[w := k]) == Held(workers[w := Exited]) + HeldBy(k)
    ensures HeldBy(workers[w]) == HeldBy(k) ==> Held(workers[w := k]) == Held(workers)
  {
    hide Held, HeldBy;
    HeldShare(workers, w);
    HeldShare(workers[w := k], w);
    assert workers[w := k][w := Exited] == workers[w := Exited];
  }

  lemma {:induction false} ReadiesChange(workers: seq<Worker>, w: nat, k: Worker)
    requires w < |workers|
    ensures Readies(workers[w := k]) + (if workers[w].Ready? then 1 else 0)
         == Readies(workers) + (if k.Ready? then 1 else 0)
  {
    var last := |workers| - 1;
    if w == last {
      assert workers[w := k][..last] == workers[..last];
    } else {
      assert workers[w := k][..last] == workers[..last][w := k];
      ReadiesChange(workers[..last], w, k);
    }
  }

  lemma {:induction false} HeldWhenWoken(workers: seq<Worker>)
    ensures Held(AllWoken(workers)) == Held(workers)
  {
    var last := |workers| - 1;
    if workers != [] {
      assert AllWoken(workers)[..last] == AllWoken(workers[..last]);
      HeldWhenWoken(workers[..last]);
    }
  }

  lemma {:induction false} InitialQuiet(workers: nat)
    ensures Held(seq(workers, _ => Ready)) == multiset{}
  {
    if workers > 0 {
      assert seq(workers, _ => Ready)[..workers - 1] == seq(workers - 1, _ => Ready);
      InitialQuiet(workers - 1);
    }
  }

  lemma InitialInv(workers: nat, max: int)
    ensures Inv(Initial(workers, max))
  {
    InitialQuiet(workers);
    var s := Initial(workers, max);
    assert workers > 0 ==> s.workers[0] == Ready;
  }

  lemma ConservedStep(s: State, step: Step)
    requires Can(s, step) && Conserved(s)
    ensures Conserved(After(s, step))
  {
    hide Held, AllExited, Handled, Turned, Pushed;
    match step
    case BeginPush(p) =>
    case LockPush(p, woken) => ConservedPush(s, p, woken);
    case Stop => HeldWhenWoken(s.workers);
    case Turn(w) => ConservedTurn(s, w);
    case Handle(w) => ConservedHandle(s, w);
    case WakeUp(w) => HeldChange(s.workers, w, Ready);
  }

  lemma ConservedHandle(s: State, w: nat)
    requires Can(s, Handle(w)) && Conserved(s)
    ensures Conserved(Handled(s, w))
  {
    hide Held, AllExited;
    HeldChange(s.workers, w, Ready);
    MovePacket(multiset(s.queue), Held(s.workers[w := Exited]), HeldBy(s.workers[w]), s.handled, s.freed);
  }

  lemma ConservedPush(s: State, p: Packet, woken: Option<nat>)
    requires Can(s, LockPush(p, woken)) && Conserved(s)
    ensures Conserved(Pushed(s, p, woken))
  {
    hide Held, AllExited;
    if !Full(s) && woken.Some? {
      HeldChange(s.workers, woken.value, Ready);
    }
  }

  lemma ConservedTurn(s: State, w: nat)
    requires Can(s, Turn(w)) && Conserved(s)
    ensures Conserved(Turned(s, w))
  {
    hide Held;
    HeldChange(s.workers, w, Turned(s, w).workers[w]);
    if !s.stop && s.queue != [] {
      assert s.queue == [s.queue[0]] + s.queue[1..];
      MovePacket(multiset(s.queue[1..]), Held(s.workers), multiset{s.queue[0]}, s.handled, s.freed);
    } else if s.stop {
      FreeQueue(multiset(s.queue), Held(s.workers), s.handled, s.freed);
    }
  }

  lemma MovePacket(q: multiset<Packet>, h: multiset<Packet>, p: multiset<Packet>, d: multiset<Packet>, f: multiset<Packet>)
    ensures p + q + h + d + f == q + (h + p) + d + f
    ensures q + (h + p) + d + f == q + h + (d + p) + f
  {
  }

  lemma FreeQueue(q: multiset<Packet>, h: multiset<Packet>, d: multiset<Packet>, f: multiset<Packet>)
    ensures q + h + d + f == multiset{} + h + d + (f + q)
  {
  }

  lemma FifoStep(s: State, step: Step)
    requires Can(s, step) && Fifo(s) && Bounded(s)
    ensures Fifo(After(s, step)) && Bounded(After(s, step))
  {
    if step.Turn? && !s.stop && s.queue != [] {
      assert s.queue == [s.queue[0]] + s.queue[1..];
    }
  }

  lemma NoLostWakeUpStep(s: State, step: Step)
    requires Can(s, step) && NoLostWakeUp(s) && StopWakes(s)
    ensures NoLostWakeUp(After(s, step))
  {
    match step
    case BeginPush(p) =>
    case LockPush(p, woken) =>
      if !Full(s) && woken.Some? {
        ReadiesChange(s.workers, woken.value, Ready);
      }
    case Stop =>
    case Turn(w) =>
      ReadiesChange(s.workers, w, After(s, step).workers[w]);
      if SomeWaiting(After(s, step)) {
        WaitingBefore(s.workers, w, After(s, step).workers[w]);
      }
    case Handle(w) =>
      ReadiesChange(s.workers, w, Ready);
      if SomeWaiting(After(s, step)) {
        WaitingBefore(s.workers, w, Ready);
      }
    case WakeUp(w) => ReadiesChange(s.workers, w, Ready);
  }

  lemma WaitingBefore(workers: seq<Worker>, w: nat, k: Worker)
    requires w < |workers| && Waiting in workers[w := k]
    ensures Waiting in workers || k.Waiting?
  {
    var i :| 0 <= i < |workers| && workers[w := k][i] == Waiting;
    assert i != w ==> workers[i] == Waiting;
  }

  lemma StopWakesStep(s: State, step: Step)
    requires Can(s, step) && StopWakes(s)
    ensures StopWakes(After(s, step))
  {
  }

  lemma OnlyLateLeftPush(s: State, p: Packet, woken: Option<nat>)
    requires Can(s, LockPush(p, woken)) && StopWakes(s) && OnlyLateLeft(s) && s.workers != []
    ensures OnlyLateLeft(Pushed(s, p, woken)) && Pushed(s, p, woken).workers != []
  {
    var t := Pushed(s, p, woken);
    assert AllExited(s) ==> t.workers == s.workers;
    if !Full(s) && woken.Some? { assert t.workers[woken.value] == Ready; }
  }

  lemma OnlyLateLeftTurn(s: State, w: nat)
    requires Can(s, Turn(w)) && StopWakes(s) && OnlyLateLeft(s) && s.workers != []
    ensures OnlyLateLeft(Turned(s, w)) && Turned(s, w).workers != []
  {
    var t := Turned(s, w);
    assert !AllExited(s);
    if !s.stop { assert !t.workers[w].Exited?; }
  }

  lemma OnlyLateLeftStep(s: State, step: Step)
    requires Can(s, step) && StopWakes(s) && OnlyLateLeft(s) && s.workers != []
    ensures OnlyLateLeft(After(s, step)) && After(s, step).workers != []
  {
    hide Turned, Pushed;
    var t := After(s, step);
    match step
    case BeginPush(p) =>
    case LockPush(p, woken) => OnlyLateLeftPush(s, p, woken);
    case Stop => assert forall w :: 0 <= w < |s.workers| ==> t.workers[w].Exited? == s.workers[w].Exited?;
    case Turn(w) => OnlyLateLeftTurn(s, w);
    case Handle(w) => assert !t.workers[w].Exited? && !s.workers[w].Exited?;
    case WakeUp(w) => assert !t.workers[w].Exited? && !s.workers[w].Exited?;
  }

  lemma StepKeeps(s: State, step: Step)
    requires Can(s, step) && Inv(s)
    ensures Inv(After(s, step))
  {
    hide Conserved, Fifo, Bounded, NoLostWakeUp, StopWakes, OnlyLateLeft, After, Can;
    ConservedStep(s, step);
    FifoStep(s, step);
    NoLostWakeUpStep(s, step);
    StopWakesStep(s, step);
    SameCrew(s, step);
    if s.workers != [] {
      OnlyLateLeftStep(s, step);
    }
  }

  lemma SameCrew(s: State, step: Step)
    requires Can(s, step)
    ensures |After(s, step).workers| == |s.workers| && After(s, step).max == s.max
  {
  }

  lemma {:induction false} RunKeeps(s: State, steps: seq<Step>)
    requires Inv(s) && IsRun(s, steps)
    ensures Inv(Last(s, steps)) && |Last(s, steps).workers| == |s.workers| && Last(s, steps).max == s.max
    decreases |steps|
  {
    hide Inv, Can, After;
    if steps != [] {
      StepKeeps(s, steps[0]);
      SameCrew(s, steps[0]);
      RunKeeps(After(s, steps[0]), steps[1..]);
    }
  }

  // ------------------------------------------------------------ main results

  lemma ConservationAndOrder(workers: nat, max: int, steps: seq<Step>)
    requires IsRun(Initial(workers, max), steps)
    ensures var s := Last(Initial(workers, max), steps);
            s.returnedTrue == multiset(s.queue) + Held(s.workers) + s.handled + s.freed
            && s.accepted == s.popped + s.queue
            && (max > 0 ==> |s.queue| <= max + 1)
  {
    hide Held, IsRun, Last;
    InitialInv(workers, max);
    RunKeeps(Initial(workers, max), steps);
  }

  lemma {:induction false} NoReadyMeansZero(workers: seq<Worker>)
    requires Ready !in workers
    ensures Readies(workers) == 0
  {
    if workers != [] {
      NoReadyMeansZero(workers[..|workers| - 1]);
      assert workers[|workers| - 1] in workers;
    }
  }

  // A worker can go on by itself: it takes its turn or finishes its packet.
  predicate Enabled(s: State, w: nat) {
    w < |s.workers| && (s.workers[w].Ready? || s.workers[w].Holding?)
  }

  // In no reachable state is every worker blocked over a queue that is not empty,
  // and once stopped no worker is blocked.
  lemma NobodySleepsOverWork(workers: nat, max: int, steps: seq<Step>)
    requires workers > 0 && IsRun(Initial(workers, max), steps)
    ensures var s := Last(Initial(workers, max), steps);
            (!s.stop && s.queue != [] ==> exists w :: Enabled(s, w))
            && (s.stop ==> !SomeWaiting(s))
  {
    hide IsRun, Last;
    InitialInv(workers, max);
    RunKeeps(Initial(workers, max), steps);
    var s := Last(Initial(workers, max), steps);
    if !s.stop && s.queue != [] {
      Awake(s);
    }
  }

  lemma Awake(s: State)
    requires NoLostWakeUp(s) && StopWakes(s) && !s.stop && s.queue != [] && s.workers != []
    ensures exists w :: Enabled(s, w)
  {
    if Ready in s.workers {
      var w :| 0 <= w < |s.workers| && s.workers[w] == Ready;
      assert Enabled(s, w);
    } else {
      NoReadyMeansZero(s.workers);
      assert s.workers[0] in s.workers;
      assert Enabled(s, 0);
    }
  }

  // ---------------------------------------------------------------- progress

  // What is left to do for the workers alone.
  function Work(workers: seq<Worker>): nat {
    if workers == [] then 0
    else Work(workers[..|workers| - 1]) + Weight(workers[|workers| - 1])
  }

  function Weight(k: Worker): nat {
    match k
    case Ready => 1
    case Holding(_) => 2
    case Waiting => 0
    case Exited => 0
  }

  lemma {:induction false} WorkChange(workers: seq<Worker>, w: nat, k: Worker)
    requires w < |workers|
    ensures Work(workers[w := k]) + Weight(workers[w]) == Work(workers) + Weight(k)
  {
    var last := |workers| - 1;
    if w == last {
      assert workers[w := k][..last] == workers[..last];
    } else {
      assert workers[w := k][..last] == workers[..last][w := k];
      WorkChange(workers[..last], w, k);
    }
  }

  predicate IsWorkerStep(step: Step) {
    step.Turn? || step.Handle?
  }

  function Left(s: State): nat {
    2 * |s.queue| + Work(s.workers)
  }

  lemma WorkerStepCounts(s: State, step: Step)
    requires Can(s, step) && IsWorkerStep(step)
    ensures Left(After(s, step)) < Left(s)
  {
    WorkChange(s.workers, step.worker, After(s, step).workers[step.worker]);
  }

  // However the workers are scheduled, they come to rest within Left(s) steps.
  lemma {:induction false} WorkersComeToRest(s: State, steps: seq<Step>)
    requires IsRun(s, steps) && forall i :: 0 <= i < |steps| ==> IsWorkerStep(steps[i])
    ensures |steps| + Left(Last(s, steps)) <= Left(s)
    decreases |steps|
  {
    hide Can, After, Left, IsWorkerStep;
    if steps != [] {
      WorkerStepCounts(s, steps[0]);
      WorkersComeToRest(After(s, steps[0]), steps[1..]);
    }
  }

  // And at rest everything accepted has been handled or freed: the queue is empty
  // unless the last packets came when every worker had left.
  lemma AtRestQueueIsEmpty(s: State)
    requires Inv(s) && s.workers != [] && !(exists w :: Enabled(s, w))
    ensures if s.stop then AllExited(s) && s.queue == s.late else s.queue == []
    ensures Held(s.workers) == multiset{}
  {
    if !s.stop && s.queue != [] {
      Awake(s);
    }
    forall w | 0 <= w < |s.workers| ensures s.workers[w].Exited? || s.workers[w].Waiting? {
      assert !Enabled(s, w);
    }
    NobodyHolds(s.workers);
    if s.stop {
      forall w | 0 <= w < |s.workers| ensures s.workers[w].Exited? {
        assert s.workers[w] in s.workers;
      }
    }
  }

  lemma {:induction false} NobodyHolds(workers: seq<Worker>)
    requires forall w :: 0 <= w < |workers| ==> !workers[w].Holding?
    ensures Held(workers) == multiset{}
  {
    if workers != [] {
      NobodyHolds(workers[..|workers| - 1]);
    }
  }

  // A push is accepted, behind all others, exactly when there is no limit or not more
  // than the limit are queued; otherwise it leaves the queue and the workers alone.
  lemma PushAcceptedIff(s: State, p: Packet, woken: Option<nat>)
    requires Can(s, LockPush(p, woken))
    ensures var t := After(s, LockPush(p, woken));
            && (s.max <= 0 || |s.queue| <= s.max <==> t.accepted == s.accepted + [p])
            && (s.max <= 0 || |s.queue| <= s.max ==> t.queue == s.queue + [p])
            && (s.max > 0 && |s.queue| > s.max ==> t.queue == s.queue && t.workers == s.workers && t.accepted == s.accepted)
  {
    assert |s.accepted + [p]| == |s.accepted| + 1;
  }

  // So a limit m lets m + 1 packets in, and the next one not.
  lemma LimitReached(s: State, p: Packet, woken: Option<nat>)
    requires Inv(s) && s.max > 0 && Can(s, LockPush(p, woken))
    ensures After(s, LockPush(p, woken)).queue == s.queue <==> |s.queue| == s.max + 1
  {
    PushAcceptedIff(s, p, woken);
    assert |s.queue + [p]| == |s.queue| + 1;
  }

  // The flag is read outside the lock: a push that read it before stop and takes the
  // lock after the last worker has left returns true and its packet stays queued.
  lemma LatePushStaysQueued(max: int, p: Packet)
    ensures var steps := [BeginPush(p), Stop, Turn(0), LockPush(p, None)];
            IsRun(Initial(1, max), steps)
            && (var s := Last(Initial(1, max), steps);
                AllExited(s) && s.queue == [p] && p in s.returnedTrue && s.late == [p])
  {
    hide IsRun, Last, Can, After, AllExited;
    var s0 := Initial(1, max);
    LateStates(max, p);
    var s1 := After(s0, BeginPush(p));
    var s2 := After(s1, Stop);
    var s3 := After(s2, Turn(0));
    NoSteps(After(s3, LockPush(p, None)));
    OneStep(s3, LockPush(p, None), []);
    OneStep(s2, Turn(0), [LockPush(p, None)] + []);
    OneStep(s1, Stop, [Turn(0)] + ([LockPush(p, None)] + []));
    OneStep(s0, BeginPush(p), [Stop] + ([Turn(0)] + ([LockPush(p, None)] + [])));
    assert [BeginPush(p)] + ([Stop] + ([Turn(0)] + ([LockPush(p, None)] + [])))
        == [BeginPush(p), Stop, Turn(0), LockPush(p, None)];
  }

  lemma LateStates(max: int, p: Packet)
    ensures var s0 := Initial(1, max);
            Can(s0, BeginPush(p)) && (var s1 := After(s0, BeginPush(p));
            Can(s1, Stop) && (var s2 := After(s1, Stop);
            Can(s2, Turn(0)) && (var s3 := After(s2, Turn(0));
            Can(s3, LockPush(p, None)) && (var s := After(s3, LockPush(p, None));
            AllExited(s) && s.queue == [p] && p in s.returnedTrue && s.late == [p]))))
  {
    hide IsRun, Last;
    var s1 := After(Initial(1, max), BeginPush(p));
    assert s1.workers == [Ready];
    var s2 := After(s1, Stop);
    assert s2.workers == [Ready];
    var s3 := After(s2, Turn(0));
    assert s3.workers == [Exited];
  }

  lemma NoSteps(s: State)
    ensures IsRun(s, []) && Last(s, []) == s
  {
  }

  lemma OneStep(s: State, step: Step, rest: seq<Step>)
    requires Can(s, step) && IsRun(After(s, step), rest)
    ensures IsRun(s, [step] + rest) && Last(s, [step] + rest) == Last(After(s, step), rest)
  {
    assert ([step] + rest)[1..] == rest;
  }

  // ------------------------------------------------------------------ the code

  // QueueThread with its CDataQueue; the methods are the regions between taking and
  // giving up the lock. `threads` says where each worker of the thread manager is.
  class QueueThread {
    const max: int
    var stop: bool
    var queue: seq<Packet>
    var threads: seq<Worker>
    ghost var s: State

    ghost predicate Valid()
      reads this
    {
      Inv(s) && s.stop == stop && s.max == max && s.queue == queue && s.workers == threads
    }

    constructor (workers: nat, maxSize: int)
      ensures Valid() && s == Initial(workers, maxSize)
    {
      max, stop, queue := maxSize, false, [];
      threads := seq(workers, _ => Ready);
      s := Initial(workers, maxSize);
      InitialInv(workers, maxSize);
    }

    // push, up to the lock; `finished` when the packet is freed without it.
    method BeginPush(p: Packet) returns (finished: bool)
      requires Valid()
      modifies this
      ensures Valid() && s == After(old(s), Step.BeginPush(p))
      ensures finished == stop == old(stop) && queue == old(queue) && threads == old(threads)
      ensures stop ==> s.freed == old(s).freed + multiset{p} && s.arriving == old(s).arriving
      ensures !stop ==> s.freed == old(s).freed && s.arriving == old(s).arriving + multiset{p}
    {
      hide Inv;
      StepKeeps(s, Step.BeginPush(p));
      s := After(s, Step.BeginPush(p));
      finished := stop;
    }

    // push, under the lock: CDataQueue::push, then signal.
    method LockPush(p: Packet, woken: Option<nat>) returns (ok: bool)
      requires Valid() && Can(s, Step.LockPush(p, woken))
      modifies this
      ensures Valid() && s == After(old(s), Step.LockPush(p, woken))
      ensures ok <==> max <= 0 || |old(queue)| <= max
      ensures queue == if ok then old(queue) + [p] else old(queue)
      ensures threads == if ok && woken.Some? then old(threads)[woken.value := Ready] else old(threads)
      ensures stop == old(stop)
    {
      hide Inv;
      StepKeeps(s, Step.LockPush(p, woken));
      s := After(s, Step.LockPush(p, woken));
      if |queue| > max && max > 0 { return false; }
      queue := queue + [p];
      if woken.Some? {
        threads := threads[woken.value := Ready];
      }
      ok := true;
    }

    method StopAll()
      requires Valid()
      modifies this
      ensures Valid() && s == After(old(s), Step.Stop)
      ensures stop && queue == old(queue) && |threads| == |old(threads)|
      ensures forall w :: 0 <= w < |threads| ==>
                threads[w] == if old(threads)[w] == Waiting then Ready else old(threads)[w]
    {
      hide Inv;
      StepKeeps(s, Step.Stop);
      s := After(s, Step.Stop);
      stop := true;
      threads := AllWoken(threads);
    }

    // run, from taking the lock to the next wait, unlock or return.
    method Turn(w: nat) returns (p: Option<Packet>)
      requires Valid() && Can(s, Step.Turn(w))
      modifies this
      ensures Valid() && s == After(old(s), Step.Turn(w))
      ensures p == if old(stop) || old(queue) == [] then None else Some(old(queue)[0])
      ensures queue == if old(stop) || old(queue) == [] then [] else old(queue)[1..]
      ensures w < |old(threads)|
              && threads == old(threads)[w := if old(stop) then Exited
                                              else if old(queue) == [] then Waiting else Holding(old(queue)[0])]
      ensures stop == old(stop)
    {
      hide Inv;
      StepKeeps(s, Step.Turn(w));
      s := After(s, Step.Turn(w));
      p := None;
      if stop {
        FreeAll();
        threads := threads[w := Exited];
      } else if |queue| <= 0 {
        threads := threads[w := Waiting];
      } else {
        p := Some(queue[0]);
        queue := queue[1..];
        threads := threads[w := Holding(p.value)];
      }
    }

    // `while ((p = _queue->pop()) != NULL) _queue->free(p)`
    method FreeAll()
      modifies this`queue
      ensures queue == []
    {
      while queue != []
        decreases |queue|
      {
        queue := queue[1..];
      }
    }

    // handle_queue has come back.
    method Handle(w: nat)
      requires Valid() && Can(s, Step.Handle(w))
      modifies this
      ensures Valid() && s == After(old(s), Step.Handle(w))
      ensures w < |old(threads)| && threads == old(threads)[w := Ready] && queue == old(queue) && stop == old(stop)
    {
      hide Inv;
      StepKeeps(s, Step.Handle(w));
      s := After(s, Step.Handle(w));
      threads := threads[w := Ready];
    }
  }
}
