/** The send path of one TCP connection (tcpcomponent.cpp): two packet queues and a
    buffer, posts from any thread at any time, partial writes, and the write-event
    flag. */
module TcpSend {
  import opened Bytes
  import opened DataBuffers

  const MAX_WRITES := 10

  // A packet is what it holds to send.
  type Packet = seq<byte>

  lemma {:induction false} FlattenAppend(a: seq<Packet>, b: seq<Packet>)
    ensures Flatten(a + b) == Flatten(a) + Flatten(b)
  {
    if a == [] {
      assert a + b == b && Flatten(a) + Flatten(b) == Flatten(b);
    } else {
      assert (a + b)[1..] == a[1..] + b;
      FlattenAppend(a[1..], b);
      assert a[0] + (Flatten(a[1..]) + Flatten(b)) == a[0] + Flatten(a[1..]) + Flatten(b);
    }
  }

  // write_data's `packet`: not assigned yet, a packet, or NULL. Unassigned it is
  // read when the buffer starts full, and may then be anything.
  datatype Popped = Unset | Got | Null

  // Where write_data stands; Sending(n, _) after n socket writes.
  datatype Writer = Idle | Sending(writes: nat, packet: Popped) | Ending

  datatype Send = Send(
    outQ: seq<Packet>, myQ: seq<Packet>, output: seq<byte>,
    armed: bool,            // the write event is enabled
    finishClose: bool,      // _write_finish_close
    writer: Writer,
    sent: seq<byte>,        // what the socket has taken
    posted: seq<Packet>,    // every packet posted, in order
    closing: bool)          // finishClose has been set at some time

  datatype Step =
    | Post(p: Packet)
    | SetFinishClose(v: bool)
    | Begin
    | Fill
    | PopNull
    | Write(ret: int, again: bool)
    | Nothing
    | End

  predicate MustWrite(s: Send) {
    s.writer.Sending? && (|s.output| >= READ_WRITE_SIZE || s.writer.packet == Null)
  }

  // The loop condition after a write of `ret` bytes, whatever an unassigned packet
  // decides.
  predicate MayGoOn(s: Send, ret: int)
    requires s.writer.Sending?
  {
    ret > 0 && ret == |s.output| && s.writer.packet != Null && s.writer.writes + 1 < MAX_WRITES
  }

  predicate Enabled(s: Send, step: Step) {
    match step
    case Post(_) => true
    case SetFinishClose(_) => true
    case Begin => s.writer == Idle
    case Fill => s.writer.Sending? && |s.output| < READ_WRITE_SIZE && s.myQ != [] && s.writer.packet != Null
    case PopNull => s.writer.Sending? && |s.output| < READ_WRITE_SIZE && s.myQ == [] && s.writer.packet != Null
    case Write(ret, again) =>
      && MustWrite(s) && s.output != [] && ret <= |s.output|
      && (again ==> MayGoOn(s, ret)) && (MayGoOn(s, ret) && s.writer.packet == Got ==> again)
    case Nothing => MustWrite(s) && s.output == []
    case End => s.writer == Ending
  }

  function Pending(s: Send): bool {
    s.outQ != [] || s.myQ != [] || s.output != []
  }

  function Next(s: Send, step: Step): Send
    requires Enabled(s, step)
  {
    match step
    case Post(p) =>
      s.(outQ := s.outQ + [p], posted := s.posted + [p], armed := s.armed || |s.outQ| == 0)
    case SetFinishClose(v) => s.(finishClose := v, closing := s.closing || v)
    case Begin =>
      var t := s.(myQ := s.myQ + s.outQ, outQ := []);
      if t.myQ == [] && t.output == [] then t.(armed := false) else t.(writer := Sending(0, Unset))
    case Fill => s.(output := s.output + s.myQ[0], myQ := s.myQ[1..], writer := s.writer.(packet := Got))
    case PopNull => s.(writer := s.writer.(packet := Null))
    case Write(ret, again) =>
      var n := if ret > 0 then ret else 0;
      s.(output := s.output[n..], sent := s.sent + s.output[..n],
         writer := if again then s.writer.(writes := s.writer.writes + 1) else Ending)
    case Nothing => s.(writer := Ending)
    case End => s.(writer := Idle, armed := s.armed && Pending(s) && !s.finishClose)
  }

  // Sent, then buffered, then queued: exactly what was posted, in posting order.
  predicate InOrder(s: Send) {
    s.sent + s.output + Flatten(s.myQ) + Flatten(s.outQ) == Flatten(s.posted)
  }

  // Data that waits will be written: the write event is enabled.
  predicate Armed(s: Send) {
    !s.closing ==> !s.finishClose && (Pending(s) ==> s.armed)
  }

  lemma StepInOrder(s: Send, step: Step)
    requires InOrder(s) && Enabled(s, step)
    ensures InOrder(Next(s, step))
  {
    match step
    case Post(p) => PostInOrder(s, p);
    case Begin => BeginInOrder(s);
    case Fill => FillInOrder(s);
    case Write(ret, again) => WriteInOrder(s, ret, again);
    case _ =>
  }

  lemma PostInOrder(s: Send, p: Packet)
    requires InOrder(s)
    ensures InOrder(Next(s, Post(p)))
  {
    hide Flatten;
    FlattenAppend(s.outQ, [p]);
    FlattenAppend(s.posted, [p]);
    Regroup(s.sent + s.output, Flatten(s.myQ), Flatten(s.outQ), Flatten([p]));
  }

  lemma BeginInOrder(s: Send)
    requires InOrder(s) && Enabled(s, Begin)
    ensures InOrder(Next(s, Begin))
  {
    FlattenAppend(s.myQ, s.outQ);
    assert Flatten([]) == [];
    Regroup(s.sent + s.output, Flatten(s.myQ), Flatten(s.outQ), []);
    assert Flatten(s.outQ) + [] == Flatten(s.outQ);
  }

  lemma FillInOrder(s: Send)
    requires InOrder(s) && Enabled(s, Fill)
    ensures InOrder(Next(s, Fill))
  {
    assert Flatten(s.myQ) == s.myQ[0] + Flatten(s.myQ[1..]);
    Regroup(s.sent, s.output, s.myQ[0], Flatten(s.myQ[1..]));
  }

  lemma WriteInOrder(s: Send, ret: int, again: bool)
    requires InOrder(s) && Enabled(s, Write(ret, again))
    ensures InOrder(Next(s, Write(ret, again)))
  {
    hide Flatten;
    var n := if ret > 0 then ret else 0;
    assert s.output[..n] + s.output[n..] == s.output;
    Regroup(s.sent, s.output[..n], s.output[n..], []);
    assert s.sent + s.output[..n] + s.output[n..] == s.sent + s.output;
  }

  lemma Regroup(a: seq<byte>, b: seq<byte>, c: seq<byte>, d: seq<byte>)
    ensures a + (b + c) + d == a + b + (c + d)
  {
  }

  lemma StepArmed(s: Send, step: Step)
    requires Armed(s) && Enabled(s, step)
    ensures Armed(Next(s, step))
  {
  }

  predicate IsRun(s: Send, steps: seq<Step>)
    decreases |steps|
  {
    steps == [] || (Enabled(s, steps[0]) && IsRun(Next(s, steps[0]), steps[1..]))
  }

  function After(s: Send, steps: seq<Step>): Send
    requires IsRun(s, steps)
    decreases |steps|
  {
    if steps == [] then s else After(Next(s, steps[0]), steps[1..])
  }

  // Nothing sent yet in this connection; what was posted is still queued.
  predicate Start(s: Send) {
    s.sent == [] && s.output == [] && s.myQ == [] && s.outQ == s.posted && s.writer == Idle && Armed(s)
  }

  // For all interleavings of posts with the writer, and all partial and failed
  // writes.
  lemma {:induction false} RunInOrder(s: Send, steps: seq<Step>)
    requires InOrder(s) && Armed(s) && IsRun(s, steps)
    ensures InOrder(After(s, steps)) && Armed(After(s, steps))
    decreases |steps|
  {
    hide InOrder, Armed, Enabled, Next;
    if steps != [] {
      StepInOrder(s, steps[0]);
      StepArmed(s, steps[0]);
      RunInOrder(Next(s, steps[0]), steps[1..]);
    }
  }

  lemma NothingLostNorReordered(s: Send, steps: seq<Step>)
    requires Start(s) && IsRun(s, steps)
    ensures var t := After(s, steps);
            && t.sent + t.output + Flatten(t.myQ) + Flatten(t.outQ) == Flatten(t.posted)
            && t.sent <= Flatten(t.posted)
            && (!t.closing && Pending(t) ==> t.armed)
            && (t.sent == Flatten(t.posted) <==> t.output == [] && Flatten(t.myQ) == [] && Flatten(t.outQ) == [])
  {
    hide IsRun, Flatten;
    StartInOrder(s);
    RunInOrder(s, steps);
    var t := After(s, steps);
    SentIsPrefix(t.sent, t.output, Flatten(t.myQ), Flatten(t.outQ));
  }

  lemma StartInOrder(s: Send)
    requires Start(s)
    ensures InOrder(s)
  {
    assert [] + [] + Flatten([]) + Flatten(s.outQ) == Flatten(s.outQ);
  }

  lemma SentIsPrefix(a: seq<byte>, b: seq<byte>, c: seq<byte>, d: seq<byte>)
    ensures a <= a + b + c + d
    ensures a == a + b + c + d <==> b == [] && c == [] && d == []
  {
    var all := a + b + c + d;
    assert all[..|a|] == a;
    if a == all { assert |b| + |c| + |d| == 0; }
  }

  // Closing after the write finishes gives the promise up: the end of write_data
  // leaves waiting data without a write event exactly when the flag is set.
  lemma EndDisarmsIff(s: Send)
    requires Enabled(s, End) && s.armed && Pending(s)
    ensures !Next(s, End).armed <==> s.finishClose
  {
  }

  // ---------- progress ----------

  // What is left to do, counted in packets.
  function Left(s: Send): nat {
    |s.outQ| + |s.myQ| + if s.output != [] then 1 else 0
  }

  // One write event, undisturbed, with a socket that takes whatever it is given.
  // `guess` is what an unassigned packet happens to be.
  function Drained(s: Send, guess: bool): Send
    requires s.writer == Idle
  {
    var t := Next(s, Begin);
    if t.writer == Idle then t else Next(SendAll(t, guess), End)
  }

  // The rest of write_data under those conditions.
  function SendAll(s: Send, guess: bool): (t: Send)
    requires s.writer.Sending? && s.writer.writes < MAX_WRITES
    ensures t.writer == Ending && t.outQ == s.outQ && t.posted == s.posted
    ensures t.finishClose == s.finishClose && t.closing == s.closing && t.armed == s.armed
    decreases MAX_WRITES - s.writer.writes, |s.myQ|, if s.writer.packet == Null then 0 else 1
  {
    if Enabled(s, Fill) then SendAll(Next(s, Fill), guess)
    else if Enabled(s, PopNull) then SendAll(Next(s, PopNull), guess)
    else if s.output == [] then Next(s, Nothing)
    else
      var again := MayGoOn(s, |s.output|) && (s.writer.packet == Unset ==> guess);
      var t := Next(s, Write(|s.output|, again));
      if again then SendAll(t, guess) else t
  }

  lemma {:induction false} SendAllProgress(s: Send, guess: bool)
    requires s.writer.Sending? && s.writer.writes < MAX_WRITES
    ensures SendAll(s, guess).output == [] && |SendAll(s, guess).myQ| <= |s.myQ|
    ensures Enabled(s, Fill) ==> |SendAll(s, guess).myQ| < |s.myQ|
    decreases MAX_WRITES - s.writer.writes, |s.myQ|, if s.writer.packet == Null then 0 else 1
  {
    if Enabled(s, Fill) {
      SendAllProgress(Next(s, Fill), guess);
    } else if Enabled(s, PopNull) {
      SendAllProgress(Next(s, PopNull), guess);
    } else if s.output != [] {
      var again := MayGoOn(s, |s.output|) && (s.writer.packet == Unset ==> guess);
      var t := Next(s, Write(|s.output|, again));
      if again { SendAllProgress(t, guess); }
    }
  }

  // What such a write event gets rid of: all that was queued when it began, unless the
  // ten writes it may make carried 8192 bytes each, or the buffer was that full at the
  // start and the unassigned packet happened to be NULL.
  lemma {:induction false} SendAllMuch(s: Send, guess: bool)
    requires s.writer.Sending? && s.writer.writes < 10 && (s.writer.packet == Null ==> s.myQ == [])
    ensures var t := SendAll(s, guess);
            && t.output == [] && |t.sent| >= |s.sent|
            && (t.myQ == [] || |t.sent| >= |s.sent| + 8192 * (10 - s.writer.writes)
                || (!guess && s.writer.packet == Unset && |s.output| >= 8192))
    decreases MAX_WRITES - s.writer.writes, |s.myQ|, if s.writer.packet == Null then 0 else 1
  {
    hide SendAll;
    SendAllUnfolds(s, guess);
    if Enabled(s, Fill) {
      SendAllMuch(Next(s, Fill), guess);
    } else if Enabled(s, PopNull) {
      SendAllMuch(Next(s, PopNull), guess);
    } else if s.output != [] {
      var again := MayGoOn(s, |s.output|) && (s.writer.packet == Unset ==> guess);
      if again { SendAllMuch(Next(s, Write(|s.output|, again)), guess); }
    }
  }

  lemma SendAllUnfolds(s: Send, guess: bool)
    requires s.writer.Sending? && s.writer.writes < MAX_WRITES
    ensures SendAll(s, guess)
         == if Enabled(s, Fill) then SendAll(Next(s, Fill), guess)
            else if Enabled(s, PopNull) then SendAll(Next(s, PopNull), guess)
            else if s.output == [] then Next(s, Nothing)
            else var again := MayGoOn(s, |s.output|) && (s.writer.packet == Unset ==> guess);
                 var t := Next(s, Write(|s.output|, again));
                 if again then SendAll(t, guess) else t
  {
  }

  // Every such write event brings the queues down, and the one that finds nothing
  // left disarms: with the flag armed while data waits, everything goes out.
  lemma WriteEventProgress(s: Send, guess: bool)
    requires s.writer == Idle && Armed(s) && !s.closing
    ensures var t := Drained(s, guess); t.writer == Idle && t.posted == s.posted && !t.closing && Armed(t)
    ensures Pending(s) ==> Left(Drained(s, guess)) < Left(s)
    ensures !Pending(s) ==> Drained(s, guess) == s.(armed := false)
  {
    var t := Next(s, Begin);
    StepArmed(s, Begin);
    if t.writer != Idle {
      SendAllProgress(t, guess);
    }
  }

  function DrainedTimes(s: Send, guesses: seq<bool>): (t: Send)
    requires s.writer == Idle && Armed(s) && !s.closing
    ensures t.writer == Idle && Armed(t) && !t.closing
    decreases |guesses|
  {
    if guesses == [] then s
    else
      WriteEventProgress(s, guesses[0]);
      DrainedTimes(Drained(s, guesses[0]), guesses[1..])
  }

  lemma {:induction false} DrainsCompletely(s: Send, guesses: seq<bool>)
    requires s.writer == Idle && Armed(s) && !s.closing && |guesses| >= Left(s)
    ensures !Pending(DrainedTimes(s, guesses))
    decreases |guesses|
  {
    if guesses != [] {
      WriteEventProgress(s, guesses[0]);
      if !Pending(s) { assert Left(Drained(s, guesses[0])) == 0; }
      DrainsCompletely(Drained(s, guesses[0]), guesses[1..]);
    }
  }

  // ---------- runs, one step or one run at a time ----------

  ghost predicate Ran(s: Send, steps: seq<Step>, t: Send) {
    IsRun(s, steps) && After(s, steps) == t
  }

  lemma RanNothing(s: Send)
    ensures Ran(s, [], s)
  {
  }

  lemma {:induction false} RanMore(s: Send, a: seq<Step>, t: Send, b: seq<Step>, u: Send)
    requires Ran(s, a, t) && Ran(t, b, u)
    ensures Ran(s, a + b, u)
    decreases |a|
  {
    hide Enabled, Next;
    if a == [] {
      assert [] + b == b;
    } else {
      RanMore(Next(s, a[0]), a[1..], t, b, u);
      assert (a + b)[1..] == a[1..] + b;
    }
  }

  lemma RanStep(s: Send, steps: seq<Step>, t: Send, step: Step, u: Send)
    requires Ran(s, steps, t) && Enabled(t, step) && Next(t, step) == u
    ensures Ran(s, steps + [step], u)
  {
    hide Enabled, Next;
    assert [step][1..] == [] && IsRun(u, []) && After(u, []) == u;
    assert Ran(t, [step], u);
    RanMore(s, steps, t, [step], u);
  }

  lemma RanOne(s: Send, step: Step)
    requires Enabled(s, step)
    ensures Ran(s, [step], Next(s, step))
  {
    hide Enabled, Next;
    RanNothing(s);
    RanStep(s, [], s, step, Next(s, step));
    assert [] + [step] == [step];
  }

  // ---------- the socket's answers ----------

  function WritesOf(steps: seq<Step>): nat {
    if steps == [] then 0 else (if steps[0].Write? then 1 else 0) + WritesOf(steps[1..])
  }

  // The writes of a run carry takes[k], takes[k + 1], ... of what they were offered:
  // all of it when the answer is not less.
  ghost predicate Answered(s: Send, steps: seq<Step>, takes: seq<int>, k: nat)
    requires IsRun(s, steps)
    decreases |steps|
  {
    if steps == [] then true
    else match steps[0]
      case Write(ret, _) =>
        k < |takes| && ret == (if takes[k] < |s.output| then takes[k] else |s.output|)
        && Answered(Next(s, steps[0]), steps[1..], takes, k + 1)
      case _ => Answered(Next(s, steps[0]), steps[1..], takes, k)
  }

  lemma {:induction false} NoWritesAnswered(s: Send, steps: seq<Step>, takes: seq<int>, k: nat)
    requires IsRun(s, steps) && WritesOf(steps) == 0
    ensures Answered(s, steps, takes, k)
    decreases |steps|
  {
    hide Enabled, Next;
    if steps != [] { NoWritesAnswered(Next(s, steps[0]), steps[1..], takes, k); }
  }

  lemma {:induction false} AnsweredMore(s: Send, a: seq<Step>, t: Send, b: seq<Step>, takes: seq<int>, k: nat)
    requires Ran(s, a, t) && IsRun(t, b) && Answered(s, a, takes, k) && Answered(t, b, takes, k + WritesOf(a))
    ensures IsRun(s, a + b) && Answered(s, a + b, takes, k) && WritesOf(a + b) == WritesOf(a) + WritesOf(b)
    decreases |a|
  {
    hide Enabled, Next;
    if a == [] {
      assert [] + b == b;
    } else {
      AnsweredMore(Next(s, a[0]), a[1..], t, b, takes, if a[0].Write? then k + 1 else k);
      assert (a + b)[1..] == a[1..] + b;
    }
  }

  // One answer is the k-th of a list of answers.
  lemma {:induction false} AnsweredAt(s: Send, steps: seq<Step>, take: int, takes: seq<int>, k: nat)
    requires IsRun(s, steps) && WritesOf(steps) <= 1 && Answered(s, steps, [take], 0) && k < |takes| && takes[k] == take
    ensures Answered(s, steps, takes, k)
    decreases |steps|
  {
    hide Enabled, Next;
    if steps != [] {
      if steps[0].Write? {
        NoWritesAnswered(Next(s, steps[0]), steps[1..], takes, k + 1);
      } else {
        AnsweredAt(Next(s, steps[0]), steps[1..], take, takes, k);
      }
    }
  }

  lemma {:induction false} WritesMore(a: seq<Step>, b: seq<Step>)
    ensures WritesOf(a + b) == WritesOf(a) + WritesOf(b)
  {
    if a == [] {
      assert [] + b == b;
    } else {
      assert (a + b)[1..] == a[1..] + b;
      WritesMore(a[1..], b);
    }
  }

  lemma WritesOne(a: seq<Step>, step: Step)
    ensures WritesOf(a + [step]) == WritesOf(a) + if step.Write? then 1 else 0
  {
    WritesMore(a, [step]);
    assert [step][1..] == [];
  }

  // A turn: some steps without a write, then a write or none.
  lemma TurnAnswered(s: Send, steps: seq<Step>, t: Send, last: Step, take: int)
    requires Ran(s, steps, t) && WritesOf(steps) == 0 && Enabled(t, last)
    requires last.Write? ==> last.ret == if take < |t.output| then take else |t.output|
    ensures IsRun(s, steps + [last]) && Answered(s, steps + [last], [take], 0)
    ensures WritesOf(steps + [last]) == if last.Write? then 1 else 0
  {
    hide Enabled, Next;
    NoWritesAnswered(s, steps, [take], 0);
    assert [last][1..] == [];
    assert IsRun(Next(t, last), []);
    AnsweredMore(s, steps, t, [last], [take], 0);
  }

  // From either state the rest of an undisturbed write event comes to the same end.
  ghost predicate Sends(s: Send, t: Send) {
    && s.writer.Sending? && s.writer.writes < MAX_WRITES && t.writer.Sending? && t.writer.writes < MAX_WRITES
    && (forall guess :: SendAll(t, guess) == SendAll(s, guess))
    && Waiting(t) == Waiting(s)
  }

  // The first n packets of a queue went behind what was in the buffer, whole, and the
  // buffer held less than 8192 bytes before the last of them.
  ghost predicate Moved(q: seq<Packet>, was: seq<byte>, rest: seq<Packet>, now: seq<byte>, n: nat) {
    && n <= |q| && rest == q[n..] && now == was + Flatten(q[..n])
    && (n > 0 ==> |was| + |Flatten(q[..n - 1])| < 8192)
  }

  lemma NothingMoved(q: seq<Packet>, was: seq<byte>)
    ensures Moved(q, was, q, was, 0)
  {
    assert q[0..] == q && q[..0] == [] && was + [] == was;
  }

  lemma OneMoved(q: seq<Packet>, was: seq<byte>, rest: seq<Packet>, now: seq<byte>, n: nat)
    requires Moved(q, was, rest, now, n) && rest != [] && |now| < 8192
    ensures Moved(q, was, rest[1..], now + rest[0], n + 1)
  {
    hide Flatten;
    assert rest[0] == q[n] && q[..n + 1] == q[..n] + [q[n]] && q[..n + 1][..n] == q[..n];
    FlattenAppend(q[..n], [q[n]]);
    FlattenOne(q[n]);
    Assoc(was, Flatten(q[..n]), q[n]);
  }

  lemma SendsItself(s: Send)
    requires s.writer.Sending? && s.writer.writes < MAX_WRITES
    ensures Sends(s, s)
  {
  }

  lemma SendsStep(s: Send, t: Send, step: Step)
    requires Sends(s, t) && Enabled(t, step) && (step.Fill? || step.PopNull?)
    ensures Sends(s, Next(t, step))
  {
    hide SendAll;
    forall guess
      ensures SendAll(Next(t, step), guess) == SendAll(s, guess)
    {
      SendAllUnfolds(t, guess);
    }
  }

  // The end of such a turn.
  lemma TurnSends(s: Send, t: Send, take: int, again: bool, guess: bool)
    requires Sends(s, t) && MustWrite(t) && t.output != [] && take >= Waiting(s)
    requires again == (t.writer.writes + 1 < MAX_WRITES && t.writer.packet != Null && (t.writer.packet == Unset ==> guess))
    ensures Enabled(t, Write(|t.output|, again)) && take >= |t.output|
    ensures var u := Next(t, Write(|t.output|, again));
            && Waiting(u) <= Waiting(s)
            && (again ==> u.writer.Sending? && u.writer.writes < MAX_WRITES && SendAll(u, guess) == SendAll(s, guess))
            && (!again ==> u == SendAll(s, guess))
  {
    hide SendAll;
    SendAllUnfolds(t, guess);
  }

  lemma TurnStops(s: Send, t: Send, guess: bool)
    requires Sends(s, t) && MustWrite(t) && t.output == []
    ensures Enabled(t, Nothing) && Next(t, Nothing) == SendAll(s, guess)
  {
    hide SendAll;
    SendAllUnfolds(t, guess);
  }

  lemma NoWrites()
    ensures WritesOf([]) == 0
  {
  }

  // Bytes the running write event has to send.
  function Waiting(s: Send): nat {
    |s.output| + |Flatten(s.myQ)|
  }

  // ---------- the object ----------

  class TcpComponent {
    var outputQueue: seq<Packet>
    var myQueue: seq<Packet>
    const output: DataBuffer
    var armed: bool
    var writeFinishClose: bool
    ghost var writer: Writer
    ghost var sent: seq<byte>
    ghost var posted: seq<Packet>
    ghost var closing: bool

    ghost function Abs(): Send
      requires output.Valid()
      reads this, output, output.buf
    {
      Send(outputQueue, myQueue, output.Contents(), armed, writeFinishClose, writer, sent, posted, closing)
    }

    ghost function Repr(): set<object>
      reads this, output
    {
      {this} + output.Repr()
    }

    constructor ()
      ensures fresh(Repr()) && output.Valid() && Start(Abs())
    {
      output := new DataBuffer();
      outputQueue, myQueue, armed, writeFinishClose := [], [], false, false;
      writer, sent, posted, closing := Idle, [], [], false;
    }

    // post_packet on a connection that is up.
    method PostPacket(p: Packet)
      requires output.Valid()
      modifies this
      ensures output.Valid() && Abs() == Next(old(Abs()), Post(p))
      ensures outputQueue == old(outputQueue) + [p] && myQueue == old(myQueue)
      ensures armed == (old(armed) || old(outputQueue) == [])
    {
      outputQueue := outputQueue + [p];
      posted := posted + [p];
      if |outputQueue| == 1 {
        armed := true;
      }
    }

    // What other threads do while write_data holds no lock.
    method Others(posts: seq<Packet>) returns (ghost steps: seq<Step>)
      requires output.Valid()
      modifies this
      ensures output.Valid() && Ran(old(Abs()), steps, Abs()) && writer == old(writer)
      ensures myQueue == old(myQueue) && writeFinishClose == old(writeFinishClose)
      ensures WritesOf(steps) == 0 && (posts == [] ==> Abs() == old(Abs()))
    {
      hide IsRun, After, Ran, WritesOf;
      NoWrites();
      steps := [];
      ghost var s := Abs();
      RanNothing(s);
      for i := 0 to |posts|
        invariant output.Valid() && Ran(s, steps, Abs()) && writer == old(writer) && myQueue == old(myQueue)
        invariant writeFinishClose == old(writeFinishClose)
        invariant WritesOf(steps) == 0 && (posts == [] ==> Abs() == old(Abs()))
      {
        ghost var t := Abs();
        PostPacket(posts[i]);
        RanStep(s, steps, t, Post(posts[i]), Abs());
        WritesOne(steps, Post(posts[i]));
        steps := steps + [Post(posts[i])];
      }
    }

    // The first locked region of write_data.
    method TakeOver() returns (more: bool)
      requires output.Valid() && writer == Idle
      modifies this
      ensures output.Valid() && Abs() == Next(old(Abs()), Begin) && more == (writer != Idle)
      ensures myQueue == old(myQueue) + old(outputQueue) && outputQueue == []
      ensures more == (old(outputQueue) != [] || old(myQueue) != [] || old(output.Contents()) != [])
      ensures armed == (old(armed) && more) && writeFinishClose == old(writeFinishClose)
      ensures more ==> writer == Sending(0, Unset)
    {
      myQueue, outputQueue := myQueue + outputQueue, [];
      var len := output.GetDataLen();
      if |myQueue| == 0 && len == 0 {
        armed := false;
        return false;
      }
      writer := Sending(0, Unset);
      more := true;
    }

    method MovePacket()
      requires output.Valid() && Enabled(Abs(), Fill)
      modifies Repr()
      ensures output.Valid() && fresh(Repr() - old(Repr())) && Abs() == Next(old(Abs()), Fill)
      ensures outputQueue == old(outputQueue) && writeFinishClose == old(writeFinishClose)
      ensures writer == old(writer).(packet := Got) && |myQueue| < |old(myQueue)|
      ensures old(myQueue) != [] && myQueue == old(myQueue)[1..]
      ensures output.Contents() == old(output.Contents()) + old(myQueue)[0]
    {
      var packet := myQueue[0];
      myQueue := myQueue[1..];
      output.WriteBytes(packet);
      writer := writer.(packet := Got);
    }

    method PopNothing()
      requires output.Valid() && Enabled(Abs(), PopNull)
      modifies this
      ensures output.Valid() && Abs() == Next(old(Abs()), PopNull)
      ensures myQueue == old(myQueue) && output.Contents() == old(output.Contents())
      ensures outputQueue == old(outputQueue) && writeFinishClose == old(writeFinishClose)
      ensures writer == old(writer).(packet := Null)
    {
      writer := writer.(packet := Null);
    }

    // The inner loop: packets into the buffer until it is full or the queue is empty.
    // `had` says whether write_data's `packet` is already assigned; `none` that the
    // last pop found nothing.
    method FillOutput(had: bool) returns (got: bool, none: bool, ghost steps: seq<Step>, ghost n: nat)
      requires output.Valid() && writer.Sending? && writer.packet != Null && had == (writer.packet == Got)
      requires writer.writes < MAX_WRITES
      modifies Repr()
      ensures output.Valid() && fresh(Repr() - old(Repr()))
      ensures Ran(old(Abs()), steps, Abs()) && MustWrite(Abs())
      ensures writer.Sending? && writer.writes == old(writer).writes
      ensures none == (writer.packet == Null) && (got && !none <==> writer.packet == Got)
      ensures WritesOf(steps) == 0 && outputQueue == old(outputQueue) && writeFinishClose == old(writeFinishClose)
      ensures Sends(old(Abs()), Abs())
      ensures Moved(old(myQueue), old(output.Contents()), myQueue, output.Contents(), n)
      ensures if none then myQueue == [] && |output.Contents()| < 8192 else |output.Contents()| >= 8192
    {
      hide IsRun, After, Ran, Next, WritesOf, Sends, Moved;
      ghost var s := Abs();
      steps, got, none, n := [], had, false, 0;
      NothingMoved(myQueue, output.Contents());
      RanNothing(s);
      NoWrites();
      SendsItself(s);
      var len := output.GetDataLen();
      while len < READ_WRITE_SIZE
        invariant output.Valid() && fresh(Repr() - old(Repr())) && Ran(s, steps, Abs())
        invariant len == |output.Contents()| && !none
        invariant writer.Sending? && writer.writes == old(writer).writes && writer.packet != Null
        invariant got <==> writer.packet == Got
        invariant WritesOf(steps) == 0 && outputQueue == old(outputQueue) && writeFinishClose == old(writeFinishClose)
        invariant Sends(s, Abs()) && Moved(s.myQ, s.output, myQueue, output.Contents(), n)
        decreases |myQueue|
      {
        ghost var t := Abs();
        if myQueue == [] {
          PopNothing();
          RanStep(s, steps, t, PopNull, Abs());
          WritesOne(steps, PopNull);
          SendsStep(s, t, PopNull);
          steps := steps + [PopNull];
          none := true;
          return;
        }
        OneMoved(s.myQ, s.output, myQueue, output.Contents(), n);
        MovePacket();
        n := n + 1;
        got := true;
        RanStep(s, steps, t, Fill, Abs());
        WritesOne(steps, Fill);
        SendsStep(s, t, Fill);
        steps := steps + [Fill];
        len := output.GetDataLen();
      }
    }

    method StopWriting()
      requires output.Valid() && Enabled(Abs(), Nothing)
      modifies this`writer
      ensures output.Valid() && Abs() == Next(old(Abs()), Nothing) && writer == Ending
    {
      writer := Ending;
    }

    // One socket write. `taken` is the socket's answer: at most what it was offered.
    method WriteSocket(taken: int, ghost again: bool)
      requires output.Valid() && Enabled(Abs(), Write(taken, again))
      modifies Repr()
      ensures output.Valid() && fresh(Repr() - old(Repr()))
      ensures Abs() == Next(old(Abs()), Write(taken, again))
      ensures writer == if again then old(writer).(writes := old(writer).writes + 1) else Ending
      ensures writeFinishClose == old(writeFinishClose)
      ensures output.Contents() == if taken > 0 then old(output.Contents())[taken..] else old(output.Contents())
      ensures sent == if taken > 0 then old(sent) + old(output.Contents())[..taken] else old(sent)
    {
      if taken > 0 {
        sent := sent + output.Contents()[..taken];
        output.DrainData(taken);
        assert taken == |old(output.Contents())| ==> old(output.Contents())[taken..] == [];
      } else {
        assert sent + output.Contents()[..0] == sent && output.Contents()[0..] == output.Contents();
      }
      writer := if again then writer.(writes := writer.writes + 1) else Ending;
    }

    // The last locked region of write_data.
    method Settle()
      requires output.Valid() && writer == Ending
      modifies Repr()
      ensures output.Valid() && fresh(Repr() - old(Repr()))
      ensures Abs() == Next(old(Abs()), End) && writeFinishClose == old(writeFinishClose)
      ensures output.Contents() == old(output.Contents()) && outputQueue == old(outputQueue) && myQueue == old(myQueue)
      ensures armed == (old(armed) && (outputQueue != [] || myQueue != [] || output.Contents() != []) && !writeFinishClose)
    {
      output.Shrink();
      var len := output.GetDataLen();
      var queueSize := |outputQueue| + |myQueue| + if len > 0 then 1 else 0;
      if queueSize == 0 || writeFinishClose {
        armed := false;
      }
      writer := Idle;
    }

    // write_data with other threads posting wherever it holds no lock. `takes` are
    // the socket's answers, cut to what it is offered; `others` the packets posted at
    // each such place; `guess` what an unassigned packet happens to be.
    method WriteData(takes: seq<int>, others: seq<seq<Packet>>, guess: bool) returns (ok: bool, ghost steps: seq<Step>)
      requires output.Valid() && writer == Idle && |takes| >= MAX_WRITES && |others| > 2 * MAX_WRITES
      modifies Repr()
      ensures output.Valid() && fresh(Repr() - old(Repr())) && writer == Idle
      ensures Ran(old(Abs()), steps, Abs()) && Answered(old(Abs()), steps, takes, 0)
      ensures InOrder(old(Abs())) && Armed(old(Abs())) ==> InOrder(Abs()) && Armed(Abs())
      ensures ok == (!Pending(old(Abs())) || !writeFinishClose) && writeFinishClose == old(writeFinishClose)
      ensures Undisturbed(others) && TakesAll(takes, old(Abs())) ==> Abs() == Drained(old(Abs()), guess)
    {
      hide IsRun, After, Ran, InOrder, Armed, Answered, WritesOf, Undisturbed, TakesAll, Drained, SendAll, Next, Waiting;
      ghost var s := Abs();
      var more := TakeOver();
      Begun(s);
      steps := [Begin];
      Answering(s, steps, takes);
      DrainedIs(s, guess);
      if !more {
        RanKeeps(s, steps, Abs());
        SofarIs(s, steps, takes, 0);
        return true, steps;
      }
      ghost var t := Abs();
      BegunSends(s, takes);
      ghost var turns := WriteLoop(takes, others, guess);
      EndAdds(s, steps, t, turns, Abs(), takes);
      steps, t := steps + turns, Abs();
      Quiet(others, takes, s, MAX_WRITES);
      ghost var last := Finish(others[2 * MAX_WRITES]);
      SilentAdds(s, steps, t, last, Abs(), takes);
      steps := steps + last;
      RanKeeps(s, steps, Abs());
      ok := !writeFinishClose;
    }

    // The loop of write_data: at most ten turns.
    method WriteLoop(takes: seq<int>, others: seq<seq<Packet>>, guess: bool) returns (ghost steps: seq<Step>)
      requires output.Valid() && writer == Sending(0, Unset) && |takes| >= MAX_WRITES && |others| > 2 * MAX_WRITES
      modifies Repr()
      ensures output.Valid() && fresh(Repr() - old(Repr())) && writer == Ending
      ensures Ran(old(Abs()), steps, Abs()) && IsRun(old(Abs()), steps) && Answered(old(Abs()), steps, takes, 0)
      ensures writeFinishClose == old(writeFinishClose)
      ensures Undisturbed(others) && (forall k :: 0 <= k < |takes| ==> takes[k] >= Waiting(old(Abs()))) ==>
                Abs() == SendAll(old(Abs()), guess)
    {
      hide IsRun, After, Ran, Answered, WritesOf, Undisturbed, SendAll, Next, Waiting;
      ghost var s := Abs();
      ghost var calm := Undisturbed(others) && forall k :: 0 <= k < |takes| ==> takes[k] >= Waiting(s);
      RanNothing(s);
      NothingAnswered(s, takes);
      steps := [];
      var cnt, had, going := 0, false, true;
      while going
        invariant output.Valid() && fresh(Repr() - old(Repr())) && Ran(s, steps, Abs())
        invariant 0 <= cnt <= MAX_WRITES && writeFinishClose == old(writeFinishClose)
        invariant going ==> cnt < MAX_WRITES && writer.Sending? && writer.writes == cnt && writer.packet != Null
                            && had == (writer.packet == Got)
        invariant !going ==> writer == Ending
        invariant AnsweredSofar(s, steps, takes, if going then cnt else WritesOf(steps))
        invariant calm && going ==> SendAll(Abs(), guess) == SendAll(s, guess) && Waiting(Abs()) <= Waiting(s)
        invariant calm && !going ==> Abs() == SendAll(s, guess)
        decreases MAX_WRITES - cnt + if going then 1 else 0
      {
        ghost var t := Abs();
        ghost var turn;
        QuietTurn(others, cnt);
        going, had, turn := Turn(cnt, had, takes[cnt], others[2 * cnt], others[2 * cnt + 1], guess);
        TurnAdds(s, steps, t, turn, Abs(), takes, cnt, going);
        steps := steps + turn;
        cnt := cnt + 1;
      }
      SofarIs(s, steps, takes, WritesOf(steps));
    }

    // One turn of write_data's loop: fill the buffer, offer it to the socket. What goes
    // out is the answer, or everything offered if the answer is more.
    method Turn(cnt: nat, had: bool, take: int, before: seq<Packet>, between: seq<Packet>, guess: bool)
      returns (going: bool, got: bool, ghost steps: seq<Step>)
      requires output.Valid() && cnt < MAX_WRITES && writer.Sending? && writer.writes == cnt && writer.packet != Null
      requires had == (writer.packet == Got)
      modifies Repr()
      ensures output.Valid() && fresh(Repr() - old(Repr())) && Ran(old(Abs()), steps, Abs())
      ensures going ==> cnt + 1 < MAX_WRITES && writer.Sending? && writer.writes == cnt + 1 && writer.packet != Null
                        && got == (writer.packet == Got)
      ensures !going ==> writer == Ending
      ensures IsRun(old(Abs()), steps) && Answered(old(Abs()), steps, [take], 0)
      ensures WritesOf(steps) <= 1 && (going ==> WritesOf(steps) == 1) && writeFinishClose == old(writeFinishClose)
      ensures steps != []
              && var last := steps[|steps| - 1];
                 last == Nothing || (last.Write? && (last.ret == take || (last.ret < take && output.Contents() == [])))
      ensures before == [] && between == [] && take >= Waiting(old(Abs())) ==>
                && (going ==> SendAll(Abs(), guess) == SendAll(old(Abs()), guess) && Waiting(Abs()) <= Waiting(old(Abs())))
                && (!going ==> Abs() == SendAll(old(Abs()), guess))
    {
      hide IsRun, After, Ran, Next, Answered, WritesOf, Sends, SendAll, Waiting;
      ghost var s := Abs();
      var none;
      ghost var ready;
      got, none, ready := Prepare(had, before, between);
      ghost var t, last := Abs(), Nothing;
      going, last := Offer(cnt, take, none, got, guess);
      TurnAnswered(s, ready, t, last, take);
      RanStep(s, ready, t, last, Abs());
      steps := ready + [last];
      if before == [] && between == [] && take >= Waiting(s) {
        TurnEnds(s, t, last, take, guess);
      }
    }

    // Up to the socket write of a turn.
    method Prepare(had: bool, before: seq<Packet>, between: seq<Packet>)
      returns (got: bool, none: bool, ghost steps: seq<Step>)
      requires output.Valid() && writer.Sending? && writer.writes < MAX_WRITES && writer.packet != Null
      requires had == (writer.packet == Got)
      modifies Repr()
      ensures output.Valid() && fresh(Repr() - old(Repr())) && Ran(old(Abs()), steps, Abs()) && MustWrite(Abs())
      ensures writer.Sending? && writer.writes == old(writer).writes && WritesOf(steps) == 0
      ensures none == (writer.packet == Null) && (got && !none <==> writer.packet == Got)
      ensures writeFinishClose == old(writeFinishClose)
      ensures before == [] && between == [] ==> Sends(old(Abs()), Abs())
    {
      hide IsRun, After, Ran, Next, WritesOf, Sends, SendAll;
      ghost var s := Abs();
      steps := Others(before);
      ghost var t := Abs();
      ghost var more;
      ghost var n;
      got, none, more, n := FillOutput(had);
      SilentMore(s, steps, t, more, Abs());
      steps, t := steps + more, Abs();
      more := OthersWhileFull(between);
      SilentMore(s, steps, t, more, Abs());
      steps := steps + more;
    }

    // The buffer offered to the socket, if there is anything in it.
    method Offer(cnt: nat, take: int, none: bool, got: bool, guess: bool) returns (going: bool, ghost last: Step)
      requires output.Valid() && MustWrite(Abs()) && writer.writes == cnt < MAX_WRITES
      requires none == (writer.packet == Null) && (got && !none <==> writer.packet == Got)
      modifies Repr()
      ensures output.Valid() && fresh(Repr() - old(Repr()))
      ensures Enabled(old(Abs()), last) && Abs() == Next(old(Abs()), last) && writeFinishClose == old(writeFinishClose)
      ensures last == if old(output.Contents()) == [] then Nothing
                      else Write(if take < |old(output.Contents())| then take else |old(output.Contents())|, going)
      ensures going == (old(output.Contents()) != [] && take >= |old(output.Contents())| && cnt + 1 < MAX_WRITES
                        && !none && (got || guess))
      ensures last.Write? && last.ret > 0 ==> output.Contents() == old(output.Contents())[last.ret..]
      ensures writer == if going then old(writer).(writes := cnt + 1) else Ending
    {
      hide Next;
      var len := output.GetDataLen();
      if len == 0 {
        StopWriting();
        return false, Nothing;
      }
      var taken := if take < len then take else len;
      going := taken > 0 && taken == len && cnt + 1 < MAX_WRITES && !none && (got || guess);
      last := Write(taken, going);
      WriteSocket(taken, going);
    }

    method Finish(posts: seq<Packet>) returns (ghost steps: seq<Step>)
      requires output.Valid() && writer == Ending
      modifies Repr()
      ensures output.Valid() && fresh(Repr() - old(Repr())) && writer == Idle && Ran(old(Abs()), steps, Abs())
      ensures WritesOf(steps) == 0 && writeFinishClose == old(writeFinishClose)
      ensures posts == [] ==> old(Abs()).writer == Ending && Abs() == Next(old(Abs()), End)
    {
      hide IsRun, After, Ran, WritesOf;
      ghost var s := Abs();
      steps := Others(posts);
      ghost var t := Abs();
      Settle();
      RanStep(s, steps, t, End, Abs());
      WritesOne(steps, End);
      steps := steps + [End];
    }

    method OthersWhileFull(posts: seq<Packet>) returns (ghost steps: seq<Step>)
      requires output.Valid() && MustWrite(Abs())
      modifies this
      ensures output.Valid() && Ran(old(Abs()), steps, Abs()) && writer == old(writer) && MustWrite(Abs())
      ensures WritesOf(steps) == 0 && writeFinishClose == old(writeFinishClose)
      ensures posts == [] ==> Abs() == old(Abs())
    {
      hide IsRun, After, Ran, WritesOf;
      steps := Others(posts);
    }
  }

  // Nobody posts while write_data runs.
  predicate Undisturbed(others: seq<seq<Packet>>) {
    forall k :: 0 <= k < |others| ==> others[k] == []
  }

  // Every answer is at least all that waits when write_data begins.
  predicate TakesAll(takes: seq<int>, s: Send) {
    forall k :: 0 <= k < |takes| ==> takes[k] >= |s.output| + |Flatten(s.myQ)| + |Flatten(s.outQ)|
  }

  lemma QuietTurn(others: seq<seq<Packet>>, cnt: nat)
    requires |others| > 2 * MAX_WRITES && cnt < MAX_WRITES
    ensures Undisturbed(others) ==> others[2 * cnt] == [] && others[2 * cnt + 1] == []
  {
  }

  lemma NothingAnswered(s: Send, takes: seq<int>)
    ensures AnsweredSofar(s, [], takes, 0)
  {
  }

  lemma Quiet(others: seq<seq<Packet>>, takes: seq<int>, s: Send, cnt: nat)
    requires |takes| >= MAX_WRITES && |others| > 2 * MAX_WRITES && cnt <= MAX_WRITES
    ensures Undisturbed(others) ==> others[2 * cnt] == []
    ensures TakesAll(takes, s) ==>
              forall k :: 0 <= k < |takes| ==> takes[k] >= |s.output| + |Flatten(s.myQ)| + |Flatten(s.outQ)|
  {
    hide Flatten;
  }

  lemma Begun(s: Send)
    requires s.writer == Idle
    ensures Ran(s, [Begin], Next(s, Begin))
  {
    hide Next;
    RanOne(s, Begin);
  }

  lemma BegunSends(s: Send, takes: seq<int>)
    requires s.writer == Idle
    ensures Waiting(Next(s, Begin)) == |s.output| + |Flatten(s.myQ)| + |Flatten(s.outQ)|
    ensures TakesAll(takes, s) ==> forall k :: 0 <= k < |takes| ==> takes[k] >= Waiting(Next(s, Begin))
  {
    FlattenAppend(s.myQ, s.outQ);
  }

  lemma DrainedIs(s: Send, guess: bool)
    requires s.writer == Idle
    ensures var t := Next(s, Begin);
            && (t.writer == Idle || (t.writer.Sending? && t.writer.writes < MAX_WRITES))
            && Drained(s, guess) == if t.writer == Idle then t else Next(SendAll(t, guess), End)
  {
    hide SendAll;
  }

  ghost predicate AnsweredSofar(s: Send, steps: seq<Step>, takes: seq<int>, k: nat) {
    IsRun(s, steps) && Answered(s, steps, takes, 0) && WritesOf(steps) == k
  }

  lemma SofarIs(s: Send, steps: seq<Step>, takes: seq<int>, k: nat)
    requires AnsweredSofar(s, steps, takes, k)
    ensures IsRun(s, steps) && Answered(s, steps, takes, 0)
  {
    hide IsRun, Answered;
  }

  lemma Answering(s: Send, steps: seq<Step>, takes: seq<int>)
    requires steps == [Begin] && s.writer == Idle
    ensures AnsweredSofar(s, steps, takes, 0)
  {
    hide Next;
    assert steps[1..] == [];
    NoWritesAnswered(s, steps, takes, 0);
  }

  lemma SilentMore(s: Send, a: seq<Step>, t: Send, b: seq<Step>, u: Send)
    requires Ran(s, a, t) && Ran(t, b, u) && WritesOf(a) == 0 && WritesOf(b) == 0
    ensures Ran(s, a + b, u) && WritesOf(a + b) == 0
  {
    hide IsRun, After, WritesOf;
    RanMore(s, a, t, b, u);
    WritesMore(a, b);
  }

  // The end of a turn that nobody disturbs, over a socket that takes everything.
  lemma TurnEnds(s: Send, t: Send, last: Step, take: int, guess: bool)
    requires Sends(s, t) && MustWrite(t) && take >= Waiting(s)
    requires last == if t.output == [] then Nothing
                     else Write(if take < |t.output| then take else |t.output|,
                                take >= |t.output| && t.writer.writes + 1 < MAX_WRITES && t.writer.packet != Null
                                && (t.writer.packet == Got || guess))
    ensures Enabled(t, last)
    ensures var u, going := Next(t, last), last.Write? && last.again;
            && (going ==> u.writer.Sending? && u.writer.writes < MAX_WRITES
                          && SendAll(u, guess) == SendAll(s, guess) && Waiting(u) <= Waiting(s))
            && (!going ==> u == SendAll(s, guess))
  {
    hide SendAll, Next, Sends, Waiting;
    OfferedFits(s, t);
    if t.output == [] {
      TurnStops(s, t, guess);
    } else {
      TurnSends(s, t, take, last.again, guess);
    }
  }

  lemma OfferedFits(s: Send, t: Send)
    requires Sends(s, t)
    ensures |t.output| <= Waiting(s)
  {
    hide SendAll;
  }

  lemma TurnAdds(s: Send, steps: seq<Step>, t: Send, turn: seq<Step>, u: Send, takes: seq<int>, k: nat, going: bool)
    requires Ran(s, steps, t) && AnsweredSofar(s, steps, takes, k) && Ran(t, turn, u) && k < |takes|
    requires IsRun(t, turn) && Answered(t, turn, [takes[k]], 0) && WritesOf(turn) <= 1 && (going ==> WritesOf(turn) == 1)
    ensures Ran(s, steps + turn, u)
    ensures AnsweredSofar(s, steps + turn, takes, if going then k + 1 else WritesOf(steps + turn))
  {
    hide IsRun, After, Answered, WritesOf, Ran;
    RanMore(s, steps, t, turn, u);
    AnsweredAt(t, turn, takes[k], takes, k);
    AnsweredMore(s, steps, t, turn, takes, 0);
  }

  // The turns behind the first step, and the end behind the turns.
  lemma EndAdds(s: Send, steps: seq<Step>, t: Send, turns: seq<Step>, u: Send, takes: seq<int>)
    requires Ran(s, steps, t) && AnsweredSofar(s, steps, takes, 0)
    requires Ran(t, turns, u) && IsRun(t, turns) && Answered(t, turns, takes, 0)
    ensures Ran(s, steps + turns, u) && IsRun(s, steps + turns) && Answered(s, steps + turns, takes, 0)
  {
    hide IsRun, After, Answered, WritesOf, Ran;
    RanMore(s, steps, t, turns, u);
    AnsweredMore(s, steps, t, turns, takes, 0);
  }

  lemma SilentAdds(s: Send, steps: seq<Step>, t: Send, last: seq<Step>, u: Send, takes: seq<int>)
    requires Ran(s, steps, t) && IsRun(s, steps) && Answered(s, steps, takes, 0) && Ran(t, last, u) && WritesOf(last) == 0
    ensures Ran(s, steps + last, u) && IsRun(s, steps + last) && Answered(s, steps + last, takes, 0)
  {
    RanIsRun(t, last, u);
    hide IsRun, After, Answered, WritesOf, Ran;
    RanMore(s, steps, t, last, u);
    NoWritesAnswered(t, last, takes, WritesOf(steps));
    AnsweredMore(s, steps, t, last, takes, 0);
  }

  lemma RanIsRun(s: Send, steps: seq<Step>, t: Send)
    requires Ran(s, steps, t)
    ensures IsRun(s, steps)
  {
    hide IsRun, After;
  }

  lemma RanKeeps(s: Send, steps: seq<Step>, t: Send)
    requires Ran(s, steps, t)
    ensures InOrder(s) && Armed(s) ==> InOrder(t) && Armed(t)
  {
    hide InOrder, Armed, IsRun, After;
    if InOrder(s) && Armed(s) { RunInOrder(s, steps); }
  }
}
