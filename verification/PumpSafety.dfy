// Byte conservation, the queue bound, flushing and termination of the pump,
// over every run.
module PumpSafety {
  import opened Outcomes
  import opened Protocol
  import opened Pump
  import Frames

  /* Conservation, with futures dropped anywhere */

  ghost predicate Conserved<S, E>(st: State<S, E>) {
    Flatten(st.packets) == st.wire + st.core.out
  }

  lemma QueueConserves<S, E>(st: State<S, E>, bytes: Bytes)
    requires Conserved(st)
    ensures Conserved(Queue(st, bytes))
  {
    FlattenSnoc(st.packets, bytes);
    assert st.wire + st.core.out + bytes == st.wire + (st.core.out + bytes);
  }

  lemma {:induction false} DrainConserves<S, E>(m: Machine<S, E>, st: State<S, E>, wrote: bool, k: Cont<E>)
    requires Conserved(st)
    ensures Conserved(DrainHead(m, st, wrote, k)) && Conserved(Resume(m, st, k))
    decreases Rank(k)
  {
    hide Flatten;
    match k
    case ThenReturn(_) =>
    case ThenRead(_) =>
    case ThenSend(req) =>
      QueueConserves(st, m.send(st.core.s, req).queued);
      DrainConserves(m, Sending(m, st, req), false, ThenReturn(Sent));
    case ThenStep(call) =>
      var r := m.step(call, st.core.s, st.core.inbuf);
      QueueConserves(st.(core := Core(r.state, Drop(st.core.inbuf, r.used), st.core.out)), r.queued);
      var next := Stepping(m, st, call);
      DrainConserves(m, next, false, ThenRead(call));
      if r.verdict.Ready? {
        DrainConserves(m, next, false, ThenReturn(Done(r.verdict.event)));
      }
  }

  lemma AcceptConserves<S, E>(st: State<S, E>, n: nat)
    requires Conserved(st) && n <= |st.core.out|
    ensures Conserved(Accept(st, n))
  {
    hide Flatten;
    assert st.core.out == st.core.out[..n] + st.core.out[n..];
    assert st.wire + (st.core.out[..n] + st.core.out[n..]) == (st.wire + st.core.out[..n]) + st.core.out[n..];
  }

  lemma {:induction false} StepConserves<S, E>(m: Machine<S, E>, st: State<S, E>, a: Action)
    requires Conserved(st)
    ensures Conserved(Next(m, st, a))
  {
    hide Flatten, DrainHead, Resume;
    if Enabled(st, a) {
      match a
      case Begin(OpSend(req)) => DrainConserves(m, st, false, ThenSend(req));
      case Begin(OpRecv) => DrainConserves(m, st, false, ThenStep(Recv));
      case CoreSend(req) => QueueConserves(st, m.send(st.core.s, req).queued);
      case Wrote(n) =>
        AcceptConserves(st, n);
        DrainConserves(m, Accept(st, n), true, st.pc.k);
      case FlushDone => DrainConserves(m, st.(flushed := |st.wire|), false, st.pc.k);
      case Got(chunk) => DrainConserves(m, Submit(st, chunk), false, ThenStep(st.pc.call));
      case _ =>
    }
  }

  // In every run, whatever is dropped or fails, the bytes on the wire followed
  // by the output queue are exactly the bytes queued so far, operation by
  // operation and in order.
  lemma {:induction false} BytesAreConserved<S, E>(m: Machine<S, E>, s0: S, acts: seq<Action>)
    ensures var st := Run(m, s0, acts); Flatten(st.packets) == st.wire + st.core.out
  {
    if acts == [] {
      DrainConserves(m, Initial(s0), false, ThenStep(Handshake));
    } else {
      BytesAreConserved(m, s0, acts[..|acts| - 1]);
      StepConserves(m, Run(m, s0, acts[..|acts| - 1]), acts[|acts| - 1]);
    }
  }

  /* The queue between awaits */

  ghost predicate PcFitsQueue<S, E>(st: State<S, E>) {
    match st.pc
    case AwaitWrite(_, _) => st.core.out != []
    case AwaitFlush(_) => st.core.out == []
    case AwaitRead(_) => st.core.out == []
    case _ => true
  }

  lemma {:induction false} DrainFits<S, E>(m: Machine<S, E>, st: State<S, E>, wrote: bool, k: Cont<E>)
    ensures PcFitsQueue(DrainHead(m, st, wrote, k))
    ensures st.core.out == [] ==> PcFitsQueue(Resume(m, st, k))
    decreases Rank(k)
  {
    match k
    case ThenSend(req) => DrainFits(m, Sending(m, st, req), false, ThenReturn(Sent));
    case ThenStep(call) =>
      var next := Stepping(m, st, call);
      DrainFits(m, next, false, ThenRead(call));
      match m.step(call, st.core.s, st.core.inbuf).verdict {
        case Ready(event) => DrainFits(m, next, false, ThenReturn(Done(event)));
        case _ =>
      }
    case _ =>
  }

  // A read is awaited only with an empty output queue, a write only with a
  // non-empty one.
  lemma {:induction false} ReadsOnlyAfterDraining<S, E>(m: Machine<S, E>, s0: S, acts: seq<Action>)
    ensures PcFitsQueue(Run(m, s0, acts))
  {
    if acts == [] {
      DrainFits(m, Initial(s0), false, ThenStep(Handshake));
    } else {
      ReadsOnlyAfterDraining(m, s0, acts[..|acts| - 1]);
      StepFits(m, Run(m, s0, acts[..|acts| - 1]), acts[|acts| - 1]);
    }
  }

  lemma {:induction false} StepFits<S, E>(m: Machine<S, E>, st: State<S, E>, a: Action)
    requires PcFitsQueue(st)
    ensures PcFitsQueue(Next(m, st, a))
  {
    hide DrainHead, Resume;
    if Enabled(st, a) {
      match a
      case Begin(OpSend(req)) => DrainFits(m, st, false, ThenSend(req));
      case Begin(OpRecv) => DrainFits(m, st, false, ThenStep(Recv));
      case Wrote(n) => DrainFits(m, Accept(st, n), true, st.pc.k);
      case FlushDone => DrainFits(m, st.(flushed := |st.wire|), false, st.pc.k);
      case Got(chunk) => DrainFits(m, Submit(st, chunk), false, ThenStep(st.pc.call));
      case _ =>
    }
  }

  // Everything still queued comes from the latest core operation: all earlier
  // packets are on the wire, complete.
  ghost predicate OnlyLatestQueued<S, E>(st: State<S, E>) {
    if st.packets == [] then st.core.out == []
    else |st.core.out| <= |st.packets[|st.packets| - 1]|
  }

  lemma {:induction false} DrainKeepsLatest<S, E>(m: Machine<S, E>, st: State<S, E>, wrote: bool, k: Cont<E>)
    requires OnlyLatestQueued(st)
    ensures OnlyLatestQueued(DrainHead(m, st, wrote, k))
    decreases Rank(k), 1
  {
    if st.core.out == [] { ResumeKeepsLatest(m, st, k); }
  }

  lemma {:induction false} ResumeKeepsLatest<S, E>(m: Machine<S, E>, st: State<S, E>, k: Cont<E>)
    requires OnlyLatestQueued(st) && st.core.out == []
    ensures OnlyLatestQueued(Resume(m, st, k))
    decreases Rank(k), 0
  {
    match k
    case ThenSend(req) =>
      if m.send(st.core.s, req).result.Ok? { DrainKeepsLatest(m, Sending(m, st, req), false, ThenReturn(Sent)); }
    case ThenStep(call) =>
      var next := Stepping(m, st, call);
      match m.step(call, st.core.s, st.core.inbuf).verdict {
        case Ready(event) => DrainKeepsLatest(m, next, false, ThenReturn(Done(event)));
        case NeedsInput => DrainKeepsLatest(m, next, false, ThenRead(call));
        case _ =>
      }
    case _ =>
  }

  lemma {:induction false} StepKeepsLatest<S, E>(m: Machine<S, E>, st: State<S, E>, a: Action)
    requires PcFitsQueue(st) && OnlyLatestQueued(st) && !a.CoreSend?
    ensures OnlyLatestQueued(Next(m, st, a))
  {
    hide DrainHead, Resume;
    if Enabled(st, a) {
      match a
      case Begin(OpSend(req)) => DrainKeepsLatest(m, st, false, ThenSend(req));
      case Begin(OpRecv) => DrainKeepsLatest(m, st, false, ThenStep(Recv));
      case Wrote(n) => DrainKeepsLatest(m, Accept(st, n), true, st.pc.k);
      case FlushDone => ResumeKeepsLatest(m, st.(flushed := |st.wire|), st.pc.k);
      case Got(chunk) => DrainKeepsLatest(m, Submit(st, chunk), false, ThenStep(st.pc.call));
      case _ =>
    }
  }

  lemma {:induction false} LatestOnly<S, E>(m: Machine<S, E>, s0: S, acts: seq<Action>)
    requires forall a :: a in acts ==> !a.CoreSend?
    ensures OnlyLatestQueued(Run(m, s0, acts))
  {
    if acts == [] {
      DrainKeepsLatest(m, Initial(s0), false, ThenStep(Handshake));
    } else {
      var before := acts[..|acts| - 1];
      LatestOnly(m, s0, before);
      ReadsOnlyAfterDraining(m, s0, before);
      StepKeepsLatest(m, Run(m, s0, before), acts[|acts| - 1]);
    }
  }

  // In a run that never queues through `core()`, the queue holds at most the
  // output of one core operation, and every earlier packet is on the wire whole:
  // packets never interleave and an interrupted one is finished first.
  lemma {:induction false} QueueHoldsOneOperation<S, E>(m: Machine<S, E>, s0: S, acts: seq<Action>)
    requires forall a :: a in acts ==> !a.CoreSend?
    ensures var st := Run(m, s0, acts);
      if st.packets == [] then st.core.out == [] && st.wire == []
      else
        && Flatten(st.packets[..|st.packets| - 1]) <= st.wire
        && |st.core.out| <= |st.packets[|st.packets| - 1]|
        && st.core.out == st.packets[|st.packets| - 1][|st.packets[|st.packets| - 1]| - |st.core.out|..]
  {
    LatestOnly(m, s0, acts);
    BytesAreConserved(m, s0, acts);
    var st := Run(m, s0, acts);
    if st.packets != [] {
      var last := st.packets[|st.packets| - 1];
      var early := Flatten(st.packets[..|st.packets| - 1]);
      assert early + last == st.wire + st.core.out;
      assert st.wire == (st.wire + st.core.out)[..|st.wire|];
      assert early == (early + last)[..|early|];
      assert st.core.out == (st.wire + st.core.out)[|st.wire|..];
      assert last == (early + last)[|early|..];
    }
  }

  /* Flushing and waiting */

  // This action ends a drain that has written since it last flushed.
  predicate Cuts<S, E>(st: State<S, E>, a: Action) {
    && Enabled(st, a)
    && (a.Cancel? || a.WriteFails? || a.FlushFails? || a == Wrote(0))
    && (st.pc.AwaitFlush? || (st.pc.AwaitWrite? && st.pc.wrote))
  }

  // Some drain was cut between its last write and its flush, and nothing was
  // flushed since. The caller knows: that operation was dropped or returned an
  // error.
  predicate Torn<S, E>(m: Machine<S, E>, s0: S, acts: seq<Action>) {
    if acts == [] then false
    else
      var st := Run(m, s0, acts[..|acts| - 1]);
      var a := acts[|acts| - 1];
      if Cuts(st, a) then true
      else if Enabled(st, a) && a.FlushDone? then false
      else Torn(m, s0, acts[..|acts| - 1])
  }

  predicate MidDrain<S, E>(st: State<S, E>) {
    st.pc.AwaitFlush? || (st.pc.AwaitWrite? && st.pc.wrote)
  }

  ghost predicate FlushState<S, E>(st: State<S, E>, torn: bool) {
    st.flushed <= |st.wire| && (st.flushed < |st.wire| <==> torn || MidDrain(st))
  }

  // A drain that has written nothing and the operation behind it.
  lemma {:induction false} DrainFlushState<S, E>(m: Machine<S, E>, st: State<S, E>, wrote: bool, k: Cont<E>, torn: bool)
    requires st.flushed <= |st.wire|
    requires st.flushed < |st.wire| <==> torn || wrote
    ensures FlushState(DrainHead(m, st, wrote, k), torn)
    ensures !wrote ==> FlushState(Resume(m, st, k), torn)
    decreases Rank(k)
  {
    match k
    case ThenSend(req) => if !wrote { DrainFlushState(m, Sending(m, st, req), false, ThenReturn(Sent), torn); }
    case ThenStep(call) =>
      if !wrote {
        var next := Stepping(m, st, call);
        DrainFlushState(m, next, false, ThenRead(call), torn);
        match m.step(call, st.core.s, st.core.inbuf).verdict {
          case Ready(event) => DrainFlushState(m, next, false, ThenReturn(Done(event)), torn);
          case _ =>
        }
      }
    case _ =>
  }

  lemma {:induction false} StepFlushState<S, E>(m: Machine<S, E>, st: State<S, E>, a: Action, torn: bool)
    requires FlushState(st, torn)
    requires Enabled(st, a)
    ensures FlushState(Next(m, st, a), if Cuts(st, a) then true else if a.FlushDone? then false else torn)
  {
    hide DrainHead, Resume;
    match a
    case Begin(OpSend(req)) => DrainFlushState(m, st, false, ThenSend(req), torn);
    case Begin(OpRecv) => DrainFlushState(m, st, false, ThenStep(Recv), torn);
    case Wrote(n) => if n != 0 { DrainFlushState(m, Accept(st, n), true, st.pc.k, torn); }
    case FlushDone => DrainFlushState(m, st.(flushed := |st.wire|), false, st.pc.k, false);
    case Got(chunk) => DrainFlushState(m, Submit(st, chunk), false, ThenStep(st.pc.call), torn);
    case _ =>
  }

  lemma {:induction false} RunFlushState<S, E>(m: Machine<S, E>, s0: S, acts: seq<Action>)
    ensures FlushState(Run(m, s0, acts), Torn(m, s0, acts))
  {
    if acts == [] {
      DrainFlushState(m, Initial(s0), false, ThenStep(Handshake), false);
    } else {
      var before := acts[..|acts| - 1];
      RunFlushState(m, s0, before);
      if Enabled(Run(m, s0, before), acts[|acts| - 1]) {
        StepFlushState(m, Run(m, s0, before), acts[|acts| - 1], Torn(m, s0, before));
      }
    }
  }

  // The client awaits a read while some byte queued for the peer is unflushed.
  ghost predicate UnflushedRead<S, E>(st: State<S, E>) {
    st.pc.AwaitRead? && st.flushed < |Flatten(st.packets)|
  }

  // A read is awaited with unflushed bytes if and only if an earlier drain was
  // torn. In particular no run whose drains all completed ever gets there.
  lemma {:induction false} UnflushedReadExactlyWhenTorn<S, E>(m: Machine<S, E>, s0: S, acts: seq<Action>)
    ensures Run(m, s0, acts).pc.AwaitRead? ==> (UnflushedRead(Run(m, s0, acts)) <==> Torn(m, s0, acts))
  {
    RunFlushState(m, s0, acts);
    ReadsOnlyAfterDraining(m, s0, acts);
    BytesAreConserved(m, s0, acts);
    var st := Run(m, s0, acts);
    if st.pc.AwaitRead? {
      assert st.wire + st.core.out == st.wire;
    }
  }

  // No write or flush fails and no future is dropped.
  predicate Undisturbed(acts: seq<Action>) {
    forall a :: a in acts ==> !a.Cancel? && !a.WriteFails? && !a.FlushFails? && a != Wrote(0)
  }

  // Then no read is awaited with unflushed bytes, whatever the partial writes,
  // the chunks read and the failed reads.
  lemma {:induction false} UndisturbedRunsNeverStall<S, E>(m: Machine<S, E>, s0: S, acts: seq<Action>)
    requires Undisturbed(acts)
    ensures !Torn(m, s0, acts) && !UnflushedRead(Run(m, s0, acts))
  {
    if acts != [] {
      var before := acts[..|acts| - 1];
      UndisturbedRunsNeverStall(m, s0, before);
      assert acts[|acts| - 1] in acts;
    }
    UnflushedReadExactlyWhenTorn(m, s0, acts);
  }

  lemma NoActions<S, E>(m: Machine<S, E>, s0: S)
    ensures Run(m, s0, []) == Start(m, s0)
  {
  }

  lemma Extend<S, E>(m: Machine<S, E>, s0: S, acts: seq<Action>, st: State<S, E>, a: Action)
      returns (acts': seq<Action>, st': State<S, E>)
    requires Run(m, s0, acts) == st
    ensures acts' == acts + [a] && st' == Next(m, st, a) && Run(m, s0, acts') == st'
  {
    acts', st' := acts + [a], Next(m, st, a);
    RunSnoc(m, s0, acts, a);
  }

  // The torn case does occur, for every machine and from every quiet state: a
  // packet is written in full, its future is dropped before the flush, and the
  // next receive finds an empty queue, so it flushes nothing and awaits a read.
  lemma {:induction false} DroppedFlushStalls<S, E>(m: Machine<S, E>, s0: S, acts: seq<Action>, req: Request)
    requires var st := Run(m, s0, acts);
      && st.pc.Idle? && st.connected && st.core.out == []
      && m.send(st.core.s, req).result.Ok? && m.send(st.core.s, req).queued != []
      && m.step(Recv, st.core.s, st.core.inbuf).verdict.NeedsInput?
      && m.step(Recv, st.core.s, st.core.inbuf).queued == []
    ensures var q := |m.send(Run(m, s0, acts).core.s, req).queued|;
      UnflushedRead(Run(m, s0, acts + [Begin(OpSend(req))] + [Wrote(q)] + [Cancel] + [Begin(OpRecv)]))
  {
    hide Run, Next, Torn, UnflushedRead, Flatten;
    var st0 := Run(m, s0, acts);
    var q := m.send(st0.core.s, req).queued;
    SendCut(m, st0, req);
    var a1, st1 := Extend(m, s0, acts, st0, Begin(OpSend(req)));
    var a2, st2 := Extend(m, s0, a1, st1, Wrote(|q|));
    var a3, st3 := Extend(m, s0, a2, st2, Cancel);
    TornSnoc(m, s0, a2, Cancel);
    IdleReceive(m, st3);
    var a4, st4 := Extend(m, s0, a3, st3, Begin(OpRecv));
    TornSnoc(m, s0, a3, Begin(OpRecv));
    UnflushedReadExactlyWhenTorn(m, s0, a4);
  }

  lemma TornSnoc<S, E>(m: Machine<S, E>, s0: S, acts: seq<Action>, a: Action)
    ensures var st := Run(m, s0, acts);
      Torn(m, s0, acts + [a]) == (Cuts(st, a) || (!(Enabled(st, a) && a.FlushDone?) && Torn(m, s0, acts)))
  {
    hide Run;
    assert (acts + [a])[..|acts|] == acts;
  }

  // A send from an empty queue, written in one go and dropped before its flush.
  lemma {:induction false} SendCut<S, E>(m: Machine<S, E>, st: State<S, E>, req: Request)
    requires st.pc.Idle? && st.connected && st.core.out == []
    requires m.send(st.core.s, req).result.Ok? && m.send(st.core.s, req).queued != []
    ensures var q := m.send(st.core.s, req).queued;
      var sent := Next(m, st, Begin(OpSend(req)));
      var written := Next(m, sent, Wrote(|q|));
      var cut := Next(m, written, Cancel);
      && sent.pc.AwaitWrite? && sent.core.out == q && written.pc.AwaitFlush?
      && cut.pc.Idle? && cut.connected && cut.core == st.core
  {
    hide Resume;
    SendBegun(m, st, req);
  }

  lemma {:induction false} SendBegun<S, E>(m: Machine<S, E>, st: State<S, E>, req: Request)
    requires st.pc.Idle? && st.core.out == []
    requires m.send(st.core.s, req).result.Ok? && m.send(st.core.s, req).queued != []
    ensures var q := m.send(st.core.s, req).queued;
      && Next(m, st, Begin(OpSend(req))) == Queue(st, q).(pc := AwaitWrite(false, ThenReturn(Sent)))
      && Queue(st, q).core.out == q
  {
    var q := m.send(st.core.s, req).queued;
    assert [] + q == q;
    NothingToDrain(m, st, ThenSend(req));
    assert Resume(m, st, ThenSend(req)) == DrainHead(m, Sending(m, st, req), false, ThenReturn(Sent));
  }

  // A receive that has nothing to drain and needs input awaits a read.
  lemma {:induction false} IdleReceive<S, E>(m: Machine<S, E>, st: State<S, E>)
    requires st.pc.Idle? && st.core.out == []
    requires var r := m.step(Recv, st.core.s, st.core.inbuf); r.verdict.NeedsInput? && r.queued == []
    ensures Next(m, st, Begin(OpRecv)).pc.AwaitRead?
  {
    var next := Stepping(m, st, Recv);
    assert Resume(m, st, ThenStep(Recv)) == DrainHead(m, next, false, ThenRead(Recv));
  }

  // Such quiet states are reachable: by the handshake of any machine that
  // queues a Hello, is answered in one read, and queues an addendum.
  lemma {:induction false} HandshakeReachesQuiet<S, E>(
      m: Machine<S, E>, s0: S, hello: Reply<S, E>, answer: Bytes, last: Reply<S, E>)
      returns (acts: seq<Action>)
    requires m.step(Handshake, s0, []) == hello && hello.verdict.NeedsInput? && hello.used == 0 && hello.queued != []
    requires answer != [] && m.step(Handshake, hello.state, answer) == last
    requires last.verdict.Ready? && last.used == |answer| && last.queued != []
    ensures var st := Run(m, s0, acts);
      && st.pc.Idle? && st.connected && st.core == Core(last.state, [], [])
      && st.taken == st.submitted == answer
  {
    hide Run, Start;
    var st := HelloQueued(m, s0, hello);
    NoActions(m, s0);
    acts := [];
    acts, st := Extend(m, s0, acts, st, Wrote(|hello.queued|));
    acts, st := Extend(m, s0, acts, st, FlushDone);
    AnswerTaken(m, st, answer, last);
    acts, st := Extend(m, s0, acts, st, Got(answer));
    acts, st := Extend(m, s0, acts, st, Wrote(|last.queued|));
    acts, st := Extend(m, s0, acts, st, FlushDone);
  }

  lemma {:induction false} HelloQueued<S, E>(m: Machine<S, E>, s0: S, hello: Reply<S, E>) returns (st: State<S, E>)
    requires m.step(Handshake, s0, []) == hello && hello.verdict.NeedsInput? && hello.used == 0 && hello.queued != []
    ensures st == Start(m, s0)
    ensures st.pc == AwaitWrite(false, ThenRead(Handshake)) && st.core == Core(hello.state, [], hello.queued)
    ensures !st.connected
    ensures st.taken == st.submitted == []
  {
    var init := Initial(s0);
    assert [] + hello.queued == hello.queued;
    assert Resume(m, init, ThenStep(Handshake)) == DrainHead(m, Stepping(m, init, Handshake), false, ThenRead(Handshake));
    st := Start(m, s0);
  }

  lemma {:induction false} AnswerTaken<S, E>(m: Machine<S, E>, st: State<S, E>, answer: Bytes, last: Reply<S, E>)
    requires st.pc == AwaitRead(Handshake) && st.core.inbuf == [] && st.core.out == [] && answer != []
    requires m.step(Handshake, st.core.s, answer) == last
    requires last.verdict.Ready? && last.used == |answer| && last.queued != []
    ensures var next := Next(m, st, Got(answer));
      && next.core == Core(last.state, [], last.queued) && next.connected == st.connected
      && next.taken == st.taken + answer && next.submitted == st.submitted + answer
      && next.pc == AwaitWrite(false, ThenReturn(Done(last.verdict.event)))
  {
    var mid := Submit(st, answer);
    assert mid.core.inbuf == answer && [] + last.queued == last.queued;
    assert Next(m, st, Got(answer)) == Resume(m, mid, ThenStep(Handshake));
  }

  lemma FramesQuiet() returns (acts: seq<Action>)
    ensures var st := Run(Frames.FRAMES, Frames.Fresh, acts);
      && st.pc.Idle? && st.connected && st.core == Core(Frames.Header, [], [])
      && st.taken == st.submitted == [0]
  {
    var hello := Frames.HelloReply();
    var last := Frames.AnswerReply();
    acts := HandshakeReachesQuiet(Frames.FRAMES, Frames.Fresh, hello, [0], last);
  }

  // The frame machine stalls as described.
  lemma FramesStall() returns (acts: seq<Action>)
    ensures UnflushedRead(Run(Frames.FRAMES, Frames.Fresh, acts))
  {
    var quiet := FramesQuiet();
    Frames.IdleReplies();
    DroppedFlushStalls(Frames.FRAMES, Frames.Fresh, quiet, DataEnd);
    acts := quiet + [Begin(OpSend(DataEnd))] + [Wrote(1)] + [Cancel] + [Begin(OpRecv)];
  }

  // An operation that reports success leaves nothing queued, and nothing
  // unflushed either unless an earlier drain was torn.
  lemma {:induction false} SuccessMeansDrained<S, E>(m: Machine<S, E>, s0: S, acts: seq<Action>, a: Action)
    requires var log := Run(m, s0, acts + [a]).log;
      |log| > |Run(m, s0, acts).log| && (log[|log| - 1].Sent? || log[|log| - 1].Done?)
    ensures var st := Run(m, s0, acts + [a]);
      && st.core.out == []
      && (st.flushed == |st.wire| <==> !Torn(m, s0, acts + [a]))
  {
    hide Run, Next, Torn, PcFitsQueue;
    RunSnoc(m, s0, acts, a);
    ReadsOnlyAfterDraining(m, s0, acts);
    RunFlushState(m, s0, acts + [a]);
    StepSucceeds(m, Run(m, s0, acts), a);
  }

  // The log has not grown, or the operation failed, or it left nothing queued.
  ghost predicate SettledClean<S, E>(before: State<S, E>, after: State<S, E>) {
    || |after.log| <= |before.log|
    || after.log[|after.log| - 1].Error?
    || after.log[|after.log| - 1].Dropped?
    || (after.core.out == [] && (after.pc.Idle? || after.pc.Gone?))
  }

  lemma {:induction false} StepSucceeds<S, E>(m: Machine<S, E>, st: State<S, E>, a: Action)
    requires PcFitsQueue(st)
    ensures SettledClean(st, Next(m, st, a))
  {
    hide DrainHead, Resume;
    if Enabled(st, a) {
      match a
      case Begin(OpSend(req)) => DrainSucceeds(m, st, false, ThenSend(req));
      case Begin(OpRecv) => DrainSucceeds(m, st, false, ThenStep(Recv));
      case Wrote(n) => DrainSucceeds(m, Accept(st, n), true, st.pc.k);
      case FlushDone => DrainSucceeds(m, st.(flushed := |st.wire|), false, st.pc.k);
      case Got(chunk) => DrainSucceeds(m, Submit(st, chunk), false, ThenStep(st.pc.call));
      case _ =>
    }
  }

  lemma {:induction false} DrainSucceeds<S, E>(m: Machine<S, E>, st: State<S, E>, wrote: bool, k: Cont<E>)
    ensures SettledClean(st, DrainHead(m, st, wrote, k))
    ensures st.core.out == [] ==> SettledClean(st, Resume(m, st, k))
    decreases Rank(k)
  {
    match k
    case ThenSend(req) => DrainSucceeds(m, Sending(m, st, req), false, ThenReturn(Sent));
    case ThenStep(call) =>
      var next := Stepping(m, st, call);
      DrainSucceeds(m, next, false, ThenRead(call));
      match m.step(call, st.core.s, st.core.inbuf).verdict {
        case Ready(event) => DrainSucceeds(m, next, false, ThenReturn(Done(event)));
        case _ =>
      }
    case _ =>
  }
}
