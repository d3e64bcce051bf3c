// The pump with its peer. Bytes written wait in the client's half of the
// transport until a flush delivers them, or earlier if the transport likes; the
// peer answers once it has received everything queued for it, and its answers
// are in flight until the client reads them.
module PumpPeer {
  import opened Outcomes
  import opened Protocol
  import opened Pump
  import opened PumpSafety
  import Frames

  // What the client did so far, how many bytes on its wire the peer has
  // received, and what the peer sent that the client has not read.
  datatype World = World(acts: seq<Action>, received: nat, inflight: Bytes)

  datatype Move = Client(a: Action) | Deliver(n: nat) | Serve(bytes: Bytes)

  function Chunk(a: Action): Bytes {
    match a
    case Got(chunk) => chunk
    case SubmitFails(chunk) => chunk
    case _ => []
  }

  ghost predicate Possible<S, E>(m: Machine<S, E>, s0: S, w: World, mv: Move) {
    var st := Run(m, s0, w.acts);
    match mv
    case Client(a) => Enabled(st, a) && Chunk(a) <= w.inflight
    case Deliver(n) => w.received <= n <= |st.wire|
    case Serve(_) => w.received == |Flatten(st.packets)|
  }

  // A move that is not possible leaves the world alone.
  ghost function Moved<S, E>(m: Machine<S, E>, s0: S, w: World, mv: Move): World {
    if !Possible(m, s0, w, mv) then w
    else
      match mv
      case Client(a) =>
        World(
          w.acts + [a],
          if a.FlushDone? then |Run(m, s0, w.acts).wire| else w.received,
          w.inflight[|Chunk(a)|..])
      case Deliver(n) => w.(received := n)
      case Serve(bytes) => w.(inflight := w.inflight + bytes)
  }

  ghost function Play<S, E>(m: Machine<S, E>, s0: S, moves: seq<Move>): World {
    if moves == [] then World([], 0, [])
    else Moved(m, s0, Play(m, s0, moves[..|moves| - 1]), moves[|moves| - 1])
  }

  // Client and peer wait for each other: the client awaits a read with nothing
  // in flight, and the peer has not received all that was queued for it.
  ghost predicate MutualWait<S, E>(m: Machine<S, E>, s0: S, w: World) {
    var st := Run(m, s0, w.acts);
    st.pc.AwaitRead? && w.inflight == [] && w.received < |Flatten(st.packets)|
  }

  // The peer has received what was flushed, and nothing that was not written.
  ghost predicate Received<S, E>(m: Machine<S, E>, s0: S, w: World) {
    Run(m, s0, w.acts).flushed <= w.received <= |Run(m, s0, w.acts).wire|
  }

  // What one action does to the wire.
  lemma {:induction false} DrainKeepsWire<S, E>(m: Machine<S, E>, st: State<S, E>, wrote: bool, k: Cont<E>)
    ensures DrainHead(m, st, wrote, k).wire == st.wire == Resume(m, st, k).wire
    ensures DrainHead(m, st, wrote, k).flushed == st.flushed == Resume(m, st, k).flushed
    decreases Rank(k)
  {
    match k
    case ThenSend(req) => DrainKeepsWire(m, Sending(m, st, req), false, ThenReturn(Sent));
    case ThenStep(call) =>
      var next := Stepping(m, st, call);
      DrainKeepsWire(m, next, false, ThenRead(call));
      match m.step(call, st.core.s, st.core.inbuf).verdict {
        case Ready(event) => DrainKeepsWire(m, next, false, ThenReturn(Done(event)));
        case _ =>
      }
    case _ =>
  }

  lemma {:induction false} StepKeepsWire<S, E>(m: Machine<S, E>, st: State<S, E>, a: Action)
    requires Enabled(st, a)
    ensures |st.wire| <= |Next(m, st, a).wire|
    ensures a.FlushDone? ==> Next(m, st, a).wire == st.wire && Next(m, st, a).flushed == |st.wire|
    ensures !a.FlushDone? ==> Next(m, st, a).flushed == st.flushed
  {
    hide DrainHead, Resume;
    match a
    case Begin(OpSend(req)) => DrainKeepsWire(m, st, false, ThenSend(req));
    case Begin(OpRecv) => DrainKeepsWire(m, st, false, ThenStep(Recv));
    case Wrote(n) => DrainKeepsWire(m, Accept(st, n), true, st.pc.k);
    case FlushDone => DrainKeepsWire(m, st.(flushed := |st.wire|), false, st.pc.k);
    case Got(chunk) => DrainKeepsWire(m, Submit(st, chunk), false, ThenStep(st.pc.call));
    case _ =>
  }

  lemma {:induction false} MoveReceives<S, E>(m: Machine<S, E>, s0: S, w: World, mv: Move)
    requires Received(m, s0, w)
    ensures Received(m, s0, Moved(m, s0, w, mv))
    ensures !mv.Deliver? && w.received == Run(m, s0, w.acts).flushed ==>
      var next := Moved(m, s0, w, mv);
      next.received == Run(m, s0, next.acts).flushed
  {
    hide Run, Next;
    if Possible(m, s0, w, mv) && mv.Client? {
      RunSnoc(m, s0, w.acts, mv.a);
      StepKeepsWire(m, Run(m, s0, w.acts), mv.a);
    }
  }

  lemma {:induction false} PlayReceives<S, E>(m: Machine<S, E>, s0: S, moves: seq<Move>)
    ensures Received(m, s0, Play(m, s0, moves))
    ensures (forall mv :: mv in moves ==> !mv.Deliver?) ==>
      var w := Play(m, s0, moves);
      w.received == Run(m, s0, w.acts).flushed
  {
    if moves == [] {
      DrainKeepsWire(m, Initial(s0), false, ThenStep(Handshake));
    } else {
      PlayReceives(m, s0, moves[..|moves| - 1]);
      MoveReceives(m, s0, Play(m, s0, moves[..|moves| - 1]), moves[|moves| - 1]);
    }
  }

  // Whatever client, transport and peer do, they come to wait for each other
  // only after a drain was torn: otherwise a client that awaits a read has bytes
  // coming or a peer that can answer.
  lemma {:induction false} MutualWaitNeedsATear<S, E>(m: Machine<S, E>, s0: S, moves: seq<Move>)
    ensures var w := Play(m, s0, moves);
      MutualWait(m, s0, w) ==> Torn(m, s0, w.acts)
  {
    hide Run, Torn;
    var w := Play(m, s0, moves);
    PlayReceives(m, s0, moves);
    UnflushedReadExactlyWhenTorn(m, s0, w.acts);
  }

  // With a transport that delivers nothing before a flush, a tear is also enough
  // once the client has read what was in flight.
  lemma {:induction false} MutualWaitExactlyWhenTorn<S, E>(m: Machine<S, E>, s0: S, moves: seq<Move>)
    requires forall mv :: mv in moves ==> !mv.Deliver?
    requires var w := Play(m, s0, moves);
      Run(m, s0, w.acts).pc.AwaitRead? && w.inflight == []
    ensures var w := Play(m, s0, moves);
      MutualWait(m, s0, w) <==> Torn(m, s0, w.acts)
  {
    hide Run, Torn;
    var w := Play(m, s0, moves);
    PlayReceives(m, s0, moves);
    UnflushedReadExactlyWhenTorn(m, s0, w.acts);
  }

  // Unless the transport delivers ahead of a flush after all, only dropping the
  // receive, or a failing or closed transport, gets them out: the read has
  // nothing to return, and the peer does not answer.
  lemma {:induction false} MutualWaitIsStuck<S, E>(m: Machine<S, E>, s0: S, moves: seq<Move>, mv: Move)
    requires MutualWait(m, s0, Play(m, s0, moves)) && Possible(m, s0, Play(m, s0, moves), mv)
    ensures mv.Deliver? || (mv.Client? && (mv.a.Cancel? || mv.a.Closed? || mv.a.ReadFails?))
  {
  }

  /* A run that gets there */

  lemma PlaySnoc<S, E>(m: Machine<S, E>, s0: S, moves: seq<Move>, mv: Move)
    ensures Play(m, s0, moves + [mv]) == Moved(m, s0, Play(m, s0, moves), mv)
  {
    assert (moves + [mv])[..|moves|] == moves;
  }

  lemma PlayStarts<S, E>(m: Machine<S, E>, s0: S)
    ensures Play(m, s0, []) == World([], 0, []) && Run(m, s0, []) == Start(m, s0)
  {
    NoActions(m, s0);
  }

  lemma {:induction false} Act<S, E>(m: Machine<S, E>, s0: S, moves: seq<Move>, a: Action) returns (moves': seq<Move>)
    requires Enabled(Run(m, s0, Play(m, s0, moves).acts), a) && Chunk(a) <= Play(m, s0, moves).inflight
    ensures moves' == moves + [Client(a)]
    ensures var w, w' := Play(m, s0, moves), Play(m, s0, moves');
      && w'.acts == w.acts + [a] && w'.inflight == w.inflight[|Chunk(a)|..]
      && Run(m, s0, w'.acts) == Next(m, Run(m, s0, w.acts), a)
  {
    moves' := moves + [Client(a)];
    PlaySnoc(m, s0, moves, Client(a));
    RunSnoc(m, s0, Play(m, s0, moves).acts, a);
  }

  // For every machine and from every quiet state with nothing in flight: a send
  // is dropped before its flush, and the receive that follows waits for a peer
  // that waits for the send.
  lemma {:induction false} DroppedFlushBlocksBoth<S, E>(m: Machine<S, E>, s0: S, moves: seq<Move>, req: Request)
      returns (moves': seq<Move>)
    requires forall mv :: mv in moves ==> !mv.Deliver?
    requires Play(m, s0, moves).inflight == []
    requires var st := Run(m, s0, Play(m, s0, moves).acts);
      && st.pc.Idle? && st.connected && st.core.out == []
      && m.send(st.core.s, req).result.Ok? && m.send(st.core.s, req).queued != []
      && m.step(Recv, st.core.s, st.core.inbuf).verdict.NeedsInput?
      && m.step(Recv, st.core.s, st.core.inbuf).queued == []
    ensures MutualWait(m, s0, Play(m, s0, moves'))
  {
    hide Run, Play;
    var w := Play(m, s0, moves);
    var st := Run(m, s0, w.acts);
    var q := m.send(st.core.s, req).queued;
    DroppedFlushStalls(m, s0, w.acts, req);
    var m1 := Act(m, s0, moves, Begin(OpSend(req)));
    SendCut(m, st, req);
    var m2 := Act(m, s0, m1, Wrote(|q|));
    var m3 := Act(m, s0, m2, Cancel);
    moves' := Act(m, s0, m3, Begin(OpRecv));
    PlayReceives(m, s0, moves');
    UnflushedReadExactlyWhenTorn(m, s0, Play(m, s0, moves').acts);
    MutualWaitExactlyWhenTorn(m, s0, moves');
  }

  // Such states are reached: by the handshake of any machine that queues a
  // Hello, is answered once the peer has it, and queues an addendum.
  lemma {:induction false} HandshakeWithPeer<S, E>(
      m: Machine<S, E>, s0: S, hello: Reply<S, E>, answer: Bytes, last: Reply<S, E>)
      returns (moves: seq<Move>)
    requires m.step(Handshake, s0, []) == hello && hello.verdict.NeedsInput? && hello.used == 0 && hello.queued != []
    requires answer != [] && m.step(Handshake, hello.state, answer) == last
    requires last.verdict.Ready? && last.used == |answer| && last.queued != []
    ensures forall mv :: mv in moves ==> !mv.Deliver?
    ensures Play(m, s0, moves).inflight == []
    ensures var st := Run(m, s0, Play(m, s0, moves).acts);
      st.pc.Idle? && st.connected && st.core == Core(last.state, [], [])
  {
    hide Play, Run;
    moves := HelloAnswered(m, s0, hello, answer);
    AnswerTaken(m, Run(m, s0, Play(m, s0, moves).acts), answer, last);
    moves := Act(m, s0, moves, Got(answer));
    moves := Act(m, s0, moves, Wrote(|last.queued|));
    moves := Act(m, s0, moves, FlushDone);
  }

  // One write takes the whole queue.
  lemma {:induction false} WrittenAndFlushed<S, E>(m: Machine<S, E>, st: State<S, E>, q: Bytes, k: Cont<E>)
    requires st.pc == AwaitWrite(false, k) && st.core.out == q && q != [] && k.ThenRead?
    ensures Enabled(st, Wrote(|q|))
    ensures var written := Next(m, st, Wrote(|q|));
      var flushed := Next(m, written, FlushDone);
      && Enabled(written, FlushDone)
      && flushed.pc == AwaitRead(k.call) && flushed.core == st.core.(out := [])
      && flushed.connected == st.connected && flushed.flushed == |flushed.wire|
  {
    assert Accept(st, |q|).core.out == [];
    assert Next(m, st, Wrote(|q|)) == Accept(st, |q|).(pc := AwaitFlush(k));
  }

  lemma {:induction false} HelloAnswered<S, E>(m: Machine<S, E>, s0: S, hello: Reply<S, E>, answer: Bytes)
      returns (moves: seq<Move>)
    requires m.step(Handshake, s0, []) == hello && hello.verdict.NeedsInput? && hello.used == 0 && hello.queued != []
    ensures forall mv :: mv in moves ==> !mv.Deliver?
    ensures Play(m, s0, moves).inflight == answer
    ensures var st := Run(m, s0, Play(m, s0, moves).acts);
      st.pc == AwaitRead(Handshake) && st.core == Core(hello.state, [], []) && !st.connected
  {
    hide Run, Start, Next, Play;
    var st := HelloQueued(m, s0, hello);
    PlayStarts(m, s0);
    WrittenAndFlushed(m, st, hello.queued, ThenRead(Handshake));
    moves := Act(m, s0, [], Wrote(|hello.queued|));
    moves := Act(m, s0, moves, FlushDone);
    var w := Play(m, s0, moves);
    BytesAreConserved(m, s0, w.acts);
    PlayReceives(m, s0, moves);
    assert Run(m, s0, w.acts).wire + [] == Run(m, s0, w.acts).wire;
    PlaySnoc(m, s0, moves, Serve(answer));
    moves := moves + [Serve(answer)];
    assert w.inflight == [] && w.inflight + answer == answer;
  }

  // The frame machine and its peer come to wait for each other.
  lemma FramesWaitForEachOther() returns (moves: seq<Move>)
    ensures MutualWait(Frames.FRAMES, Frames.Fresh, Play(Frames.FRAMES, Frames.Fresh, moves))
  {
    hide Play, Run;
    var hello := Frames.HelloReply();
    var last := Frames.AnswerReply();
    moves := HandshakeWithPeer(Frames.FRAMES, Frames.Fresh, hello, [0], last);
    Frames.IdleReplies();
    moves := DroppedFlushBlocksBoth(Frames.FRAMES, Frames.Fresh, moves, DataEnd);
  }
}
