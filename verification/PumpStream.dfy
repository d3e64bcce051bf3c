// What a server's byte stream determines: the events its reader hands over, and
// what happens to them when a chunk read off the stream is lost.
module PumpStream {
  import opened Outcomes
  import opened Protocol
  import opened Pump
  import opened PumpDecoding
  import opened PumpProgress
  import opened PumpSafety
  import Frames

  /* One stream, one list of events */

  // Two runs that used up the same stream have decoded the same events, however
  // it was split into chunks and whatever was dropped or failed on the way.
  lemma {:induction false} SameStreamSameEvents<S(!new), E(!new)>(
      m: Machine<S, E>, s0: S, all: Bytes, acts1: seq<Action>, acts2: seq<Action>)
    requires Lawful(m) && UsedUp(Run(m, s0, acts1), all) && UsedUp(Run(m, s0, acts2), all)
    ensures Run(m, s0, acts1).decoded == Run(m, s0, acts2).decoded
  {
    hide Run, WholeDecoding;
    DecodesExactlyTheStream(m, s0, all, acts1);
    DecodesExactlyTheStream(m, s0, all, acts2);
    WholeDecodingIsUnique(m, s0, all, Run(m, s0, acts1).decoded, Run(m, s0, acts2).decoded);
  }

  // Awaiting more of it, they have handed the same events to their callers, and
  // those are the events of the stream.
  lemma {:induction false} SameStreamSameDeliveries<S(!new), E(!new)>(
      m: Machine<S, E>, s0: S, all: Bytes, d: seq<Decoding<E>>, acts: seq<Action>)
    requires Lawful(m) && QuietRecv(m) && WholeDecoding(m, s0, all, d)
    requires Run(m, s0, acts).pc.AwaitRead? && Run(m, s0, acts).submitted == all
    ensures Delivered(Run(m, s0, acts).log) == Events(d)
  {
    hide Run, WholeDecoding, Delivered, Events;
    DecodesExactlyTheStream(m, s0, all, acts);
    WholeDecodingIsUnique(m, s0, all, d, Run(m, s0, acts).decoded);
    RunHandsOver(m, s0, acts);
    assert Owed(Run(m, s0, acts), []);
    assert Delivered(Run(m, s0, acts).log) + [] == Delivered(Run(m, s0, acts).log);
  }

  /* Chunks that were read and not taken */

  // Some chunk was read off the stream and the core had no memory to take it.
  predicate Loses<S, E>(m: Machine<S, E>, s0: S, acts: seq<Action>) {
    acts != [] &&
      var before, a := acts[..|acts| - 1], acts[|acts| - 1];
      (Enabled(Run(m, s0, before), a) && a.SubmitFails?) || Loses(m, s0, before)
  }

  // The core has taken less than was read, if chunks were lost, and else all of it.
  ghost predicate TakenFits<S, E>(st: State<S, E>, lost: bool) {
    if lost then |st.submitted| < |st.taken| else st.submitted == st.taken
  }

  lemma {:induction false} StepTakes<S, E>(m: Machine<S, E>, st: State<S, E>, a: Action, lost: bool)
    requires TakenFits(st, lost) && Enabled(st, a)
    ensures TakenFits(Next(m, st, a), lost || a.SubmitFails?)
  {
    hide DrainHead, Resume;
    match a
    case Begin(OpSend(req)) => DrainKeepsInput(m, st, false, ThenSend(req));
    case Begin(OpRecv) => DrainKeepsInput(m, st, false, ThenStep(Recv));
    case Wrote(n) => DrainKeepsInput(m, Accept(st, n), true, st.pc.k);
    case FlushDone => DrainKeepsInput(m, st.(flushed := |st.wire|), false, st.pc.k);
    case Got(chunk) => DrainKeepsInput(m, Submit(st, chunk), false, ThenStep(st.pc.call));
    case _ =>
  }

  // Everything read off the stream reaches the core if and only if no copy of a
  // chunk ran out of memory.
  lemma {:induction false} EverythingReadIsTaken<S, E>(m: Machine<S, E>, s0: S, acts: seq<Action>)
    ensures var st := Run(m, s0, acts);
      st.submitted == st.taken <==> !Loses(m, s0, acts)
  {
    RunTakes(m, s0, acts);
  }

  lemma {:induction false} RunTakes<S, E>(m: Machine<S, E>, s0: S, acts: seq<Action>)
    ensures TakenFits(Run(m, s0, acts), Loses(m, s0, acts))
  {
    if acts == [] {
      DrainKeepsInput(m, Initial(s0), false, ThenStep(Handshake));
    } else {
      var before, a := acts[..|acts| - 1], acts[|acts| - 1];
      RunTakes(m, s0, before);
      if Enabled(Run(m, s0, before), a) {
        StepTakes(m, Run(m, s0, before), a, Loses(m, s0, before));
      }
    }
  }

  // So a client that lost nothing and awaits a read has decoded exactly what it
  // read off the stream.
  lemma {:induction false} ReadsAreDecoded<S(!new), E(!new)>(m: Machine<S, E>, s0: S, acts: seq<Action>)
    requires Lawful(m) && Run(m, s0, acts).pc.AwaitRead? && !Loses(m, s0, acts)
    ensures WholeDecoding(m, s0, Run(m, s0, acts).taken, Run(m, s0, acts).decoded)
  {
    hide Run, Loses, WholeDecoding;
    EverythingReadIsTaken(m, s0, acts);
    DecodesExactlyTheStream(m, s0, Run(m, s0, acts).taken, acts);
  }

  /* A lost chunk */

  // An idle client whose next receive needs input and queues nothing.
  ghost predicate Quiet<S, E>(m: Machine<S, E>, st: State<S, E>) {
    var r := m.step(Recv, st.core.s, st.core.inbuf);
    st.pc.Idle? && st.connected && st.core.out == [] && r.verdict.NeedsInput? && r.queued == []
  }

  // Receiving at such a point only moves the core along to the read.
  lemma {:induction false} QuietReceive<S(!new), E(!new)>(m: Machine<S, E>, st: State<S, E>)
    requires Lawful(m) && Quiet(m, st)
    ensures var next := Next(m, st, Begin(OpRecv));
      && next.pc == AwaitRead(Recv) && next.connected && next.core.out == []
      && next.decoded == st.decoded && next.submitted == st.submitted && next.taken == st.taken
      && m.step(Recv, next.core.s, next.core.inbuf).verdict.NeedsInput?
      && m.step(Recv, next.core.s, next.core.inbuf).queued == []
  {
    var b := st.core.inbuf;
    var r := m.step(Recv, st.core.s, b);
    assert Coherent(m, Recv, st.core.s, b, []);
    assert b + [] == b && Drop(b, r.used) + [] == Drop(b, r.used) && [] + r.queued == [];
    var next := Stepping(m, st, Recv);
    assert next.core == Core(r.state, Drop(b, r.used), []);
    NothingToDrain(m, st, ThenStep(Recv));
    assert Resume(m, st, ThenStep(Recv)) == DrainHead(m, next, false, ThenRead(Recv));
    NothingToDrain(m, next, ThenRead(Recv));
  }

  // For every machine and from every quiet state: a receive reads a chunk, the
  // core has no memory for it, and the receive is repeated. The client awaits a
  // read with no further decision, however far the bytes it has read go.
  lemma {:induction false} LostChunk<S(!new), E(!new)>(m: Machine<S, E>, s0: S, acts: seq<Action>, chunk: Bytes)
      returns (lossy: seq<Action>)
    requires Lawful(m) && Quiet(m, Run(m, s0, acts)) && chunk != []
    ensures lossy == acts + [Begin(OpRecv)] + [SubmitFails(chunk)] + [Begin(OpRecv)]
    ensures var st0, st := Run(m, s0, acts), Run(m, s0, lossy);
      && st.pc == AwaitRead(Recv) && st.decoded == st0.decoded
      && st.submitted == st0.submitted && st.taken == st0.taken + chunk
  {
    hide Run, Lawful;
    var st0 := Run(m, s0, acts);
    QuietReceive(m, st0);
    var a1, st1 := Extend(m, s0, acts, st0, Begin(OpRecv));
    var a2, st2 := Extend(m, s0, a1, st1, SubmitFails(chunk));
    assert st2 == Finish(Read(st1, chunk), Error(Oom));
    QuietReceive(m, st2);
    var st3;
    lossy, st3 := Extend(m, s0, a2, st2, Begin(OpRecv));
  }

  // If nothing was lost before, and the chunk would have decided the receive,
  // then the client has not decoded what it read: the event is gone.
  lemma {:induction false} LostChunkLosesEvents<S(!new), E(!new)>(
      m: Machine<S, E>, s0: S, acts: seq<Action>, chunk: Bytes)
      returns (lossy: seq<Action>)
    requires Lawful(m) && Quiet(m, Run(m, s0, acts)) && chunk != [] && !Loses(m, s0, acts)
    ensures lossy == acts + [Begin(OpRecv)] + [SubmitFails(chunk)] + [Begin(OpRecv)]
    ensures var st0, st := Run(m, s0, acts), Run(m, s0, lossy);
      && st.pc == AwaitRead(Recv)
      && (WholeDecoding(m, s0, st.taken, st.decoded)
          <==> m.step(Recv, st0.core.s, st0.core.inbuf + chunk).verdict.NeedsInput?)
  {
    hide Run, Loses, Lawful, Replay;
    lossy := LostChunk(m, s0, acts, chunk);
    var st0, st := Run(m, s0, acts), Run(m, s0, lossy);
    EverythingReadIsTaken(m, s0, acts);
    CallsAreForced(m, s0, acts);
    RunTracks(m, s0, st.taken, acts);
    RunDecodes(m, s0, st.taken, acts);
    assert Drop(st.taken, |st0.submitted|) == chunk;
    assert Left(st.taken, st0) == st0.core.inbuf + chunk;
  }

  // The frame machine loses an event: one is missing after two bytes were read,
  // of which the second is a whole frame.
  lemma FramesLoseAnEvent() returns (acts: seq<Action>)
    ensures var st := Run(Frames.FRAMES, Frames.Fresh, acts);
      && st.pc == AwaitRead(Recv)
      && !WholeDecoding(Frames.FRAMES, Frames.Fresh, st.taken, st.decoded)
  {
    hide Run, Loses, WholeDecoding;
    Frames.FramesLawful();
    Frames.IdleReplies();
    var quiet := FramesQuiet();
    EverythingReadIsTaken(Frames.FRAMES, Frames.Fresh, quiet);
    assert [] + [0] == [0];
    acts := LostChunkLosesEvents(Frames.FRAMES, Frames.Fresh, quiet, [0]);
  }
}
