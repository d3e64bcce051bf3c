// The client of src/async_client.rs in its own form: objects whose methods
// update them in place. The transport decides each call arbitrarily; a future
// dropped at an `await` is a call that comes back `Interrupted`, after which the
// method does nothing more.
//
// The transport keeps a record of its answers, and every method appends to
// `acts` what the answers mean to the small-step system of `Pump` (`Recorded`).
// `Valid` says that the object is where that run ends, so the theorems about runs
// hold of these methods.
module AsyncClient {
  import opened Outcomes
  import opened Protocol
  import opened Pump

  const DEFAULT_READ_BUF_BYTES: nat := 8 * 1024

  // The protocol machine of src/ioless.rs with its buffers.
  class IolessClient<S, E> {
    const m: Machine<S, E>
    var s: S
    var inbuf: Bytes
    var out: Bytes
    // How many times copying input has run out of memory.
    ghost var refusals: nat

    constructor (m: Machine<S, E>, s: S)
      ensures this.m == m && this.s == s && inbuf == [] && out == []
    {
      this.m, this.s, inbuf, out := m, s, [], [];
      refusals := 0;
    }

    // Copying input may run out of memory; then nothing is taken.
    method Submit(bytes: Bytes) returns (r: Result<()>)
      modifies this`inbuf, this`refusals
      ensures r == Ok(()) || r == Err(Oom)
      ensures inbuf == if r.Ok? then old(inbuf) + bytes else old(inbuf)
      ensures refusals == if r.Ok? then old(refusals) else old(refusals) + 1
    {
      if * {
        refusals := refusals + 1;
        r := Err(Oom);
      } else {
        inbuf := inbuf + bytes;
        r := Ok(());
      }
    }

    method PendingOut() returns (bytes: Bytes)
      ensures bytes == out
    {
      bytes := out;
    }

    // Values larger than the queue remove all of it.
    method ConsumeOut(n: nat)
      modifies this`out
      ensures out == if n <= |old(out)| then old(out)[n..] else []
    {
      out := if n < |out| then out[n..] else [];
    }

    method Step(call: Call) returns (v: Verdict<E>)
      modifies this`s, this`inbuf, this`out
      ensures var r := m.step(call, old(s), old(inbuf));
        v == r.verdict && s == r.state && inbuf == Drop(old(inbuf), r.used) && out == old(out) + r.queued
    {
      var r := m.step(call, s, inbuf);
      s, inbuf, out := r.state, Drop(inbuf, r.used), out + r.queued;
      v := r.verdict;
    }

    method Send(req: Request) returns (r: Result<()>)
      modifies this`out
      ensures r == m.send(s, req).result && out == old(out) + m.send(s, req).queued
    {
      var e := m.send(s, req);
      out := out + e.queued;
      r := e.result;
    }
  }

  datatype Io<+T> = Pass(value: T) | Failing | Interrupted

  // A call to the transport, with what it was given, and its answer.
  datatype Answer =
    | WriteAnswer(buf: Bytes, written: Io<nat>)
    | FlushAnswer(flushed: Io<()>)
    | ReadAnswer(cap: nat, read: Io<Bytes>)

  // A byte stream: what the peer will still send, what was written, and how
  // much of that was flushed.
  class Transport {
    var incoming: Bytes
    var wire: Bytes
    var flushed: nat
    ghost var answers: seq<Answer>

    constructor (incoming: Bytes)
      ensures this.incoming == incoming && wire == [] && flushed == 0 && answers == []
    {
      this.incoming, wire, flushed, answers := incoming, [], 0, [];
    }

    method Write(buf: Bytes) returns (r: Io<nat>)
      modifies this`wire, this`answers
      ensures r.Pass? ==> r.value <= |buf| && wire == old(wire) + buf[..r.value]
      ensures !r.Pass? ==> wire == old(wire)
      ensures answers == old(answers) + [WriteAnswer(buf, r)]
    {
      if * { r := Failing; } else { r := Interrupted; }
      if * {
        assert 0 <= |buf|;
        var n :| 0 <= n <= |buf|;
        wire := wire + buf[..n];
        r := Pass(n);
      }
      answers := answers + [WriteAnswer(buf, r)];
    }

    method Flush() returns (r: Io<()>)
      modifies this`flushed, this`answers
      ensures flushed == if r.Pass? then |wire| else old(flushed)
      ensures answers == old(answers) + [FlushAnswer(r)]
    {
      if * { r := Failing; } else { r := Interrupted; }
      if * {
        flushed := |wire|;
        r := Pass(());
      }
      answers := answers + [FlushAnswer(r)];
    }

    // A read delivers a non-empty chunk of at most `cap` bytes, or nothing at
    // the end of the stream.
    method Read(cap: nat) returns (r: Io<Bytes>)
      requires cap > 0
      modifies this`incoming, this`answers
      ensures r.Pass? ==> |r.value| <= cap && old(incoming) == r.value + incoming
      ensures r.Pass? ==> (r.value == [] <==> old(incoming) == [])
      ensures !r.Pass? ==> incoming == old(incoming)
      ensures answers == old(answers) + [ReadAnswer(cap, r)]
    {
      if * { r := Failing; } else { r := Interrupted; }
      if * {
        var most := if cap < |incoming| then cap else |incoming|;
        assert 0 <= most <= most && (most == 0 ==> most == 0);
        var n :| 0 <= n <= most && (n == 0 ==> most == 0);
        r := Pass(incoming[..n]);
        incoming := incoming[n..];
      }
      answers := answers + [ReadAnswer(cap, r)];
    }
  }

  // The last of the actions since `a0` is the end of the input.
  predicate SawEnd(a0: seq<Action>, a1: seq<Action>) {
    |a0| < |a1| && a1[|a1| - 1].Closed?
  }

  /* What answers mean */

  // The client goes on after it.
  predicate Passes(answer: Answer) {
    match answer
    case WriteAnswer(_, r) => r.Pass? && r.value > 0
    case FlushAnswer(r) => r.Pass?
    case ReadAnswer(_, r) => r.Pass? && r.value != []
  }

  // What a verdict is to the caller.
  function Says<E>(v: Verdict<E>): Outcome<E>
    requires !v.NeedsInput?
  {
    if v.Ready? then Done(v.event) else Error(v.kind)
  }

  // How the operation ends after any other.
  function Ends<E>(answer: Answer): Outcome<E>
    requires !Passes(answer)
  {
    match answer
    case WriteAnswer(_, r) => if r.Interrupted? then Dropped else Error(Io)
    case FlushAnswer(r) => if r.Interrupted? then Dropped else Error(Io)
    case ReadAnswer(_, r) => if r.Interrupted? then Dropped else if r.Failing? then Error(Io) else Error(Eof)
  }

  // In the state `st`, the call was made with the queue, or for a full buffer,
  // and `a` is its answer. Whether a chunk was taken the transport cannot know.
  predicate Means<S, E>(st: State<S, E>, readBuf: nat, answer: Answer, a: Action) {
    && Enabled(st, a)
    && match answer
       case WriteAnswer(buf, Pass(n)) => buf == st.core.out && a == Wrote(n)
       case WriteAnswer(buf, Failing) => buf == st.core.out && a == WriteFails
       case WriteAnswer(buf, Interrupted) => buf == st.core.out && st.pc.AwaitWrite? && a == Cancel
       case FlushAnswer(Pass(_)) => a == FlushDone
       case FlushAnswer(Failing) => a == FlushFails
       case FlushAnswer(Interrupted) => st.pc.AwaitFlush? && a == Cancel
       case ReadAnswer(cap, Pass(chunk)) =>
         cap == readBuf && if chunk == [] then a == Closed else a == Got(chunk) || a == SubmitFails(chunk)
       case ReadAnswer(cap, Failing) => cap == readBuf && a == ReadFails
       case ReadAnswer(cap, Interrupted) => cap == readBuf && st.pc.AwaitRead? && a == Cancel
  }

  // With action `a0` and answer `n0` at the same moment, action `i` is the answer
  // that came with it.
  predicate MeansAt<S, E>(
      m: Machine<S, E>, s0: S, readBuf: nat, acts: seq<Action>, answers: seq<Answer>, a0: nat, n0: nat, i: nat)
  {
    && i < |acts| && 0 <= i - a0 + n0 < |answers|
    && Means(Run(m, s0, acts[..i]), readBuf, answers[i - a0 + n0], acts[i])
  }

  // From `a0` to `a1` the run goes by exactly the answers from `n0` to `n1`.
  ghost predicate Recorded<S, E>(
      m: Machine<S, E>, s0: S, readBuf: nat, a0: seq<Action>, a1: seq<Action>, n0: seq<Answer>, n1: seq<Answer>)
  {
    && a0 <= a1 && n0 <= n1 && |a1| - |a0| == |n1| - |n0|
    && forall i :: |a0| <= i < |a1| ==> MeansAt(m, s0, readBuf, a1, n1, |a0|, |n0|, i)
  }

  // All answers from `n0` to `n1` let the client go on.
  ghost predicate Smooth(n0: seq<Answer>, n1: seq<Answer>) {
    n0 <= n1 && forall i :: |n0| <= i < |n1| ==> Passes(n1[i])
  }

  // All but the last one do.
  ghost predicate CutShort(n0: seq<Answer>, n1: seq<Answer>) {
    n1 != [] && Smooth(n0, n1[..|n1| - 1]) && !Passes(n1[|n1| - 1])
  }

  lemma SmoothStart(n: seq<Answer>)
    ensures Smooth(n, n)
  {
  }

  lemma OneAnswer(n0: seq<Answer>, n1: seq<Answer>, answer: Answer)
    requires Smooth(n0, n1)
    ensures Passes(answer) ==> Smooth(n0, n1 + [answer])
    ensures !Passes(answer) ==> CutShort(n0, n1 + [answer]) && !Smooth(n0, n1 + [answer])
  {
    assert (n1 + [answer])[..|n1|] == n1;
  }

  lemma MoreAnswers(n0: seq<Answer>, n1: seq<Answer>, n2: seq<Answer>)
    requires Smooth(n0, n1)
    ensures Smooth(n1, n2) ==> Smooth(n0, n2)
    ensures CutShort(n1, n2) ==> CutShort(n0, n2)
  {
    if Smooth(n1, n2) {
      forall i | |n0| <= i < |n2|
        ensures Passes(n2[i])
      {
        if i < |n1| { assert n2[i] == n1[i] && Passes(n1[i]); }
      }
    }
    if CutShort(n1, n2) {
      var front := n2[..|n2| - 1];
      forall i | |n0| <= i < |front|
        ensures Passes(front[i])
      {
        if i < |n1| { assert front[i] == n1[i] && Passes(n1[i]); }
      }
    }
  }

  lemma SmoothIsNotCut(n0: seq<Answer>, n1: seq<Answer>)
    requires CutShort(n0, n1)
    ensures !Smooth(n0, n1) && |n0| < |n1|
  {
    assert n0 <= n1[..|n1| - 1];
  }

  lemma RecordedStart<S, E>(m: Machine<S, E>, s0: S, readBuf: nat, acts: seq<Action>, answers: seq<Answer>)
    ensures Recorded(m, s0, readBuf, acts, acts, answers, answers) && !SawEnd(acts, acts)
  {
  }

  lemma RecordedOne<S, E>(
      m: Machine<S, E>, s0: S, readBuf: nat, acts: seq<Action>, answers: seq<Answer>,
      a: Action, answer: Answer)
    requires Means(Run(m, s0, acts), readBuf, answer, a)
    ensures Recorded(m, s0, readBuf, acts, acts + [a], answers, answers + [answer])
  {
    hide Means, Run;
    assert (acts + [a])[..|acts|] == acts;
    assert MeansAt(m, s0, readBuf, acts + [a], answers + [answer], |acts|, |answers|, |acts|);
  }

  lemma {:induction false} RecordedMore<S, E>(
      m: Machine<S, E>, s0: S, readBuf: nat,
      a0: seq<Action>, a1: seq<Action>, a2: seq<Action>, n0: seq<Answer>, n1: seq<Answer>, n2: seq<Answer>)
    requires Recorded(m, s0, readBuf, a0, a1, n0, n1) && Recorded(m, s0, readBuf, a1, a2, n1, n2)
    ensures Recorded(m, s0, readBuf, a0, a2, n0, n2) && a0 <= a2
  {
    hide Means, Run;
    forall i | |a0| <= i < |a2|
      ensures MeansAt(m, s0, readBuf, a2, n2, |a0|, |n0|, i)
    {
      if i < |a1| {
        assert MeansAt(m, s0, readBuf, a1, n1, |a0|, |n0|, i);
        assert a2[..i] == a1[..i] && a2[i] == a1[i];
      } else {
        assert MeansAt(m, s0, readBuf, a2, n2, |a1|, |n1|, i);
      }
    }
  }

  lemma Moved(wire: Bytes, out: Bytes, n: nat)
    requires n <= |out|
    ensures (wire + out[..n]) + out[n..] == wire + out
    ensures n == 0 ==> wire + out[..n] == wire
  {
  }

  lemma NothingRead<S, E>(st: State<S, E>)
    ensures Read(st, []) == st
  {
    assert st.taken + [] == st.taken;
  }

  // A drain that has something to write or to flush is suspended there.
  lemma CutsDrain<S, E>(m: Machine<S, E>, st: State<S, E>, wrote: bool, k: Cont<E>, a: Action)
    requires st.core.out != [] || wrote
    requires a == Cancel || a == if st.core.out == [] then FlushFails else if a == WriteFails then a else Wrote(0)
    ensures var at := DrainHead(m, st, wrote, k);
      && at == st.(pc := if st.core.out != [] then AwaitWrite(wrote, k) else AwaitFlush(k)) && Enabled(at, a)
      && Next(m, at, a) == Finish(Read(at, []), if a == Cancel then Dropped else Error(Io))
  {
    var at := DrainHead(m, st, wrote, k);
    NothingRead(at);
  }

  // Bytes moved from the front of `incoming` to the end of `taken`.
  lemma Took(taken: Bytes, chunk: Bytes, incoming: Bytes)
    ensures (taken + chunk) + incoming == taken + (chunk + incoming)
    ensures chunk == [] ==> chunk + incoming == incoming
  {
  }

  // `Stop` is an early return, by `?` or because the future was dropped.
  datatype Flow<+E> = Go | Stop(outcome: Outcome<E>)

  class AsyncClient<S(!new), E(!new)> {
    const core: IolessClient<S, E>
    const stream: Transport
    const readBuf: nat
    ghost const s0: S
    ghost var acts: seq<Action>
    ghost var st: State<S, E>

    // The history and the objects agree.
    ghost predicate Mirrors()
      reads this, core, stream
    {
      && readBuf > 0
      && st.core == Core(core.s, core.inbuf, core.out)
      && st.wire == stream.wire && st.flushed == stream.flushed
    }

    ghost predicate Valid()
      reads this, core, stream
    {
      Mirrors() && st == Run(core.m, s0, acts) && st.pc == if st.connected then Idle else Gone
    }

    // In the middle of `drain_out`, at the head of its loop.
    ghost predicate Draining(wrote: bool, k: Cont<E>)
      reads this, core, stream
    {
      Mirrors() && Run(core.m, s0, acts) == DrainHead(core.m, st, wrote, k)
    }

    // The run has gone on from `a0` by exactly the answers since `n0`.
    ghost predicate Follows(a0: seq<Action>, n0: seq<Answer>)
      reads this, stream
    {
      Recorded(core.m, s0, readBuf, a0, acts, n0, stream.answers)
    }

    // Every answer since `n0` let the client go on.
    ghost predicate Unhindered(n0: seq<Answer>)
      reads stream
    {
      Smooth(n0, stream.answers)
    }

    // The last answer since `n0`, and no other, did not, and `o` is what it means.
    ghost predicate EndedBy(n0: seq<Answer>, o: Outcome<E>)
      reads stream
    {
      CutShort(n0, stream.answers) && o == Ends(stream.answers[|stream.answers| - 1])
    }

    constructor (core: IolessClient<S, E>, stream: Transport, readBuf: nat)
      requires core.out == [] && core.inbuf == [] && stream.wire == [] && stream.flushed == 0
      ensures this.core == core && this.stream == stream && s0 == core.s && acts == []
      ensures this.readBuf == if readBuf == 0 then 8192 else readBuf
      ensures Draining(false, ThenStep(Handshake))
      ensures st.submitted == [] && st.decoded == [] && st.log == [] && !st.connected
    {
      this.core, this.stream := core, stream;
      this.readBuf := if readBuf == 0 then DEFAULT_READ_BUF_BYTES else readBuf;
      s0, acts := core.s, [];
      st := Initial(core.s);
    }

    // The operation ends with outcome `o` at the await where `at` is suspended,
    // with `read` taken off the stream for nothing.
    ghost method Cut(at: State<S, E>, a: Action, read: Bytes, o: Outcome<E>)
      requires Mirrors() && Run(core.m, s0, acts) == at
      requires at == st.(pc := at.pc) && Next(core.m, at, a) == Finish(Read(at, read), o)
      modifies this`acts, this`st
      ensures Valid() && acts == old(acts) + [a] && st == Finish(Read(at, read), o)
    {
      RunSnoc(core.m, s0, acts, a);
      acts, st := acts + [a], Finish(Read(at, read), o);
    }

    // A drain is cut short: a write or flush fails, or the future is dropped.
    ghost method CutDrain(a: Action, wrote: bool, k: Cont<E>, o: Outcome<E>)
      requires Draining(wrote, k) && (core.out != [] || wrote)
      requires a == Cancel || a == if core.out == [] then FlushFails else if a == WriteFails then a else Wrote(0)
      requires o == if a == Cancel then Dropped else Error(Io)
      modifies this`acts, this`st
      ensures Valid() && acts == old(acts) + [a]
      ensures SameInput(old(st)) && st.log == old(st.log) + [o] && st.connected == old(st.connected)
    {
      hide DrainHead, Resume, Run;
      NothingRead(st);
      CutsDrain(core.m, st, wrote, k, a);
      Cut(DrainHead(core.m, st, wrote, k), a, [], o);
    }

    // The transport accepted `n` bytes; `core` and `stream` follow.
    ghost method Accepted(n: nat, wrote: bool, k: Cont<E>)
      requires Run(core.m, s0, acts) == DrainHead(core.m, st, wrote, k) && 0 < n <= |st.core.out|
      modifies this`acts, this`st
      ensures acts == old(acts) + [Wrote(n)]
      ensures st == Accept(old(st).(pc := AwaitWrite(wrote, k)), n)
      ensures Run(core.m, s0, acts) == DrainHead(core.m, st, true, k)
    {
      RunSnoc(core.m, s0, acts, Wrote(n));
      acts, st := acts + [Wrote(n)], Accept(st.(pc := AwaitWrite(wrote, k)), n);
    }

    ghost method Flushed(k: Cont<E>)
      requires Run(core.m, s0, acts) == DrainHead(core.m, st, true, k) && st.core.out == []
      modifies this`acts, this`st
      ensures acts == old(acts) + [FlushDone]
      ensures st == old(st).(pc := AwaitFlush(k), flushed := |old(st).wire|)
      ensures Run(core.m, s0, acts) == Resume(core.m, st, k)
    {
      RunSnoc(core.m, s0, acts, FlushDone);
      acts, st := acts + [FlushDone], st.(pc := AwaitFlush(k), flushed := |st.wire|);
    }

    // What no drain touches.
    ghost predicate SameInput(before: State<S, E>)
      reads this
    {
      && st.core.s == before.core.s && st.decoded == before.decoded
      && st.taken == before.taken && st.submitted == before.submitted
    }

    // One turn of the loop in `drain_out`.
    method WriteOnce(ghost wrote: bool, ghost k: Cont<E>) returns (flow: Flow<E>)
      requires Draining(wrote, k) && core.out != []
      modifies this`acts, this`st, core`out, stream`wire, stream`answers
      ensures Follows(old(acts), old(stream.answers)) && SameInput(old(st)) && st.connected == old(st.connected)
      ensures |stream.answers| == |old(stream.answers)| + 1 && stream.answers[|old(stream.answers)|].WriteAnswer?
      ensures !SawEnd(old(acts), acts)
      ensures stream.wire + core.out == old(stream.wire + core.out) && old(stream.wire) <= stream.wire
      ensures flow.Go? ==> Draining(true, k) && |core.out| < |old(core.out)| && Unhindered(old(stream.answers))
      ensures flow.Go? ==> st.log == old(st.log)
      ensures flow.Stop? ==> Valid() && st.log == old(st.log) + [flow.outcome] && core.out == old(core.out)
      ensures flow.Stop? ==> EndedBy(old(stream.answers), flow.outcome)
    {
      hide DrainHead, Resume, Run, Recorded, Smooth, CutShort, SawEnd;
      var buf := core.PendingOut();
      ghost var n0 := stream.answers;
      var r := stream.Write(buf);
      match r {
        case Failing =>
          CutWrite(wrote, k, n0, r, Error(Io));
          flow := Stop(Error(Io));
        case Interrupted =>
          CutWrite(wrote, k, n0, r, Dropped);
          flow := Stop(Dropped);
        case Pass(n) =>
          Moved(old(stream.wire), buf, n);
          if n == 0 {
            CutWrite(wrote, k, n0, r, Error(Io));
            return Stop(Error(Io));
          }
          SmoothStart(n0);
          OneAnswer(n0, n0, WriteAnswer(buf, r));
          RecordWrite(wrote, k, n0, r, Wrote(n));
          Accepted(n, wrote, k);
          core.ConsumeOut(n);
          flow := Go;
      }
    }

    // A write has just taken nothing, and the operation ends.
    ghost method CutWrite(wrote: bool, k: Cont<E>, n0: seq<Answer>, r: Io<nat>, o: Outcome<E>)
      requires Draining(wrote, k) && core.out != [] && stream.answers == n0 + [WriteAnswer(core.out, r)]
      requires !Passes(WriteAnswer(core.out, r)) && o == Ends(WriteAnswer(core.out, r))
      modifies this`acts, this`st
      ensures Valid() && Follows(old(acts), n0) && !SawEnd(old(acts), acts) && EndedBy(n0, o)
      ensures SameInput(old(st)) && st.log == old(st.log) + [o] && st.connected == old(st.connected)
    {
      hide DrainHead, Resume, Run, Recorded, Smooth, CutShort, SawEnd;
      var a := if r.Pass? then Wrote(0) else if r.Failing? then WriteFails else Cancel;
      SmoothStart(n0);
      OneAnswer(n0, n0, WriteAnswer(core.out, r));
      RecordWrite(wrote, k, n0, r, a);
      CutDrain(a, wrote, k, o);
    }

    // The transport has just answered a write of the whole queue.
    lemma RecordWrite(wrote: bool, k: Cont<E>, n0: seq<Answer>, r: Io<nat>, a: Action)
      requires Run(core.m, s0, acts) == DrainHead(core.m, st, wrote, k) && st.core.out != []
      requires r.Pass? ==> r.value <= |st.core.out|
      requires a == if r.Pass? then Wrote(r.value) else if r.Failing? then WriteFails else Cancel
      ensures Recorded(core.m, s0, readBuf, acts, acts + [a], n0, n0 + [WriteAnswer(st.core.out, r)])
      ensures !SawEnd(acts, acts + [a])
    {
      hide Resume, Run;
      assert Run(core.m, s0, acts) == st.(pc := AwaitWrite(wrote, k));
      RecordedOne(core.m, s0, readBuf, acts, n0, a, WriteAnswer(st.core.out, r));
    }

    lemma RecordFlush(k: Cont<E>, n0: seq<Answer>, r: Io<()>, a: Action)
      requires Run(core.m, s0, acts) == DrainHead(core.m, st, true, k) && st.core.out == []
      requires a == if r.Pass? then FlushDone else if r.Failing? then FlushFails else Cancel
      ensures Recorded(core.m, s0, readBuf, acts, acts + [a], n0, n0 + [FlushAnswer(r)])
      ensures !SawEnd(acts, acts + [a])
    {
      hide Resume, Run;
      assert Run(core.m, s0, acts) == st.(pc := AwaitFlush(k));
      RecordedOne(core.m, s0, readBuf, acts, n0, a, FlushAnswer(r));
    }

    lemma RecordRead(call: Call, n0: seq<Answer>, r: Io<Bytes>, a: Action)
      requires Run(core.m, s0, acts) == st.(pc := AwaitRead(call))
      requires
        if r.Pass? then if r.value == [] then a == Closed else a == Got(r.value) || a == SubmitFails(r.value)
        else a == if r.Failing? then ReadFails else Cancel
      ensures Recorded(core.m, s0, readBuf, acts, acts + [a], n0, n0 + [ReadAnswer(readBuf, r)])
    {
      hide Run;
      RecordedOne(core.m, s0, readBuf, acts, n0, a, ReadAnswer(readBuf, r));
    }

    method FlushOnce(ghost k: Cont<E>) returns (flow: Flow<E>)
      requires Draining(true, k) && core.out == []
      modifies this`acts, this`st, stream`flushed, stream`answers
      ensures Follows(old(acts), old(stream.answers)) && SameInput(old(st)) && st.connected == old(st.connected)
      ensures |stream.answers| == |old(stream.answers)| + 1 && stream.answers[|old(stream.answers)|].FlushAnswer?
      ensures !SawEnd(old(acts), acts)
      ensures flow.Go? ==> Mirrors() && Run(core.m, s0, acts) == Resume(core.m, st, k)
      ensures flow.Go? ==> st.log == old(st.log) && stream.flushed == |stream.wire|
      ensures flow.Go? ==> Unhindered(old(stream.answers))
      ensures flow.Stop? ==> Valid() && st.log == old(st.log) + [flow.outcome]
      ensures flow.Stop? ==> EndedBy(old(stream.answers), flow.outcome)
    {
      hide DrainHead, Resume, Run, Recorded, Smooth, CutShort, SawEnd;
      ghost var n0 := stream.answers;
      SmoothStart(n0);
      var r := stream.Flush();
      OneAnswer(n0, n0, FlushAnswer(r));
      match r {
        case Failing =>
          RecordFlush(k, n0, r, FlushFails);
          CutDrain(FlushFails, true, k, Error(Io));
          flow := Stop(Error(Io));
        case Interrupted =>
          RecordFlush(k, n0, r, Cancel);
          CutDrain(Cancel, true, k, Dropped);
          flow := Stop(Dropped);
        case Pass(_) =>
          RecordFlush(k, n0, r, FlushDone);
          Flushed(k);
          flow := Go;
      }
    }

    method DrainOut(ghost k: Cont<E>) returns (flow: Flow<E>, ghost writes: nat)
      requires Draining(false, k)
      modifies this`acts, this`st, core`out, stream`wire, stream`flushed, stream`answers
      ensures Follows(old(acts), old(stream.answers)) && SameInput(old(st)) && st.connected == old(st.connected)
      ensures !SawEnd(old(acts), acts)
      // Bytes move from the front of the queue to the wire, in at most as many
      // successful writes as there are bytes.
      ensures stream.wire + core.out == old(stream.wire + core.out) && old(stream.wire) <= stream.wire
      ensures writes <= |old(core.out)|
      ensures flow.Go? ==> Mirrors() && Run(core.m, s0, acts) == Resume(core.m, st, k)
      ensures flow.Go? ==> st.log == old(st.log) && core.out == []
      ensures flow.Go? ==> stream.flushed == if old(core.out) == [] then old(stream.flushed) else |stream.wire|
      ensures flow.Stop? ==> Valid() && st.log == old(st.log) + [flow.outcome]
      // It succeeds exactly when every write took something and the flush passed.
      ensures flow.Go? <==> Unhindered(old(stream.answers))
      ensures flow.Stop? ==> EndedBy(old(stream.answers), flow.outcome)
    {
      hide DrainHead, Resume, Run, Recorded, Smooth, CutShort, SawEnd;
      var wrote := false;
      writes := 0;
      ghost var a0, n0 := acts, stream.answers;
      SmoothStart(n0);
      RecordedStart(core.m, s0, readBuf, acts, n0);
      while true
        invariant Draining(wrote, k)
        invariant Follows(a0, n0) && Unhindered(n0) && SameInput(old(st))
        invariant !SawEnd(a0, acts)
        invariant st.connected == old(st.connected) && st.log == old(st.log)
        invariant stream.wire + core.out == old(stream.wire + core.out) && old(stream.wire) <= stream.wire
        invariant writes + |core.out| <= |old(core.out)| && stream.flushed == old(stream.flushed)
        invariant wrote <==> |core.out| < |old(core.out)|
        decreases |core.out|
      {
        var buf := core.PendingOut();
        if buf == [] {
          break;
        }
        ghost var a1, n1 := acts, stream.answers;
        flow := WriteOnce(wrote, k);
        Joined(a0, a1, n0, n1);
        if flow.Stop? {
          return;
        }
        wrote, writes := true, writes + 1;
      }
      flow := Go;
      if wrote {
        ghost var a1, n1 := acts, stream.answers;
        flow := FlushOnce(k);
        Joined(a0, a1, n0, n1);
      } else {
        NothingToDrain(core.m, st, k);
      }
    }

    ghost method Submitted(call: Call, chunk: Bytes)
      requires Run(core.m, s0, acts) == st.(pc := AwaitRead(call)) && chunk != []
      modifies this`acts, this`st
      ensures acts == old(acts) + [Got(chunk)]
      ensures st == Submit(old(st).(pc := AwaitRead(call)), chunk)
      ensures Run(core.m, s0, acts) == DrainHead(core.m, st, false, ThenStep(call))
    {
      RunSnoc(core.m, s0, acts, Got(chunk));
      acts, st := acts + [Got(chunk)], Submit(st.(pc := AwaitRead(call)), chunk);
    }

    // A read ends the operation; `a` says why.
    ghost method CutRead(call: Call, a: Action, o: Outcome<E>)
      requires Mirrors() && Run(core.m, s0, acts) == st.(pc := AwaitRead(call))
      requires match a
        case ReadFails => o == Error(Io)
        case Closed => o == Error(Eof)
        case SubmitFails(chunk) => chunk != [] && o == Error(Oom)
        case _ => a == Cancel && o == Dropped
      modifies this`acts, this`st
      ensures Valid() && acts == old(acts) + [a]
      ensures var lost := if a.SubmitFails? then a.chunk else [];
        SameInput(Read(old(st), lost)) && st.log == old(st.log) + [o] && st.connected == old(st.connected)
      ensures !a.SubmitFails? ==> st.taken == old(st.taken)
    {
      var lost := if a.SubmitFails? then a.chunk else [];
      assert st.taken + [] == st.taken;
      Cut(Run(core.m, s0, acts), a, lost, o);
    }

    // Copying input has run out of memory since there were `before` refusals.
    ghost predicate Refused(before: nat)
      reads core
    {
      core.refusals == before + 1
    }

    method ReadMore(ghost call: Call) returns (flow: Flow<E>)
      requires Mirrors() && Run(core.m, s0, acts) == st.(pc := AwaitRead(call))
      modifies this`acts, this`st, core`inbuf, core`refusals, stream`incoming, stream`answers
      ensures Follows(old(acts), old(stream.answers))
      ensures |acts| == |old(acts)| + 1 && |stream.answers| == |old(stream.answers)| + 1
      ensures st.decoded == old(st.decoded) && core.s == old(core.s) && st.connected == old(st.connected)
      ensures flow.Go? ==> Draining(false, ThenStep(call)) && |stream.incoming| < |old(stream.incoming)|
      ensures flow.Go? ==> st.log == old(st.log)
      ensures flow.Go? ==> core.inbuf + stream.incoming == old(core.inbuf + stream.incoming)
      ensures flow.Stop? ==> Valid() && st.log == old(st.log) + [flow.outcome] && core.inbuf == old(core.inbuf)
      ensures acts[|acts| - 1].Closed? ==> flow == Stop(Error(Eof)) && old(stream.incoming) == []
      // What leaves the stream was read by the client, and the core took it or
      // had no memory for it; then it is gone.
      ensures old(st.taken + stream.incoming) == st.taken + stream.incoming
      ensures flow.Go? ==> acts[|acts| - 1].Got? && core.inbuf == old(core.inbuf) + acts[|acts| - 1].chunk
      ensures flow == Stop(Error(Oom)) <==> acts[|acts| - 1].SubmitFails?
      ensures flow == Stop(Error(Oom)) ==>
        acts[|acts| - 1].chunk != [] && old(stream.incoming) == acts[|acts| - 1].chunk + stream.incoming
      ensures flow.Stop? && flow.outcome != Error(Oom) ==> stream.incoming == old(stream.incoming)
      // It succeeds exactly when something was read and copied; out of memory is
      // reported exactly when it was not copied.
      ensures core.refusals == old(core.refusals) || Refused(old(core.refusals))
      ensures flow.Go? <==> Unhindered(old(stream.answers)) && core.refusals == old(core.refusals)
      ensures Refused(old(core.refusals)) ==> Unhindered(old(stream.answers)) && flow == Stop(Error(Oom))
      ensures flow.Stop? && !Refused(old(core.refusals)) ==> EndedBy(old(stream.answers), flow.outcome)
    {
      hide DrainHead, Resume, Run, Recorded, Smooth, CutShort;
      ghost var n0 := stream.answers;
      SmoothStart(n0);
      var r := stream.Read(readBuf);
      OneAnswer(n0, n0, ReadAnswer(readBuf, r));
      match r {
        case Failing =>
          RecordRead(call, n0, r, ReadFails);
          CutRead(call, ReadFails, Error(Io));
          flow := Stop(Error(Io));
        case Interrupted =>
          RecordRead(call, n0, r, Cancel);
          CutRead(call, Cancel, Dropped);
          flow := Stop(Dropped);
        case Pass(chunk) =>
          Took(st.taken, chunk, stream.incoming);
          Took(core.inbuf, chunk, stream.incoming);
          flow := TakeChunk(call, chunk, n0);
      }
    }

    // The second half of `read_more`, after a read that returned.
    method TakeChunk(ghost call: Call, chunk: Bytes, ghost n0: seq<Answer>) returns (flow: Flow<E>)
      requires Mirrors() && Run(core.m, s0, acts) == st.(pc := AwaitRead(call))
      requires stream.answers == n0 + [ReadAnswer(readBuf, Pass(chunk))]
      modifies this`acts, this`st, core`inbuf, core`refusals
      ensures Follows(old(acts), n0) && |acts| == |old(acts)| + 1
      ensures st.decoded == old(st.decoded) && core.s == old(core.s) && st.connected == old(st.connected)
      ensures acts[|acts| - 1] ==
        if chunk == [] then Closed else if core.refusals == old(core.refusals) then Got(chunk) else SubmitFails(chunk)
      ensures core.refusals == old(core.refusals) || (Refused(old(core.refusals)) && chunk != [])
      ensures st.taken == old(st.taken) + chunk
      ensures flow == (
        if chunk == [] then Stop(Error(Eof)) else if core.refusals == old(core.refusals) then Go else Stop(Error(Oom)))
      ensures core.inbuf == if flow.Go? then old(core.inbuf) + chunk else old(core.inbuf)
      ensures flow.Go? ==> Draining(false, ThenStep(call)) && st.log == old(st.log)
      ensures flow.Stop? ==> Valid() && st.log == old(st.log) + [flow.outcome]
    {
      hide DrainHead, Resume, Run, MeansAt, Recorded;
      if chunk == [] {
        RecordRead(call, n0, Pass(chunk), Closed);
        CutRead(call, Closed, Error(Eof));
        assert st.taken + [] == st.taken;
        return Stop(Error(Eof));
      }
      var kept := core.Submit(chunk);
      match kept {
        case Ok(_) =>
          RecordRead(call, n0, Pass(chunk), Got(chunk));
          Submitted(call, chunk);
          flow := Go;
        case Err(kind) =>
          RecordRead(call, n0, Pass(chunk), SubmitFails(chunk));
          CutRead(call, SubmitFails(chunk), Error(kind));
          flow := Stop(Error(kind));
      }
    }

    /* Steps of the core */

    // What the small-step system does next, in terms of the objects after the
    // core has stepped.
    ghost method Stepped(call: Call, before: State<S, E>)
      requires st == before && Run(core.m, s0, acts) == Resume(core.m, st, ThenStep(call))
      requires var next := Stepping(core.m, before, call);
        next.core == Core(core.s, core.inbuf, core.out) && next.wire == stream.wire && next.flushed == stream.flushed
      requires readBuf > 0
      modifies this`st
      ensures Mirrors()
      ensures match core.m.step(call, before.core.s, before.core.inbuf).verdict
        case Ready(e) => st == Stepping(core.m, before, call) && Draining(false, ThenReturn(Done(e)))
        case NeedsInput => st == Stepping(core.m, before, call) && Draining(false, ThenRead(call))
        case Failed(kind) =>
          Run(core.m, s0, acts) == st == Finish(Stepping(core.m, before, call), Error(kind))
    {
      st := Stepping(core.m, before, call);
      match core.m.step(call, before.core.s, before.core.inbuf).verdict
      case Failed(kind) => st := Finish(st, Error(kind));
      case _ =>
    }

    // How `s` and the input still to be used stand to where the operation began.
    ghost predicate Reaches(call: Call, s: S, left: Bytes, v: Verdict<E>)
      reads this, core, stream
    {
      Lawful(core.m) ==> View(core.m, call, s, left) == (core.s, core.inbuf + stream.incoming, v)
    }

    ghost predicate OnTheWay(call: Call, s: S, left: Bytes)
      reads this, core, stream
    {
      Lawful(core.m) ==>
        View(core.m, call, s, left) == View(core.m, call, core.s, core.inbuf + stream.incoming)
    }

    // One step was decided since `before`: what a decoder does with the rest of the
    // stream in front of it, and the client stands where that decoder stands.
    ghost predicate Decided(call: Call, s: S, left: Bytes, before: seq<Decoding<E>>)
      reads this, core, stream
    {
      && |st.decoded| == |before| + 1 && before <= st.decoded
      && var d := st.decoded[|before|];
      d.call == call && !d.verdict.NeedsInput? && Reaches(call, s, left, d.verdict)
    }

    // How an operation ends that began with `before` decided, `n0` answered and
    // `refusals` counted. A chunk was not copied, and that is reported; or the
    // transport let everything pass, and the decoder's verdict is reported; or
    // the last answer did not let it go on, and that is reported.
    ghost predicate Settles(
        call: Call, s: S, left: Bytes, before: seq<Decoding<E>>, n0: seq<Answer>, refusals: nat, o: Outcome<E>)
      reads this, core, stream
    {
      && (st.decoded == before || Decided(call, s, left, before))
      && if core.refusals != refusals then
           Refused(refusals) && st.decoded == before && Unhindered(n0) && o == Error(Oom)
         else if Unhindered(n0) then
           st.decoded != before && o == Says(st.decoded[|before|].verdict)
         else
           EndedBy(n0, o) && (st.decoded != before ==> st.decoded[|before|].verdict.Ready?)
    }

    ghost predicate Waiting(call: Call)
      reads this, core
    {
      Lawful(core.m) ==> core.m.step(call, core.s, core.inbuf).verdict.NeedsInput?
    }

    // The first half of a turn of the loop in `pump_until_ready`.
    method DrainAndStep(call: Call, ghost s: S, ghost left: Bytes) returns (flow: Flow<E>, v: Verdict<E>)
      requires Draining(false, ThenStep(call)) && OnTheWay(call, s, left)
      modifies this`acts, this`st, core`s, core`inbuf, core`out, stream`wire, stream`flushed, stream`answers
      ensures Follows(old(acts), old(stream.answers))
      ensures !SawEnd(old(acts), acts)
      ensures flow.Stop? ==> Valid() && st.log == old(st.log) + [flow.outcome]
      ensures if flow.Go? then Unhindered(old(stream.answers)) else EndedBy(old(stream.answers), flow.outcome)
      ensures st.decoded == old(st.decoded) +
        if flow.Stop? || v.NeedsInput? then [] else [Decoding(call, v)]
      ensures st.connected == old(st.connected)
      ensures flow.Go? && v.Failed? ==>
        Valid() && st.log == old(st.log) + [Error(v.kind)] && Reaches(call, s, left, v)
      ensures flow.Go? && !v.Failed? ==> st.log == old(st.log)
      ensures flow.Go? && v.Ready? ==> Draining(false, ThenReturn(Done(v.event))) && Reaches(call, s, left, v)
      ensures flow.Go? && v.NeedsInput? ==>
        Draining(false, ThenRead(call)) && OnTheWay(call, s, left) && Waiting(call)
    {
      hide DrainHead, Resume, Run, Recorded, Smooth, CutShort;
      ghost var writes;
      assert old(st.decoded) + [] == old(st.decoded);
      flow, writes := DrainOut(ThenStep(call));
      if flow.Stop? {
        return flow, NeedsInput;
      }
      ghost var before := st;
      v := core.Step(call);
      Stepped(call, before);
      if Lawful(core.m) {
        StepAhead(core.m, call, before.core.s, before.core.inbuf, stream.incoming);
      }
    }

    method PumpUntilReady(call: Call, ghost s: S, ghost left: Bytes) returns (o: Outcome<E>)
      requires Draining(false, ThenStep(call))
      requires OnTheWay(call, s, left)
      modifies this`acts, this`st, core, stream
      ensures Valid() && Follows(old(acts), old(stream.answers))
      ensures st.log == old(st.log) + [o] && !o.Sent?
      ensures st.connected == (old(st.connected) || o.Done?)
      // An event is the one a decoder gets that has the rest of the stream in
      // front of it, and leaves the client where that decoder stands.
      ensures o.Done? ==> Reaches(call, s, left, Ready(o.event)) && core.out == []
      // So is a failure of the protocol; any other outcome is the transport's or a
      // lack of memory, and there is no other outcome without those.
      ensures Settles(call, s, left, old(st.decoded), old(stream.answers), old(core.refusals), o)
      // The end of the stream is reported, and only if that decoder needs input too.
      ensures SawEnd(old(acts), acts) ==> o == Error(Eof)
      ensures Lawful(core.m) && SawEnd(old(acts), acts)
        ==> View(core.m, call, s, left).2.NeedsInput?
    {
      hide DrainHead, Resume, Run, Draining, OnTheWay, Mirrors, View, Recorded, Smooth, CutShort, Settles, SawEnd;
      ghost var a0, n0, before, refusals := acts, stream.answers, st.decoded, core.refusals;
      SmoothStart(n0);
      RecordedStart(core.m, s0, readBuf, a0, n0);
      while true
        invariant Draining(false, ThenStep(call)) && OnTheWay(call, s, left)
        invariant Follows(a0, n0) && Unhindered(n0) && core.refusals == refusals
        invariant st.log == old(st.log) && st.decoded == before && st.connected == old(st.connected)
        invariant !SawEnd(a0, acts)
        decreases |stream.incoming|
      {
        ghost var a1, n1 := acts, stream.answers;
        var flow, v := DrainAndStep(call, s, left);
        Joined(a0, a1, n0, n1);
        if flow.Stop? {
          SettledByCut(call, s, left, before, n0, refusals, NeedsInput, flow.outcome);
          return flow.outcome;
        }
        match v {
          case Failed(kind) =>
            SettledByVerdict(call, s, left, before, n0, refusals, v);
            return Error(kind);
          case Ready(event) =>
            ghost var a2, n2 := acts, stream.answers;
            o := Deliver(event);
            Joined(a0, a2, n0, n2);
            if Unhindered(n2) {
              SettledByVerdict(call, s, left, before, n0, refusals, v);
            } else {
              SettledByCut(call, s, left, before, n0, refusals, v, o);
            }
            return;
          case NeedsInput =>
            ghost var a2, n2 := acts, stream.answers;
            flow := DrainAndRead(call, s, left);
            Joined(a0, a2, n0, n2);
            if flow.Stop? {
              if core.refusals == refusals {
                SettledByCut(call, s, left, before, n0, refusals, v, flow.outcome);
              } else {
                SettledByRefusal(call, s, left, before, n0, refusals);
              }
              return flow.outcome;
            }
        }
      }
    }

    // The last verdict of an operation that began with `before` decided is `v`.
    ghost predicate Verdicts(call: Call, s: S, left: Bytes, before: seq<Decoding<E>>, v: Verdict<E>)
      reads this, core, stream
    {
      && st.decoded == before + (if v.NeedsInput? then [] else [Decoding(call, v)])
      && (!v.NeedsInput? ==> Reaches(call, s, left, v))
    }

    lemma SettledByVerdict(
        call: Call, s: S, left: Bytes, before: seq<Decoding<E>>, n0: seq<Answer>, refusals: nat, v: Verdict<E>)
      requires Verdicts(call, s, left, before, v) && !v.NeedsInput?
      requires Unhindered(n0) && core.refusals == refusals
      ensures Settles(call, s, left, before, n0, refusals, Says(v))
    {
      hide View, Smooth, CutShort;
    }

    lemma SettledByCut(
        call: Call, s: S, left: Bytes, before: seq<Decoding<E>>, n0: seq<Answer>, refusals: nat, v: Verdict<E>,
        o: Outcome<E>)
      requires Verdicts(call, s, left, before, v) && !v.Failed?
      requires EndedBy(n0, o) && core.refusals == refusals
      ensures Settles(call, s, left, before, n0, refusals, o)
    {
      hide View, Smooth, CutShort;
      assert before + [] == before;
      SmoothIsNotCut(n0, stream.answers);
    }

    lemma SettledByRefusal(
        call: Call, s: S, left: Bytes, before: seq<Decoding<E>>, n0: seq<Answer>, refusals: nat)
      requires Refused(refusals) && st.decoded == before && Unhindered(n0)
      ensures Settles(call, s, left, before, n0, refusals, Error(Oom))
    {
      hide View, Smooth, CutShort;
    }

    // Two stretches of a run in a row.
    lemma Joined(a0: seq<Action>, a1: seq<Action>, n0: seq<Answer>, n1: seq<Answer>)
      requires Recorded(core.m, s0, readBuf, a0, a1, n0, n1) && Follows(a1, n1) && Smooth(n0, n1)
      ensures Follows(a0, n0)
      ensures SawEnd(a0, acts) ==> SawEnd(a0, a1) || SawEnd(a1, acts)
      ensures Unhindered(n1) ==> Unhindered(n0)
      ensures CutShort(n1, stream.answers) ==> CutShort(n0, stream.answers) && !Unhindered(n0)
    {
      hide MeansAt;
      RecordedMore(core.m, s0, readBuf, a0, a1, acts, n0, n1, stream.answers);
      MoreAnswers(n0, n1, stream.answers);
      if CutShort(n1, stream.answers) { SmoothIsNotCut(n0, stream.answers); }
    }

    method Deliver(event: E) returns (o: Outcome<E>)
      requires Draining(false, ThenReturn(Done(event)))
      modifies this`acts, this`st, core`out, stream`wire, stream`flushed, stream`answers
      ensures Valid() && Follows(old(acts), old(stream.answers))
      ensures st.log == old(st.log) + [o] && st.decoded == old(st.decoded)
      ensures !SawEnd(old(acts), acts)
      ensures st.connected == (old(st.connected) || o.Done?)
      ensures o.Done? ==> core.out == []
      // The event is handed over exactly when the last drain succeeds.
      ensures if Unhindered(old(stream.answers)) then o == Done(event) else EndedBy(old(stream.answers), o)
    {
      hide DrainHead, Resume, Run, Recorded, Smooth, CutShort;
      var flow, writes := DrainOut(ThenReturn(Done(event)));
      if flow.Go? {
        Returned(Done(event));
      }
      o := if flow.Stop? then flow.outcome else Done(event);
    }

    ghost method Returned(o: Outcome<E>)
      requires Mirrors() && Run(core.m, s0, acts) == Resume(core.m, st, ThenReturn(o))
      modifies this`st
      ensures Valid() && st == Finish(old(st), o)
    {
      st := Finish(st, o);
    }

    method DrainAndRead(call: Call, ghost s: S, ghost left: Bytes) returns (flow: Flow<E>)
      requires Draining(false, ThenRead(call)) && OnTheWay(call, s, left) && Waiting(call)
      modifies this`acts, this`st, core`out, core`inbuf, core`refusals, stream
      ensures Follows(old(acts), old(stream.answers)) && st.connected == old(st.connected)
      ensures flow.Go? ==> Draining(false, ThenStep(call)) && OnTheWay(call, s, left)
      ensures flow.Go? ==> |stream.incoming| < |old(stream.incoming)| && st.log == old(st.log)
      ensures SawEnd(old(acts), acts) ==> flow == Stop(Error(Eof))
      ensures flow.Stop? ==> Valid() && st.log == old(st.log) + [flow.outcome]
      ensures core.refusals == old(core.refusals) || Refused(old(core.refusals))
      ensures flow.Go? <==> Unhindered(old(stream.answers)) && core.refusals == old(core.refusals)
      ensures Refused(old(core.refusals)) ==> Unhindered(old(stream.answers)) && flow == Stop(Error(Oom))
      ensures flow.Stop? && !Refused(old(core.refusals)) ==> EndedBy(old(stream.answers), flow.outcome)
      ensures st.decoded == old(st.decoded)
      ensures Lawful(core.m) && SawEnd(old(acts), acts)
        ==> View(core.m, call, s, left).2.NeedsInput?
    {
      hide DrainHead, Resume, Run, Recorded, Smooth, CutShort;
      ghost var writes;
      ghost var a0, n0 := acts, stream.answers;
      flow, writes := DrainOut(ThenRead(call));
      if flow.Stop? {
        return;
      }
      NothingToDrain(core.m, st, ThenRead(call));
      assert core.inbuf + [] == core.inbuf;
      ghost var a1, n1 := acts, stream.answers;
      flow := ReadMore(call);
      Joined(a0, a1, n0, n1);
    }

    /* Operations */

    ghost method Open(op: Op)
      requires Valid() && st.pc.Idle?
      modifies this`acts
      ensures acts == old(acts) + [Begin(op)] && Enabled(Run(core.m, s0, old(acts)), Begin(op))
      ensures Draining(false, if op.OpRecv? then ThenStep(Recv) else ThenSend(op.req))
    {
      RunSnoc(core.m, s0, acts, Begin(op));
      acts := acts + [Begin(op)];
    }

    // The last part of `handshake_on`.
    method CompleteHandshake() returns (o: Outcome<E>)
      requires Draining(false, ThenStep(Handshake)) && !st.connected
      modifies this`acts, this`st, core, stream
      ensures Valid() && Follows(old(acts), old(stream.answers)) && st.log == old(st.log) + [o]
      ensures st.connected <==> o.Done?
      ensures o.Done? ==> core.out == []
      ensures o.Done? ==> Reaches(Handshake, old(core.s), old(core.inbuf + stream.incoming), Ready(o.event))
      ensures Settles(Handshake, old(core.s), old(core.inbuf + stream.incoming),
                      old(st.decoded), old(stream.answers), old(core.refusals), o)
    {
      o := PumpUntilReady(Handshake, core.s, core.inbuf + stream.incoming);
    }

    method RecvEvent() returns (o: Outcome<E>)
      requires Valid() && st.pc.Idle?
      modifies this`acts, this`st, core, stream
      ensures Valid() && Follows(old(acts) + [Begin(OpRecv)], old(stream.answers)) && st.log == old(st.log) + [o]
      // The client can be used again, whatever the outcome.
      ensures st.pc.Idle?
      ensures o.Done? ==> core.out == []
      ensures o.Done? ==> Reaches(Recv, old(core.s), old(core.inbuf + stream.incoming), Ready(o.event))
      ensures Settles(Recv, old(core.s), old(core.inbuf + stream.incoming),
                      old(st.decoded), old(stream.answers), old(core.refusals), o)
      ensures acts[|acts| - 1].Closed? ==> o == Error(Eof)
      ensures Lawful(core.m) && acts[|acts| - 1].Closed?
        ==> View(core.m, Recv, old(core.s), old(core.inbuf + stream.incoming)).2.NeedsInput?
    {
      Open(OpRecv);
      o := PumpUntilReady(Recv, core.s, core.inbuf + stream.incoming);
    }

    ghost method Encoding(req: Request, before: State<S, E>)
      requires st == before && Run(core.m, s0, acts) == Resume(core.m, st, ThenSend(req)) && readBuf > 0
      requires var next := Sending(core.m, before, req);
        next.core == Core(core.s, core.inbuf, core.out) && next.wire == stream.wire && next.flushed == stream.flushed
      requires before.connected
      modifies this`st
      ensures match core.m.send(before.core.s, req).result
        case Ok(_) => st == Sending(core.m, before, req) && Draining(false, ThenReturn(Sent))
        case Err(kind) => Valid() && st == Finish(Sending(core.m, before, req), Error(kind))
    {
      st := Sending(core.m, before, req);
      match core.m.send(before.core.s, req).result
      case Ok(_) =>
      case Err(kind) => st := Finish(st, Error(kind));
    }

    // `send_query`, `send_data` and `send_data_end`.
    method Send(req: Request) returns (o: Outcome<E>)
      requires Valid() && st.pc.Idle?
      modifies this`acts, this`st, core`out, stream`wire, stream`flushed, stream`answers
      ensures Valid() && Follows(old(acts) + [Begin(OpSend(req))], old(stream.answers)) && st.log == old(st.log) + [o]
      ensures st.pc.Idle?
      // The packet is queued only once everything queued before is on the wire.
      ensures
        || stream.wire + core.out == old(stream.wire + core.out)
        || (&& stream.wire + core.out == old(stream.wire + core.out) + core.m.send(core.s, req).queued
            && old(stream.wire + core.out) <= stream.wire)
      ensures o.Sent? ==> core.m.send(core.s, req).result.Ok? && core.out == []
      ensures o.Sent? ==> stream.wire == old(stream.wire + core.out) + core.m.send(core.s, req).queued
      ensures o.Sent? && stream.wire != old(stream.wire) ==> stream.flushed == |stream.wire|
      // Unless the transport ends it, it succeeds exactly if the request could be
      // encoded.
      ensures if Unhindered(old(stream.answers)) then
          var encoded := core.m.send(core.s, req).result;
          o == if encoded.Ok? then Sent else Error(encoded.kind)
        else EndedBy(old(stream.answers), o)
    {
      hide DrainHead, Resume, Run, Recorded, Smooth, CutShort;
      Open(OpSend(req));
      ghost var a0, n0 := acts, stream.answers;
      ghost var writes;
      var flow: Flow<E>;
      flow, writes := DrainOut(ThenSend(req));
      if flow.Stop? {
        return flow.outcome;
      }
      ghost var before := st;
      ghost var wire, q := stream.wire, core.m.send(core.s, req).queued;
      assert wire + [] == wire && [] + q == q;
      assert wire == old(stream.wire + core.out);
      var r := core.Send(req);
      assert core.out == q;
      Encoding(req, before);
      match r {
        case Err(kind) =>
          o := Error(kind);
        case Ok(_) =>
          ghost var a1, n1 := acts, stream.answers;
          flow, writes := DrainOut(ThenReturn(Sent));
          Joined(a0, a1, n0, n1);
          if flow.Go? { Returned(Sent); }
          o := if flow.Stop? then flow.outcome else Sent;
      }
    }
  }
}
