// Chunking independence: what the pump decodes depends on the server's byte
// stream alone, not on how it arrives, how output is accepted, or which futures
// are dropped.
module PumpDecoding {
  import opened Outcomes
  import opened Protocol
  import opened Pump

  /* The reference: one decoder with the whole stream in front of it */

  datatype Replayed<+S, +E> = Replayed(s: S, rest: Bytes, verdicts: seq<Verdict<E>>)

  function Replay<S, E>(m: Machine<S, E>, s0: S, all: Bytes, calls: seq<Call>): Replayed<S, E> {
    if calls == [] then Replayed(s0, all, [])
    else
      var before := Replay(m, s0, all, calls[..|calls| - 1]);
      var r := m.step(calls[|calls| - 1], before.s, before.rest);
      Replayed(r.state, Drop(before.rest, r.used), before.verdicts + [r.verdict])
  }

  function Calls<E>(decoded: seq<Decoding<E>>): seq<Call> {
    seq(|decoded|, i requires 0 <= i < |decoded| => decoded[i].call)
  }

  function Verdicts<E>(decoded: seq<Decoding<E>>): seq<Verdict<E>> {
    seq(|decoded|, i requires 0 <= i < |decoded| => decoded[i].verdict)
  }

  lemma ReplaySnoc<S, E>(m: Machine<S, E>, s0: S, all: Bytes, calls: seq<Call>, c: Call)
    ensures var before := Replay(m, s0, all, calls);
      var r := m.step(c, before.s, before.rest);
      Replay(m, s0, all, calls + [c]) == Replayed(r.state, Drop(before.rest, r.used), before.verdicts + [r.verdict])
  {
    assert (calls + [c])[..|calls|] == calls;
  }

  lemma DecodedSnoc<E>(decoded: seq<Decoding<E>>, d: Decoding<E>)
    ensures Calls(decoded + [d]) == Calls(decoded) + [d.call]
    ensures Verdicts(decoded + [d]) == Verdicts(decoded) + [d.verdict]
  {
  }

  /* What relates a run to the reference */

  // The only step a client makes next: the handshake until it is connected.
  function Current<S, E>(st: State<S, E>): Call {
    if st.connected then Recv else Handshake
  }

  ghost function Left<S, E>(all: Bytes, st: State<S, E>): Bytes {
    st.core.inbuf + Drop(all, |st.submitted|)
  }

  // The core stands exactly where the reference decoder stands.
  ghost predicate Exact<S, E>(m: Machine<S, E>, s0: S, all: Bytes, st: State<S, E>) {
    var ref := Replay(m, s0, all, Calls(st.decoded));
    ref.s == st.core.s && ref.rest == Left(all, st)
  }

  // The core may be part way through the next step; finishing it gives what the
  // reference decoder gets.
  ghost predicate Underway<S, E>(m: Machine<S, E>, s0: S, all: Bytes, st: State<S, E>) {
    var ref := Replay(m, s0, all, Calls(st.decoded));
    View(m, Current(st), ref.s, ref.rest) == View(m, Current(st), st.core.s, Left(all, st))
  }

  ghost predicate Synced<S, E>(m: Machine<S, E>, s0: S, all: Bytes, st: State<S, E>) {
    && st.submitted <= all
    && Replay(m, s0, all, Calls(st.decoded)).verdicts == Verdicts(st.decoded)
    && Underway(m, s0, all, st)
  }

  ghost predicate ContFits<S, E>(m: Machine<S, E>, s0: S, all: Bytes, st: State<S, E>, k: Cont<E>) {
    match k
    case ThenStep(c) => c == Current(st)
    case ThenRead(c) => c == Current(st) && m.step(c, st.core.s, st.core.inbuf).verdict.NeedsInput?
    case ThenReturn(Done(_)) => Exact(m, s0, all, st)
    case _ => st.connected
  }

  ghost predicate Tracks<S, E>(m: Machine<S, E>, s0: S, all: Bytes, st: State<S, E>) {
    && Synced(m, s0, all, st)
    && match st.pc
       case AwaitWrite(_, k) => ContFits(m, s0, all, st, k)
       case AwaitFlush(k) => ContFits(m, s0, all, st, k)
       case AwaitRead(c) => ContFits(m, s0, all, st, ThenRead(c))
       case Idle => st.connected
       case Gone => true
  }

  lemma ExactIsUnderway<S, E>(m: Machine<S, E>, s0: S, all: Bytes, st: State<S, E>)
    requires Exact(m, s0, all, st)
    ensures Underway(m, s0, all, st)
  {
  }

  lemma {:induction false} FinishTracks<S, E>(m: Machine<S, E>, s0: S, all: Bytes, st: State<S, E>, o: Outcome<E>)
    requires Synced(m, s0, all, st)
    requires o.Done? ==> Exact(m, s0, all, st)
    ensures Tracks(m, s0, all, Finish(st, o))
  {
    var end := Finish(st, o);
    assert end.decoded == st.decoded && Left(all, end) == Left(all, st);
    if o.Done? { ExactIsUnderway(m, s0, all, end); }
  }

  // An undecided step only moves the core along.
  lemma {:induction false} WaitingStepTracks<S(!new), E(!new)>(m: Machine<S, E>, s0: S, all: Bytes, st: State<S, E>)
    requires Lawful(m) && Synced(m, s0, all, st)
    requires m.step(Current(st), st.core.s, st.core.inbuf).verdict.NeedsInput?
    ensures var next := Stepping(m, st, Current(st));
      Synced(m, s0, all, next) && ContFits(m, s0, all, next, ThenRead(Current(st)))
  {
    var c, b, x := Current(st), st.core.inbuf, Drop(all, |st.submitted|);
    StepAhead(m, c, st.core.s, b, x);
  }

  // A decided step brings the core and the reference together.
  lemma {:induction false} DecidedStepTracks<S(!new), E(!new)>(m: Machine<S, E>, s0: S, all: Bytes, st: State<S, E>)
    requires Lawful(m) && Synced(m, s0, all, st)
    requires !m.step(Current(st), st.core.s, st.core.inbuf).verdict.NeedsInput?
    ensures var next := Stepping(m, st, Current(st));
      Synced(m, s0, all, next) && Exact(m, s0, all, next)
  {
    var c, b, x := Current(st), st.core.inbuf, Drop(all, |st.submitted|);
    var r := m.step(c, st.core.s, b);
    var next := Stepping(m, st, c);
    StepAhead(m, c, st.core.s, b, x);
    ReplaySnoc(m, s0, all, Calls(st.decoded), c);
    DecodedSnoc(st.decoded, Decoding(c, r.verdict));
    assert Exact(m, s0, all, next);
    ExactIsUnderway(m, s0, all, next);
  }

  lemma {:induction false} DrainTracks<S(!new), E(!new)>(
      m: Machine<S, E>, s0: S, all: Bytes, st: State<S, E>, wrote: bool, k: Cont<E>)
    requires Lawful(m) && Synced(m, s0, all, st) && ContFits(m, s0, all, st, k)
    ensures Tracks(m, s0, all, DrainHead(m, st, wrote, k))
    ensures Tracks(m, s0, all, Resume(m, st, k))
    decreases Rank(k)
  {
    assert Tracks(m, s0, all, Resume(m, st, k)) by { ResumeTracks(m, s0, all, st, k); }
    var waiting := if st.core.out != [] then st.(pc := AwaitWrite(wrote, k)) else st.(pc := AwaitFlush(k));
    assert Left(all, waiting) == Left(all, st) && Tracks(m, s0, all, waiting);
  }

  lemma {:induction false} ResumeTracks<S(!new), E(!new)>(
      m: Machine<S, E>, s0: S, all: Bytes, st: State<S, E>, k: Cont<E>)
    requires Lawful(m) && Synced(m, s0, all, st) && ContFits(m, s0, all, st, k)
    ensures Tracks(m, s0, all, Resume(m, st, k))
    decreases Rank(k), 0
  {
    match k
    case ThenReturn(o) => FinishTracks(m, s0, all, st, o);
    case ThenRead(c) =>
      assert Left(all, st.(pc := AwaitRead(c))) == Left(all, st);
    case ThenSend(req) =>
      var next := Sending(m, st, req);
      assert Left(all, next) == Left(all, st) && Synced(m, s0, all, next);
      match m.send(st.core.s, req).result {
        case Ok(_) => DrainTracks(m, s0, all, next, false, ThenReturn(Sent));
        case Err(kind) => FinishTracks(m, s0, all, next, Error(kind));
      }
    case ThenStep(c) =>
      var next := Stepping(m, st, c);
      match m.step(c, st.core.s, st.core.inbuf).verdict {
        case NeedsInput =>
          WaitingStepTracks(m, s0, all, st);
          DrainTracks(m, s0, all, next, false, ThenRead(c));
        case Ready(event) =>
          DecidedStepTracks(m, s0, all, st);
          DrainTracks(m, s0, all, next, false, ThenReturn(Done(event)));
        case Failed(kind) =>
          DecidedStepTracks(m, s0, all, st);
          FinishTracks(m, s0, all, next, Error(kind));
      }
  }

  /* Over whole runs */

  lemma {:induction false} StepTracks<S(!new), E(!new)>(m: Machine<S, E>, s0: S, all: Bytes, st: State<S, E>, a: Action)
    requires Lawful(m) && Tracks(m, s0, all, st)
    requires Next(m, st, a).submitted <= all
    ensures Tracks(m, s0, all, Next(m, st, a))
  {
    hide DrainHead, Resume;
    if Enabled(st, a) {
      match a
      case Begin(OpSend(req)) => DrainTracks(m, s0, all, st, false, ThenSend(req));
      case Begin(OpRecv) => DrainTracks(m, s0, all, st, false, ThenStep(Recv));
      case CoreSend(req) => assert Left(all, Sending(m, st, req)) == Left(all, st);
      case Wrote(n) =>
        if n == 0 {
          FinishTracks(m, s0, all, st, Error(Io));
        } else {
          assert Left(all, Accept(st, n)) == Left(all, st);
          DrainTracks(m, s0, all, Accept(st, n), true, st.pc.k);
        }
      case FlushDone =>
        var next := st.(flushed := |st.wire|);
        assert Left(all, next) == Left(all, st);
        DrainTracks(m, s0, all, next, false, st.pc.k);
      case Got(chunk) =>
        DrainKeepsInput(m, Submit(st, chunk), false, ThenStep(st.pc.call));
        SubmitTracks(m, s0, all, st, chunk);
        DrainTracks(m, s0, all, Submit(st, chunk), false, ThenStep(st.pc.call));
      case SubmitFails(chunk) =>
        assert Left(all, Read(st, chunk)) == Left(all, st);
        FinishTracks(m, s0, all, Read(st, chunk), Error(Oom));
      case WriteFails => FinishTracks(m, s0, all, st, Error(Io));
      case FlushFails => FinishTracks(m, s0, all, st, Error(Io));
      case Closed => FinishTracks(m, s0, all, st, Error(Eof));
      case ReadFails => FinishTracks(m, s0, all, st, Error(Io));
      case Cancel => FinishTracks(m, s0, all, st, Dropped);
    }
  }

  lemma {:induction false} SubmitTracks<S, E>(m: Machine<S, E>, s0: S, all: Bytes, st: State<S, E>, chunk: Bytes)
    requires Synced(m, s0, all, st) && st.submitted + chunk <= all
    ensures Synced(m, s0, all, Submit(st, chunk)) && Left(all, Submit(st, chunk)) == Left(all, st)
  {
    assert Drop(all, |st.submitted|) == chunk + Drop(all, |st.submitted + chunk|);
    assert Left(all, Submit(st, chunk)) == Left(all, st);
  }

  lemma {:induction false} DrainKeepsInput<S, E>(m: Machine<S, E>, st: State<S, E>, wrote: bool, k: Cont<E>)
    ensures DrainHead(m, st, wrote, k).submitted == st.submitted == Resume(m, st, k).submitted
    ensures DrainHead(m, st, wrote, k).taken == st.taken == Resume(m, st, k).taken
    decreases Rank(k)
  {
    match k
    case ThenSend(req) => DrainKeepsInput(m, Sending(m, st, req), false, ThenReturn(Sent));
    case ThenStep(call) =>
      var next := Stepping(m, st, call);
      DrainKeepsInput(m, next, false, ThenRead(call));
      match m.step(call, st.core.s, st.core.inbuf).verdict {
        case Ready(event) => DrainKeepsInput(m, next, false, ThenReturn(Done(event)));
        case _ =>
      }
    case _ =>
  }

  lemma {:induction false} SubmittedGrows<S, E>(m: Machine<S, E>, st: State<S, E>, a: Action)
    ensures st.submitted <= Next(m, st, a).submitted
  {
    hide DrainHead, Resume;
    if Enabled(st, a) {
      match a
      case Begin(OpSend(req)) => DrainKeepsInput(m, st, false, ThenSend(req));
      case Begin(OpRecv) => DrainKeepsInput(m, st, false, ThenStep(Recv));
      case Wrote(n) => DrainKeepsInput(m, Accept(st, n), true, st.pc.k);
      case FlushDone => DrainKeepsInput(m, st.(flushed := |st.wire|), false, st.pc.k);
      case Got(chunk) => DrainKeepsInput(m, Submit(st, chunk), false, ThenStep(st.pc.call));
      case _ =>
    }
  }

  lemma {:induction false} RunTracks<S(!new), E(!new)>(m: Machine<S, E>, s0: S, all: Bytes, acts: seq<Action>)
    requires Lawful(m) && Run(m, s0, acts).submitted <= all
    ensures Tracks(m, s0, all, Run(m, s0, acts))
  {
    if acts == [] {
      var init := Initial(s0);
      assert Left(all, init) == all && Exact(m, s0, all, init);
      ExactIsUnderway(m, s0, all, init);
      DrainTracks(m, s0, all, init, false, ThenStep(Handshake));
    } else {
      var before := acts[..|acts| - 1];
      SubmittedGrows(m, Run(m, s0, before), acts[|acts| - 1]);
      RunTracks(m, s0, all, before);
      StepTracks(m, s0, all, Run(m, s0, before), acts[|acts| - 1]);
    }
  }

  // Whatever the chunks, the partial writes, the failures and the dropped
  // futures, every decision taken so far is the one a decoder takes that has the
  // whole of the bytes the core took in front of it.
  lemma {:induction false} DecodesTheWholeStream<S(!new), E(!new)>(
      m: Machine<S, E>, s0: S, all: Bytes, acts: seq<Action>)
    requires Lawful(m) && Run(m, s0, acts).submitted <= all
    ensures var decoded := Run(m, s0, acts).decoded;
      Verdicts(decoded) == Replay(m, s0, all, Calls(decoded)).verdicts
  {
    RunTracks(m, s0, all, acts);
  }

  lemma {:induction false} ReplayPrefix<S, E>(m: Machine<S, E>, s0: S, all: Bytes, calls: seq<Call>, n: nat)
    requires n <= |calls|
    ensures |Replay(m, s0, all, calls).verdicts| == |calls|
    ensures Replay(m, s0, all, calls[..n]).verdicts == Replay(m, s0, all, calls).verdicts[..n]
  {
    if n < |calls| {
      ReplayPrefix(m, s0, all, calls[..|calls| - 1], n);
      assert calls[..|calls| - 1][..n] == calls[..n];
    } else {
      assert calls[..n] == calls;
      if calls != [] { ReplayPrefix(m, s0, all, calls[..|calls| - 1], |calls| - 1); }
    }
  }

  // A handshake first, then receives, and none of those unless the handshake
  // succeeded: the calls made in any run.
  lemma {:induction false} CallsAreForced<S, E>(m: Machine<S, E>, s0: S, acts: seq<Action>)
    ensures CallOrder(Run(m, s0, acts))
  {
    if acts == [] {
      DrainOrder(m, Initial(s0), false, ThenStep(Handshake));
    } else {
      CallsAreForced(m, s0, acts[..|acts| - 1]);
      StepOrder(m, Run(m, s0, acts[..|acts| - 1]), acts[|acts| - 1]);
    }
  }

  ghost predicate Greeted<S, E>(st: State<S, E>) {
    st.decoded != [] && st.decoded[0].verdict.Ready?
  }

  ghost predicate OrderFits<S, E>(st: State<S, E>, k: Cont<E>) {
    && (k.ThenStep? ==> k.call == Current(st) && (k.call.Handshake? ==> st.decoded == []))
    && (k.ThenRead? ==> k.call == Current(st) && (k.call.Handshake? ==> st.decoded == []))
    && (k.ThenReturn? && k.outcome.Done? ==> Greeted(st))
    && (k.ThenSend? ==> st.connected)
  }

  ghost predicate CallOrder<S, E>(st: State<S, E>) {
    && (if st.connected then Greeted(st) else |st.decoded| <= 1)
    && (st.pc.Idle? ==> st.connected)
    && (forall i :: 0 <= i < |st.decoded| ==> st.decoded[i].call == if i == 0 then Handshake else Recv)
    && match st.pc
       case AwaitWrite(_, k) => OrderFits(st, k)
       case AwaitFlush(k) => OrderFits(st, k)
       case AwaitRead(c) => OrderFits(st, ThenRead(c))
       case _ => true
  }

  lemma {:induction false} DrainOrder<S, E>(m: Machine<S, E>, st: State<S, E>, wrote: bool, k: Cont<E>)
    requires CallOrder(st.(pc := Gone)) && OrderFits(st, k)
    ensures CallOrder(DrainHead(m, st, wrote, k)) && CallOrder(Resume(m, st, k))
    decreases Rank(k)
  {
    ResumeOrder(m, st, k);
  }

  lemma {:induction false} ResumeOrder<S, E>(m: Machine<S, E>, st: State<S, E>, k: Cont<E>)
    requires CallOrder(st.(pc := Gone)) && OrderFits(st, k)
    ensures CallOrder(Resume(m, st, k))
    decreases Rank(k), 0
  {
    match k
    case ThenSend(req) =>
      if m.send(st.core.s, req).result.Ok? { DrainOrder(m, Sending(m, st, req), false, ThenReturn(Sent)); }
    case ThenStep(call) =>
      var next := Stepping(m, st, call);
      assert CallOrder(next.(pc := Gone));
      match m.step(call, st.core.s, st.core.inbuf).verdict {
        case Ready(event) => DrainOrder(m, next, false, ThenReturn(Done(event)));
        case NeedsInput => DrainOrder(m, next, false, ThenRead(call));
        case _ =>
      }
    case _ =>
  }

  lemma {:induction false} StepOrder<S, E>(m: Machine<S, E>, st: State<S, E>, a: Action)
    requires CallOrder(st)
    ensures CallOrder(Next(m, st, a))
  {
    hide DrainHead, Resume;
    if Enabled(st, a) {
      match a
      case Begin(OpSend(req)) => DrainOrder(m, st, false, ThenSend(req));
      case Begin(OpRecv) => DrainOrder(m, st, false, ThenStep(Recv));
      case Wrote(n) => DrainOrder(m, Accept(st, n), true, st.pc.k);
      case FlushDone => DrainOrder(m, st.(flushed := |st.wire|), false, st.pc.k);
      case Got(chunk) => DrainOrder(m, Submit(st, chunk), false, ThenStep(st.pc.call));
      case _ =>
    }
  }

  // Only decided steps are recorded.
  lemma {:induction false} DecidedAreDecided<S, E>(m: Machine<S, E>, s0: S, acts: seq<Action>)
    ensures AllDecided(Run(m, s0, acts))
  {
    if acts == [] {
      DrainDecides(m, Initial(s0), false, ThenStep(Handshake));
    } else {
      var st, a := Run(m, s0, acts[..|acts| - 1]), acts[|acts| - 1];
      DecidedAreDecided(m, s0, acts[..|acts| - 1]);
      if Enabled(st, a) {
        match a {
          case Begin(OpSend(req)) => DrainDecides(m, st, false, ThenSend(req));
          case Begin(OpRecv) => DrainDecides(m, st, false, ThenStep(Recv));
          case Wrote(n) => DrainDecides(m, Accept(st, n), true, st.pc.k);
          case FlushDone => DrainDecides(m, st.(flushed := |st.wire|), false, st.pc.k);
          case Got(chunk) => DrainDecides(m, Submit(st, chunk), false, ThenStep(st.pc.call));
          case _ =>
        }
      }
    }
  }

  ghost predicate AllDecided<S, E>(st: State<S, E>) {
    forall i :: 0 <= i < |st.decoded| ==> !st.decoded[i].verdict.NeedsInput?
  }

  lemma {:induction false} DrainDecides<S, E>(m: Machine<S, E>, st: State<S, E>, wrote: bool, k: Cont<E>)
    requires AllDecided(st)
    ensures AllDecided(DrainHead(m, st, wrote, k)) && AllDecided(Resume(m, st, k))
    decreases Rank(k)
  {
    match k
    case ThenSend(req) => DrainDecides(m, Sending(m, st, req), false, ThenReturn(Sent));
    case ThenStep(call) =>
      var next := Stepping(m, st, call);
      DrainDecides(m, next, false, ThenRead(call));
      match m.step(call, st.core.s, st.core.inbuf).verdict {
        case Ready(event) => DrainDecides(m, next, false, ThenReturn(Done(event)));
        case _ =>
      }
    case _ =>
  }

  /* The events of a stream */

  // Decisions a decoder makes that has all of `all` in front of it: a handshake
  // and, if that succeeds, receives.
  ghost predicate DecodingOf<S, E>(m: Machine<S, E>, s0: S, all: Bytes, d: seq<Decoding<E>>) {
    && (forall i :: 0 <= i < |d| ==> d[i].call == NthCall(i) && !d[i].verdict.NeedsInput?)
    && (|d| > 1 ==> d[0].verdict.Ready?)
    && Verdicts(d) == Replay(m, s0, all, Calls(d)).verdicts
  }

  function NthCall(n: nat): Call {
    if n == 0 then Handshake else Recv
  }

  // All the decisions there are: the handshake has failed, or the bytes left
  // over do not decide the next step.
  ghost predicate WholeDecoding<S, E>(m: Machine<S, E>, s0: S, all: Bytes, d: seq<Decoding<E>>) {
    && DecodingOf(m, s0, all, d)
    && ((d != [] && !d[0].verdict.Ready?) || Undecided(m, s0, all, d))
  }

  ghost predicate Undecided<S, E>(m: Machine<S, E>, s0: S, all: Bytes, d: seq<Decoding<E>>) {
    var ref := Replay(m, s0, all, Calls(d));
    m.step(NthCall(|d|), ref.s, ref.rest).verdict.NeedsInput?
  }

  lemma {:induction false} DecodingsAgree<S, E>(
      m: Machine<S, E>, s0: S, all: Bytes, d: seq<Decoding<E>>, e: seq<Decoding<E>>)
    requires DecodingOf(m, s0, all, d) && DecodingOf(m, s0, all, e) && |d| <= |e|
    ensures d <= e
  {
    hide Replay;
    assert Calls(d) == Calls(e)[..|d|];
    ReplayPrefix(m, s0, all, Calls(e), |d|);
    forall i | 0 <= i < |d|
      ensures d[i] == e[i]
    {
      assert Verdicts(d)[i] == Verdicts(e)[i] && Calls(d)[i] == Calls(e)[i];
    }
  }

  lemma {:induction false} DecisionAt<S, E>(m: Machine<S, E>, s0: S, all: Bytes, d: seq<Decoding<E>>, n: nat)
    requires DecodingOf(m, s0, all, d) && n < |d|
    ensures var ref := Replay(m, s0, all, Calls(d[..n]));
      d[n].verdict == m.step(d[n].call, ref.s, ref.rest).verdict
  {
    hide Replay;
    var calls := Calls(d);
    assert calls[..n] == Calls(d[..n]) && calls[..n + 1] == calls[..n] + [d[n].call];
    ReplayPrefix(m, s0, all, calls, n + 1);
    ReplayPrefix(m, s0, all, calls[..n], n);
    ReplaySnoc(m, s0, all, calls[..n], d[n].call);
    assert Verdicts(d)[n] == d[n].verdict;
  }

  // No decoding of the stream goes beyond a whole one.
  lemma {:induction false} NothingBeyondTheWhole<S, E>(
      m: Machine<S, E>, s0: S, all: Bytes, d: seq<Decoding<E>>, e: seq<Decoding<E>>)
    requires WholeDecoding(m, s0, all, d) && DecodingOf(m, s0, all, e)
    ensures e <= d
  {
    hide Replay;
    if |e| > |d| {
      DecodingsAgree(m, s0, all, d, e);
      assert e[..|d|] == d;
      DecisionAt(m, s0, all, e, |d|);
      assert false;
    }
    DecodingsAgree(m, s0, all, e, d);
  }

  // A stream has at most one whole decoding.
  lemma {:induction false} WholeDecodingIsUnique<S, E>(
      m: Machine<S, E>, s0: S, all: Bytes, d: seq<Decoding<E>>, e: seq<Decoding<E>>)
    requires WholeDecoding(m, s0, all, d) && WholeDecoding(m, s0, all, e)
    ensures d == e
  {
    NothingBeyondTheWhole(m, s0, all, d, e);
    NothingBeyondTheWhole(m, s0, all, e, d);
  }

  // What a run has decoded is a decoding of every stream that starts with the
  // bytes its core took.
  lemma {:induction false} RunDecodes<S(!new), E(!new)>(m: Machine<S, E>, s0: S, all: Bytes, acts: seq<Action>)
    requires Lawful(m) && Run(m, s0, acts).submitted <= all
    ensures DecodingOf(m, s0, all, Run(m, s0, acts).decoded)
  {
    hide Run, Replay;
    DecodesTheWholeStream(m, s0, all, acts);
    CallsAreForced(m, s0, acts);
    DecidedAreDecided(m, s0, acts);
  }

  // Two runs over one stream decode the same events, the shorter list being a
  // prefix of the longer: only how far they got may differ.
  lemma {:induction false} ChunkingIndependence<S(!new), E(!new)>(
      m: Machine<S, E>, s0: S, all: Bytes, acts1: seq<Action>, acts2: seq<Action>)
    requires Lawful(m)
    requires Run(m, s0, acts1).submitted <= all && Run(m, s0, acts2).submitted <= all
    requires |Run(m, s0, acts1).decoded| <= |Run(m, s0, acts2).decoded|
    ensures Run(m, s0, acts1).decoded <= Run(m, s0, acts2).decoded
  {
    hide Run, DecodingOf;
    RunDecodes(m, s0, all, acts1);
    RunDecodes(m, s0, all, acts2);
    DecodingsAgree(m, s0, all, Run(m, s0, acts1).decoded, Run(m, s0, acts2).decoded);
  }

  // Awaiting a read with the whole stream submitted, the decoder over the whole
  // stream needs more input as well: `Eof` is then the right answer.
  lemma {:induction false} EofOnlyWhenInputIsMissing<S(!new), E(!new)>(
      m: Machine<S, E>, s0: S, all: Bytes, acts: seq<Action>)
    requires Lawful(m)
    requires Run(m, s0, acts).pc.AwaitRead? && Run(m, s0, acts).submitted == all
    ensures var st := Run(m, s0, acts);
      var ref := Replay(m, s0, all, Calls(st.decoded));
      m.step(st.pc.call, ref.s, ref.rest).verdict.NeedsInput?
  {
    RunTracks(m, s0, all, acts);
    var st := Run(m, s0, acts);
    assert Drop(all, |all|) == [];
    assert Left(all, st) == st.core.inbuf;
  }

  // Conversely a step that the whole stream does not decide, after the decisions
  // of one run, is decided by no run.
  lemma {:induction false} MissingInputNeverDecides<S(!new), E(!new)>(
      m: Machine<S, E>, s0: S, all: Bytes, acts1: seq<Action>, acts2: seq<Action>)
    requires Lawful(m)
    requires Run(m, s0, acts1).submitted <= all && Run(m, s0, acts2).submitted <= all
    requires Undecided(m, s0, all, Run(m, s0, acts1).decoded)
    ensures Run(m, s0, acts2).decoded <= Run(m, s0, acts1).decoded
  {
    hide Run, DecodingOf, Undecided;
    RunDecodes(m, s0, all, acts1);
    RunDecodes(m, s0, all, acts2);
    NothingBeyondTheWhole(m, s0, all, Run(m, s0, acts1).decoded, Run(m, s0, acts2).decoded);
  }

  // A run that used up a stream, and awaits more of it or had its handshake
  // refused, has decoded exactly the events of that stream.
  ghost predicate UsedUp<S, E>(st: State<S, E>, all: Bytes) {
    && st.submitted == all
    && (st.pc.AwaitRead? || (st.decoded != [] && st.decoded[0].verdict.Failed?))
  }

  lemma {:induction false} DecodesExactlyTheStream<S(!new), E(!new)>(
      m: Machine<S, E>, s0: S, all: Bytes, acts: seq<Action>)
    requires Lawful(m) && UsedUp(Run(m, s0, acts), all)
    ensures WholeDecoding(m, s0, all, Run(m, s0, acts).decoded)
  {
    hide Run, Replay;
    RunDecodes(m, s0, all, acts);
    if Run(m, s0, acts).pc.AwaitRead? {
      CallsAreForced(m, s0, acts);
      EofOnlyWhenInputIsMissing(m, s0, all, acts);
    }
  }
}
