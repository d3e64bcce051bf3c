// The byte pump of src/async_client.rs as a small-step system.
//
// Every `await` on the stream is a step boundary. The transport, the server and
// the caller who may drop a future at any `await` are one adversary: they pick
// the next `Action`. Between two awaits the client runs alone, which is what
// `DrainHead` and `Resume` compute.
module Pump {
  import opened Outcomes
  import opened Protocol

  // How an operation ended, seen by its caller.
  datatype Outcome<+E> = Sent | Done(event: E) | Error(kind: ErrorKind) | Dropped

  // What the client does once the current drain is over.
  datatype Cont<+E> =
    | ThenSend(req: Request)
    | ThenStep(call: Call)
    | ThenRead(call: Call)
    | ThenReturn(outcome: Outcome<E>)

  // Where the client is suspended. `wrote` is the local of `drain_out`. A
  // client whose handshake failed or was dropped is `Gone`.
  datatype Pc<+E> =
    | Idle
    | Gone
    | AwaitWrite(wrote: bool, k: Cont<E>)
    | AwaitFlush(k: Cont<E>)
    | AwaitRead(call: Call)

  datatype Decoding<+E> = Decoding(call: Call, verdict: Verdict<E>)

  // The client, the outgoing half of its transport, and the history of the run:
  // `packets` lists what each core operation queued, `taken` all bytes read off
  // the stream, `submitted` those the core then took, `decoded` every decided
  // step, `log` every outcome.
  datatype State<+S, +E> = State(
    core: Core<S>,
    pc: Pc<E>,
    connected: bool,
    wire: Bytes,
    flushed: nat,
    packets: seq<Bytes>,
    taken: Bytes,
    submitted: Bytes,
    decoded: seq<Decoding<E>>,
    log: seq<Outcome<E>>)

  datatype Op = OpSend(req: Request) | OpRecv

  datatype Action =
    | Begin(op: Op)
    | CoreSend(req: Request)
    | Wrote(n: nat)
    | WriteFails
    | FlushDone
    | FlushFails
    | Got(chunk: Bytes)
    | SubmitFails(chunk: Bytes)
    | Closed
    | ReadFails
    | Cancel

  /* Between awaits */

  function Finish<S, E>(st: State<S, E>, o: Outcome<E>): State<S, E> {
    var connected := st.connected || o.Done?;
    st.(pc := if connected then Idle else Gone, connected := connected, log := st.log + [o])
  }

  function Queue<S, E>(st: State<S, E>, bytes: Bytes): State<S, E> {
    st.(core := st.core.(out := st.core.out + bytes), packets := st.packets + [bytes])
  }

  function Sending<S, E>(m: Machine<S, E>, st: State<S, E>, req: Request): State<S, E> {
    Queue(st, m.send(st.core.s, req).queued)
  }

  function Stepping<S, E>(m: Machine<S, E>, st: State<S, E>, call: Call): State<S, E> {
    var r := m.step(call, st.core.s, st.core.inbuf);
    var next := Queue(st.(core := Core(r.state, Drop(st.core.inbuf, r.used), st.core.out)), r.queued);
    if r.verdict.NeedsInput? then next else next.(decoded := next.decoded + [Decoding(call, r.verdict)])
  }

  function Rank<E>(k: Cont<E>): nat {
    match k
    case ThenStep(_) => 2
    case ThenSend(_) => 2
    case ThenRead(_) => 1
    case ThenReturn(_) => 0
  }

  // The head of the loop in `drain_out`.
  function DrainHead<S, E>(m: Machine<S, E>, st: State<S, E>, wrote: bool, k: Cont<E>): State<S, E>
    decreases Rank(k), 1
  {
    if st.core.out != [] then st.(pc := AwaitWrite(wrote, k))
    else if wrote then st.(pc := AwaitFlush(k))
    else Resume(m, st, k)
  }

  // What follows a drain that returned Ok.
  function Resume<S, E>(m: Machine<S, E>, st: State<S, E>, k: Cont<E>): State<S, E>
    decreases Rank(k), 0
  {
    match k
    case ThenReturn(o) => Finish(st, o)
    case ThenRead(call) => st.(pc := AwaitRead(call))
    case ThenSend(req) =>
      var next := Sending(m, st, req);
      (match m.send(st.core.s, req).result
       case Ok(_) => DrainHead(m, next, false, ThenReturn(Sent))
       case Err(kind) => Finish(next, Error(kind)))
    case ThenStep(call) =>
      var next := Stepping(m, st, call);
      (match m.step(call, st.core.s, st.core.inbuf).verdict
       case Ready(event) => DrainHead(m, next, false, ThenReturn(Done(event)))
       case NeedsInput => DrainHead(m, next, false, ThenRead(call))
       case Failed(kind) => Finish(next, Error(kind)))
  }

  lemma NothingToDrain<S, E>(m: Machine<S, E>, st: State<S, E>, k: Cont<E>)
    requires st.core.out == []
    ensures DrainHead(m, st, false, k) == Resume(m, st, k)
    ensures k.ThenRead? ==> Resume(m, st, k) == st.(pc := AwaitRead(k.call))
  {
  }

  /* Steps */

  function Initial<S, E>(s0: S): State<S, E> {
    State(Core(s0, [], []), Idle, false, [], 0, [], [], [], [], [])
  }

  function Start<S, E>(m: Machine<S, E>, s0: S): State<S, E> {
    DrainHead(m, Initial(s0), false, ThenStep(Handshake))
  }

  predicate Enabled<S, E>(st: State<S, E>, a: Action) {
    match a
    case Begin(_) => st.pc.Idle?
    case CoreSend(_) => st.pc.Idle?
    case Wrote(n) => st.pc.AwaitWrite? && n <= |st.core.out|
    case WriteFails => st.pc.AwaitWrite?
    case FlushDone => st.pc.AwaitFlush?
    case FlushFails => st.pc.AwaitFlush?
    case Got(chunk) => st.pc.AwaitRead? && chunk != []
    case SubmitFails(chunk) => st.pc.AwaitRead? && chunk != []
    case Closed => st.pc.AwaitRead?
    case ReadFails => st.pc.AwaitRead?
    case Cancel => !st.pc.Idle? && !st.pc.Gone?
  }

  function Accept<S, E>(st: State<S, E>, n: nat): State<S, E>
    requires n <= |st.core.out|
  {
    st.(wire := st.wire + st.core.out[..n], core := st.core.(out := st.core.out[n..]))
  }

  // The chunk has left the stream, whatever becomes of it.
  function Read<S, E>(st: State<S, E>, chunk: Bytes): State<S, E> {
    st.(taken := st.taken + chunk)
  }

  function Submit<S, E>(st: State<S, E>, chunk: Bytes): State<S, E> {
    Read(st, chunk).(core := st.core.(inbuf := st.core.inbuf + chunk), submitted := st.submitted + chunk)
  }

  // An action that is not enabled leaves the state alone, so every list of
  // actions is a run.
  function Next<S, E>(m: Machine<S, E>, st: State<S, E>, a: Action): State<S, E> {
    if !Enabled(st, a) then st
    else
      match a
      case Begin(OpSend(req)) => DrainHead(m, st, false, ThenSend(req))
      case Begin(OpRecv) => DrainHead(m, st, false, ThenStep(Recv))
      case CoreSend(req) => Sending(m, st, req)
      case Wrote(n) =>
        if n == 0 then Finish(st, Error(Io)) else DrainHead(m, Accept(st, n), true, st.pc.k)
      case WriteFails => Finish(st, Error(Io))
      case FlushDone => Resume(m, st.(flushed := |st.wire|), st.pc.k)
      case FlushFails => Finish(st, Error(Io))
      case Got(chunk) => DrainHead(m, Submit(st, chunk), false, ThenStep(st.pc.call))
      case SubmitFails(chunk) => Finish(Read(st, chunk), Error(Oom))
      case Closed => Finish(st, Error(Eof))
      case ReadFails => Finish(st, Error(Io))
      case Cancel => Finish(st, Dropped)
  }

  function Run<S, E>(m: Machine<S, E>, s0: S, acts: seq<Action>): State<S, E> {
    if acts == [] then Start(m, s0)
    else Next(m, Run(m, s0, acts[..|acts| - 1]), acts[|acts| - 1])
  }

  lemma RunSnoc<S, E>(m: Machine<S, E>, s0: S, acts: seq<Action>, a: Action)
    ensures Run(m, s0, acts + [a]) == Next(m, Run(m, s0, acts), a)
  {
    assert (acts + [a])[..|acts|] == acts;
  }
}
