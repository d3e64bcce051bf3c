// Delivery and termination of the pump.
module PumpProgress {
  import opened Outcomes
  import opened Protocol
  import opened Pump
  import Acks

  /* Delivery */

  function Delivered<E>(log: seq<Outcome<E>>): seq<E> {
    if log == [] then []
    else
      var last := log[|log| - 1];
      Delivered(log[..|log| - 1]) + if last.Done? then [last.event] else []
  }

  function Events<E>(decoded: seq<Decoding<E>>): seq<E> {
    if decoded == [] then []
    else
      var last := decoded[|decoded| - 1].verdict;
      Events(decoded[..|decoded| - 1]) + if last.Ready? then [last.event] else []
  }

  lemma DeliveredSnoc<E>(log: seq<Outcome<E>>, o: Outcome<E>)
    ensures Delivered(log + [o]) == Delivered(log) + if o.Done? then [o.event] else []
  {
    assert (log + [o])[..|log|] == log;
  }

  lemma EventsSnoc<E>(decoded: seq<Decoding<E>>, d: Decoding<E>)
    ensures Events(decoded + [d]) == Events(decoded) + if d.verdict.Ready? then [d.verdict.event] else []
  {
    assert (decoded + [d])[..|decoded|] == decoded;
  }

  // The event a suspended operation still has to hand over.
  function Held<E>(k: Cont<E>): seq<E> {
    if k.ThenReturn? && k.outcome.Done? then [k.outcome.event] else []
  }

  ghost predicate Even<S, E>(st: State<S, E>, held: seq<E>) {
    Events(st.decoded) == Delivered(st.log) + held
  }

  ghost predicate Owed<S, E>(st: State<S, E>, held: seq<E>) {
    Even(st, held) && (st.connected ==> held == [])
  }

  ghost predicate HandsOver<S, E>(st: State<S, E>) {
    match st.pc
    case AwaitWrite(_, k) => Owed(st, Held(k)) && CallFits(st, k)
    case AwaitFlush(k) => st.core.out == [] && Owed(st, Held(k)) && CallFits(st, k)
    case AwaitRead(c) => st.core.out == [] && Owed(st, []) && (c.Recv? <==> st.connected)
    case Idle => st.connected && Owed(st, [])
    case Gone => !st.connected
  }

  ghost predicate CallFits<S, E>(st: State<S, E>, k: Cont<E>) {
    match k
    case ThenStep(c) => c.Recv? <==> st.connected
    case ThenRead(c) => c.Recv? <==> st.connected
    case ThenReturn(o) => st.connected || o.Done?
    case ThenSend(_) => st.connected
  }

  lemma {:induction false} FinishHandsOver<S, E>(st: State<S, E>, o: Outcome<E>)
    requires Even(st, Held(ThenReturn(o))) || (!st.connected && !o.Done?)
    ensures HandsOver(Finish(st, o))
  {
    DeliveredSnoc(st.log, o);
  }

  lemma {:induction false} DrainHandsOver<S(!new), E(!new)>(m: Machine<S, E>, st: State<S, E>, wrote: bool, k: Cont<E>)
    requires QuietRecv(m) && Owed(st, Held(k)) && CallFits(st, k)
    ensures HandsOver(DrainHead(m, st, wrote, k))
    ensures st.core.out == [] ==> HandsOver(Resume(m, st, k))
    decreases Rank(k), 1
  {
    if st.core.out == [] { ResumeHandsOver(m, st, k); }
  }

  lemma {:induction false} ResumeHandsOver<S(!new), E(!new)>(m: Machine<S, E>, st: State<S, E>, k: Cont<E>)
    requires QuietRecv(m) && Owed(st, Held(k)) && CallFits(st, k) && st.core.out == []
    ensures HandsOver(Resume(m, st, k))
    decreases Rank(k), 0
  {
    match k
    case ThenReturn(o) => FinishHandsOver(st, o);
    case ThenRead(c) =>
    case ThenSend(req) =>
      var next := Sending(m, st, req);
      match m.send(st.core.s, req).result {
        case Ok(_) => DrainHandsOver(m, next, false, ThenReturn(Sent));
        case Err(kind) => FinishHandsOver(next, Error(kind));
      }
    case ThenStep(c) => StepResultHandsOver(m, st, c);
  }

  lemma {:induction false} StepResultHandsOver<S(!new), E(!new)>(m: Machine<S, E>, st: State<S, E>, c: Call)
    requires QuietRecv(m) && Owed(st, []) && (c.Recv? <==> st.connected) && st.core.out == []
    ensures HandsOver(Resume(m, st, ThenStep(c)))
    decreases 1, 2
  {
    hide Events, Delivered;
    var next := Stepping(m, st, c);
    var r := m.step(c, st.core.s, st.core.inbuf);
    EventsSnoc(st.decoded, Decoding(c, r.verdict));
    match r.verdict
    case NeedsInput => DrainHandsOver(m, next, false, ThenRead(c));
    case Failed(kind) => FinishHandsOver(next, Error(kind));
    case Ready(event) =>
      if c.Recv? {
        assert next.core.out == [];
        FinishHandsOver(next, Done(event));
        assert Resume(m, st, ThenStep(c)) == DrainHead(m, next, false, ThenReturn(Done(event))) == Finish(next, Done(event));
      } else {
        DrainHandsOver(m, next, false, ThenReturn(Done(event)));
      }
  }

  lemma {:induction false} StepHandsOver<S(!new), E(!new)>(m: Machine<S, E>, st: State<S, E>, a: Action)
    requires QuietRecv(m) && HandsOver(st)
    ensures HandsOver(Next(m, st, a))
  {
    hide DrainHead, Resume, Events, Delivered;
    if Enabled(st, a) {
      match a
      case Begin(OpSend(req)) => DrainHandsOver(m, st, false, ThenSend(req));
      case Begin(OpRecv) => DrainHandsOver(m, st, false, ThenStep(Recv));
      case Wrote(n) =>
        if n == 0 { CutHandsOver(st, Error(Io)); } else { DrainHandsOver(m, Accept(st, n), true, st.pc.k); }
      case FlushDone => ResumeHandsOver(m, st.(flushed := |st.wire|), st.pc.k);
      case Got(chunk) => DrainHandsOver(m, Submit(st, chunk), false, ThenStep(st.pc.call));
      case WriteFails => CutHandsOver(st, Error(Io));
      case FlushFails => CutHandsOver(st, Error(Io));
      case SubmitFails(_) => CutHandsOver(st, Error(Oom));
      case Closed => CutHandsOver(st, Error(Eof));
      case ReadFails => CutHandsOver(st, Error(Io));
      case Cancel => CutHandsOver(st, Dropped);
      case CoreSend(req) =>
    }
  }

  lemma {:induction false} CutHandsOver<S, E>(st: State<S, E>, o: Outcome<E>)
    requires HandsOver(st) && !st.pc.Idle? && !st.pc.Gone? && !o.Done?
    ensures HandsOver(Finish(st, o))
  {
    DeliveredSnoc(st.log, o);
  }

  // When delivering an event queues no output, no event is ever lost: whatever
  // is dropped or fails, a connected client has handed to its caller exactly
  // the events it decoded, in order.
  lemma {:induction false} NoEventIsLost<S(!new), E(!new)>(m: Machine<S, E>, s0: S, acts: seq<Action>)
    requires QuietRecv(m)
    ensures var st := Run(m, s0, acts);
      st.connected ==> Delivered(st.log) == Events(st.decoded)
  {
    RunHandsOver(m, s0, acts);
  }

  lemma {:induction false} RunHandsOver<S(!new), E(!new)>(m: Machine<S, E>, s0: S, acts: seq<Action>)
    requires QuietRecv(m)
    ensures HandsOver(Run(m, s0, acts))
  {
    if acts == [] {
      DrainHandsOver(m, Initial(s0), false, ThenStep(Handshake));
    } else {
      RunHandsOver(m, s0, acts[..|acts| - 1]);
      StepHandsOver(m, Run(m, s0, acts[..|acts| - 1]), acts[|acts| - 1]);
    }
  }

  /* Lost events */

  function HeldBy<S, E>(st: State<S, E>): seq<E> {
    match st.pc
    case AwaitWrite(_, k) => Held(k)
    case AwaitFlush(k) => Held(k)
    case _ => []
  }

  // The last drain of an operation that holds an event is cut.
  predicate CutsDelivery<S, E>(st: State<S, E>, a: Action) {
    && Enabled(st, a) && HeldBy(st) != []
    && (a.Cancel? || a.WriteFails? || a.FlushFails? || a == Wrote(0))
  }

  // The positions, among all decoded events, of those held by the drains cut.
  function Lost<S, E>(m: Machine<S, E>, s0: S, acts: seq<Action>): set<nat> {
    if acts == [] then {}
    else
      var st, a := Run(m, s0, acts[..|acts| - 1]), acts[|acts| - 1];
      LostSo(st, a, Lost(m, s0, acts[..|acts| - 1]))
  }

  function LostSo<S, E>(st: State<S, E>, a: Action, lost: set<nat>): set<nat> {
    if CutsDelivery(st, a) && Events(st.decoded) != [] then lost + {|Events(st.decoded)| - 1} else lost
  }

  function CutDeliveries<S, E>(m: Machine<S, E>, s0: S, acts: seq<Action>): nat {
    if acts == [] then 0
    else
      CutDeliveries(m, s0, acts[..|acts| - 1]) +
      if CutsDelivery(Run(m, s0, acts[..|acts| - 1]), acts[|acts| - 1]) then 1 else 0
  }

  // What is left of `es` without the positions in `gone`.
  function Without<T>(es: seq<T>, gone: set<nat>): seq<T> {
    if es == [] then []
    else Without(es[..|es| - 1], gone) + if |es| - 1 in gone then [] else [es[|es| - 1]]
  }

  lemma WithoutSnoc<T>(es: seq<T>, e: T, gone: set<nat>)
    ensures Without(es + [e], gone) == Without(es, gone) + if |es| in gone then [] else [e]
  {
    assert (es + [e])[..|es|] == es;
  }

  lemma {:induction false} WithoutBeyond<T>(es: seq<T>, gone: set<nat>, k: nat)
    requires k >= |es|
    ensures Without(es, gone + {k}) == Without(es, gone)
  {
    if es != [] { WithoutBeyond(es[..|es| - 1], gone, k); }
  }

  lemma {:induction false} WithoutNothing<T>(es: seq<T>)
    ensures Without(es, {}) == es
  {
    if es != [] { WithoutNothing(es[..|es| - 1]); }
  }

  ghost predicate Below(gone: set<nat>, n: int) {
    forall i :: i in gone ==> i < n
  }

  // As many are gone as there are positions.
  lemma {:induction false} WithoutLength<T>(es: seq<T>, gone: set<nat>)
    requires Below(gone, |es|)
    ensures |Without(es, gone)| + |gone| == |es|
  {
    if es == [] {
      assert gone == {};
    } else {
      var n := |es| - 1;
      WithoutLength(es[..n], gone - {n});
      if n in gone {
        WithoutBeyond(es[..n], gone - {n}, n);
        assert gone == (gone - {n}) + {n};
      } else {
        assert gone == gone - {n};
      }
    }
  }

  // The events delivered, and then the one held, are the decoded ones without
  // the lost ones.
  ghost predicate Accounted<S, E>(st: State<S, E>, held: seq<E>, lost: set<nat>) {
    && Without(Events(st.decoded), lost) == Delivered(st.log) + held
    && Below(lost, |Events(st.decoded)| - |held|) && |held| <= |Events(st.decoded)|
  }

  lemma {:induction false} DrainAccounts<S, E>(m: Machine<S, E>, st: State<S, E>, wrote: bool, k: Cont<E>, lost: set<nat>)
    requires Accounted(st, Held(k), lost)
    ensures var next := DrainHead(m, st, wrote, k); Accounted(next, HeldBy(next), lost)
    ensures var next := Resume(m, st, k); Accounted(next, HeldBy(next), lost)
    decreases Rank(k), 1
  {
    hide Events, Delivered, Without, Below;
    ResumeAccounts(m, st, k, lost);
  }

  lemma {:induction false} ResumeAccounts<S, E>(m: Machine<S, E>, st: State<S, E>, k: Cont<E>, lost: set<nat>)
    requires Accounted(st, Held(k), lost)
    ensures var next := Resume(m, st, k); Accounted(next, HeldBy(next), lost)
    decreases Rank(k), 0
  {
    hide Events, Delivered, Without, Below;
    match k
    case ThenReturn(o) => FinishAccounts(st, o, lost);
    case ThenRead(_) =>
    case ThenSend(req) =>
      var next := Sending(m, st, req);
      match m.send(st.core.s, req).result {
        case Ok(_) => DrainAccounts(m, next, false, ThenReturn(Sent), lost);
        case Err(kind) => FinishAccounts(next, Error(kind), lost);
      }
    case ThenStep(call) =>
      var next := Stepping(m, st, call);
      SteppingAccounts(m, st, call, lost);
      match m.step(call, st.core.s, st.core.inbuf).verdict {
        case Ready(event) => DrainAccounts(m, next, false, ThenReturn(Done(event)), lost);
        case NeedsInput => DrainAccounts(m, next, false, ThenRead(call), lost);
        case Failed(kind) => FinishAccounts(next, Error(kind), lost);
      }
  }

  lemma {:induction false} SteppingAccounts<S, E>(m: Machine<S, E>, st: State<S, E>, call: Call, lost: set<nat>)
    requires Accounted(st, [], lost)
    ensures var v := m.step(call, st.core.s, st.core.inbuf).verdict;
      Accounted(Stepping(m, st, call), if v.Ready? then [v.event] else [], lost)
  {
    hide Delivered, Without, Events;
    var v := m.step(call, st.core.s, st.core.inbuf).verdict;
    EventsSnoc(st.decoded, Decoding(call, v));
    assert Events(st.decoded) + [] == Events(st.decoded);
    assert Delivered(st.log) + [] == Delivered(st.log);
    if v.Ready? { WithoutSnoc(Events(st.decoded), v.event, lost); }
  }

  lemma {:induction false} FinishAccounts<S, E>(st: State<S, E>, o: Outcome<E>, lost: set<nat>)
    requires Accounted(st, Held(ThenReturn(o)), lost)
    ensures Accounted(Finish(st, o), [], lost)
  {
    hide Events, Delivered, Without;
    DeliveredSnoc(st.log, o);
    assert Delivered(st.log + [o]) + [] == Delivered(st.log + [o]);
  }

  // An operation that ends without its event: the last one decoded.
  lemma {:induction false} CutAccounts<S, E>(st: State<S, E>, o: Outcome<E>, lost: set<nat>)
    requires Accounted(st, HeldBy(st), lost) && !o.Done?
    ensures HeldBy(st) == [] ==> Accounted(Finish(st, o), [], lost)
    ensures HeldBy(st) != [] ==>
      Events(st.decoded) != [] && Accounted(Finish(st, o), [], lost + {|Events(st.decoded)| - 1})
  {
    hide Events, Delivered, Without;
    DeliveredSnoc(st.log, o);
    var es := Events(st.decoded);
    assert Delivered(st.log) + [] == Delivered(st.log);
    if HeldBy(st) != [] {
      var n := |es| - 1;
      assert es == es[..n] + [es[n]];
      WithoutSnoc(es[..n], es[n], lost);
      WithoutSnoc(es[..n], es[n], lost + {n});
      WithoutBeyond(es[..n], lost, n);
      SameFront(Without(es[..n], lost), [es[n]], Delivered(st.log), HeldBy(st));
      assert Without(es[..n], lost) + [] == Without(es[..n], lost);
    }
  }

  lemma SameFront<T>(a: seq<T>, x: seq<T>, b: seq<T>, y: seq<T>)
    requires a + x == b + y && |x| == |y|
    ensures a == b && x == y
  {
    assert a == (a + x)[..|a|] && b == (b + y)[..|b|];
    assert x == (a + x)[|a|..] && y == (b + y)[|b|..];
  }

  lemma {:induction false} StepAccounts<S, E>(m: Machine<S, E>, st: State<S, E>, a: Action, lost: set<nat>)
    requires Accounted(st, HeldBy(st), lost)
    ensures var next := Next(m, st, a); Accounted(next, HeldBy(next), LostSo(st, a, lost))
    ensures CutsDelivery(st, a) ==> LostSo(st, a, lost) == lost + {|Events(st.decoded)| - 1}
    ensures CutsDelivery(st, a) ==> |Events(st.decoded)| - 1 !in lost
  {
    hide DrainHead, Resume, Events, Delivered, Without;
    if Enabled(st, a) {
      match a
      case Begin(OpSend(req)) => DrainAccounts(m, st, false, ThenSend(req), lost);
      case Begin(OpRecv) => DrainAccounts(m, st, false, ThenStep(Recv), lost);
      case Wrote(n) =>
        if n == 0 { CutAccounts(st, Error(Io), lost); } else { DrainAccounts(m, Accept(st, n), true, st.pc.k, lost); }
      case FlushDone => ResumeAccounts(m, st.(flushed := |st.wire|), st.pc.k, lost);
      case Got(chunk) => DrainAccounts(m, Submit(st, chunk), false, ThenStep(st.pc.call), lost);
      case WriteFails => CutAccounts(st, Error(Io), lost);
      case FlushFails => CutAccounts(st, Error(Io), lost);
      case SubmitFails(chunk) => CutAccounts(Read(st, chunk), Error(Oom), lost);
      case Closed => CutAccounts(st, Error(Eof), lost);
      case ReadFails => CutAccounts(st, Error(Io), lost);
      case Cancel => CutAccounts(st, Dropped, lost);
      case CoreSend(req) =>
    }
  }

  lemma {:induction false} RunAccounts<S, E>(m: Machine<S, E>, s0: S, acts: seq<Action>)
    ensures var st := Run(m, s0, acts); Accounted(st, HeldBy(st), Lost(m, s0, acts))
    ensures |Lost(m, s0, acts)| == CutDeliveries(m, s0, acts)
  {
    hide Next, Start, Events, Delivered, Without, Below, LostSo;
    if acts == [] {
      assert Run(m, s0, acts) == Start(m, s0);
      StartAccounts(m, s0);
    } else {
      var before, a := acts[..|acts| - 1], acts[|acts| - 1];
      RunAccounts(m, s0, before);
      StepAccounts(m, Run(m, s0, before), a, Lost(m, s0, before));
      LostUncut(Run(m, s0, before), a, Lost(m, s0, before));
    }
  }

  lemma LostUncut<S, E>(st: State<S, E>, a: Action, lost: set<nat>)
    ensures !CutsDelivery(st, a) ==> LostSo(st, a, lost) == lost
  {
  }

  lemma StartAccounts<S, E>(m: Machine<S, E>, s0: S)
    ensures Accounted(Start(m, s0), HeldBy(Start(m, s0)), {})
  {
    DrainAccounts(m, Initial(s0), false, ThenStep(Handshake), {});
  }

  // Without any assumption on the machine: in every run, what was delivered and
  // what is still held are the decoded events, in order, without exactly those
  // held by the last drains that were cut. So nothing is lost if and only if none
  // was cut.
  lemma {:induction false} LostEventsExactly<S, E>(m: Machine<S, E>, s0: S, acts: seq<Action>)
    ensures var st := Run(m, s0, acts);
      var lost := Lost(m, s0, acts);
      && Without(Events(st.decoded), lost) == Delivered(st.log) + HeldBy(st)
      && Below(lost, |Events(st.decoded)|) && |lost| == CutDeliveries(m, s0, acts)
      && |Events(st.decoded)| == |Delivered(st.log)| + |HeldBy(st)| + CutDeliveries(m, s0, acts)
      && (Events(st.decoded) == Delivered(st.log) + HeldBy(st) <==> CutDeliveries(m, s0, acts) == 0)
  {
    hide Run, Events, Delivered, Lost, CutDeliveries, HeldBy;
    var st := Run(m, s0, acts);
    RunAccounts(m, s0, acts);
    WithoutLength(Events(st.decoded), Lost(m, s0, acts));
    if Lost(m, s0, acts) == {} { WithoutNothing(Events(st.decoded)); }
  }

  // Each position in `Lost` is that of the event a drain held when it was cut.
  lemma {:induction false} LostIsHeld<S, E>(m: Machine<S, E>, s0: S, acts: seq<Action>, a: Action)
    requires CutsDelivery(Run(m, s0, acts), a)
    ensures var es := Events(Run(m, s0, acts).decoded);
      && es != [] && [es[|es| - 1]] == HeldBy(Run(m, s0, acts))
      && Lost(m, s0, acts + [a]) == Lost(m, s0, acts) + {|es| - 1}
  {
    hide Run, Events, Delivered, Without;
    var st, lost := Run(m, s0, acts), Lost(m, s0, acts);
    var es := Events(st.decoded);
    RunAccounts(m, s0, acts);
    assert (acts + [a])[..|acts|] == acts;
    var n := |es| - 1;
    assert es == es[..n] + [es[n]];
    WithoutSnoc(es[..n], es[n], lost);
    SameFront(Without(es[..n], lost), [es[n]], Delivered(st.log), HeldBy(st));
  }

  // That does happen, for every machine and from every idle state whose next
  // receive is decided by the bytes at hand and queues output: dropping the
  // receive loses its event.
  lemma {:induction false} DroppedDeliveryLosesEvent<S, E>(m: Machine<S, E>, s0: S, acts: seq<Action>)
    requires var st := Run(m, s0, acts);
      var r := m.step(Recv, st.core.s, st.core.inbuf);
      st.pc.Idle? && st.connected && st.core.out == [] && r.verdict.Ready? && r.queued != []
    ensures var st, cut := Run(m, s0, acts), Run(m, s0, acts + [Begin(OpRecv)] + [Cancel]);
      var e := m.step(Recv, st.core.s, st.core.inbuf).verdict.event;
      && cut.pc.Idle? && cut.connected
      && Delivered(cut.log) == Delivered(st.log) && Events(cut.decoded) == Events(st.decoded) + [e]
  {
    hide Run, Next, Events, Delivered;
    var st := Run(m, s0, acts);
    var r := m.step(Recv, st.core.s, st.core.inbuf);
    RunSnoc(m, s0, acts, Begin(OpRecv));
    RunSnoc(m, s0, acts + [Begin(OpRecv)], Cancel);
    ReceiveCut(m, st);
    EventsSnoc(st.decoded, Decoding(Recv, r.verdict));
    DeliveredSnoc(st.log, Dropped);
    assert Delivered(st.log) + [] == Delivered(st.log);
  }

  lemma {:induction false} ReceiveCut<S, E>(m: Machine<S, E>, st: State<S, E>)
    requires var r := m.step(Recv, st.core.s, st.core.inbuf);
      st.pc.Idle? && st.connected && st.core.out == [] && r.verdict.Ready? && r.queued != []
    ensures var cut := Next(m, Next(m, st, Begin(OpRecv)), Cancel);
      && cut.pc.Idle? && cut.connected && cut.log == st.log + [Dropped]
      && cut.decoded == st.decoded + [Decoding(Recv, m.step(Recv, st.core.s, st.core.inbuf).verdict)]
  {
    hide DrainHead, Resume;
    DecidedReceive(m, st);
  }

  lemma {:induction false} DecidedReceive<S, E>(m: Machine<S, E>, st: State<S, E>)
    requires var r := m.step(Recv, st.core.s, st.core.inbuf);
      st.pc.Idle? && st.core.out == [] && r.verdict.Ready? && r.queued != []
    ensures var k := ThenReturn(Done(m.step(Recv, st.core.s, st.core.inbuf).verdict.event));
      Next(m, st, Begin(OpRecv)) == Stepping(m, st, Recv).(pc := AwaitWrite(false, k))
  {
    var r := m.step(Recv, st.core.s, st.core.inbuf);
    var k := ThenReturn(Done(r.verdict.event));
    var next := Stepping(m, st, Recv);
    assert [] + r.queued == r.queued && next.core.out == r.queued;
    NothingToDrain(m, st, ThenStep(Recv));
    assert Resume(m, st, ThenStep(Recv)) == DrainHead(m, next, false, k);
  }

  // A connected client of the acknowledging machine with one byte submitted and
  // not yet decoded.
  lemma AcksBehind() returns (acts: seq<Action>)
    ensures var st := Run(Acks.ACKS, (), acts);
      st.pc.Idle? && st.connected && st.core == Core((), [1], [])
  {
    hide Run, Start;
    var m := Acks.ACKS;
    var st := AcksStart();
    acts := [Got([0, 1])];
    RunSnoc(m, (), [], Got([0, 1]));
    assert [] + acts == acts;
    st := AckTaken(st);
    RunSnoc(m, (), acts, Wrote(1));
    acts := acts + [Wrote(1)];
    st := Next(m, st, Wrote(1));
    RunSnoc(m, (), acts, FlushDone);
    acts := acts + [FlushDone];
  }

  lemma AcksStart() returns (st: State<(), Bytes>)
    ensures st == Run(Acks.ACKS, (), [])
    ensures st.pc == AwaitRead(Handshake) && st.core == Core((), [], [])
  {
    var m := Acks.ACKS;
    Acks.AckReplies(Handshake, []);
    st := Stepping(m, Initial(()), Handshake);
    assert st.core == Core((), [], []);
    NothingToDrain(m, Initial(()), ThenStep(Handshake));
    assert Resume(m, Initial(()), ThenStep(Handshake)) == DrainHead(m, st, false, ThenRead(Handshake));
    NothingToDrain(m, st, ThenRead(Handshake));
    st := st.(pc := AwaitRead(Handshake));
  }

  lemma AckTaken(st: State<(), Bytes>) returns (next: State<(), Bytes>)
    requires st.pc == AwaitRead(Handshake) && st.core == Core((), [], [])
    ensures next == Next(Acks.ACKS, st, Got([0, 1]))
    ensures next.pc == AwaitWrite(false, ThenReturn(Done([0]))) && next.core == Core((), [1], [0])
  {
    var m := Acks.ACKS;
    var read := Submit(st, [0, 1]);
    assert read.core.inbuf == [0, 1];
    Acks.AckReplies(Handshake, [0, 1]);
    next := Stepping(m, read, Handshake);
    assert Drop([0, 1], 1) == [1] && [] + [0] == [0];
    assert Resume(m, read, ThenStep(Handshake)) == DrainHead(m, next, false, ThenReturn(Done([0])));
    next := Next(m, st, Got([0, 1]));
  }

  // It loses an event although it meets the contract.
  lemma AcksLoseAnEvent() returns (acts: seq<Action>)
    ensures Lawful(Acks.ACKS)
    ensures var st := Run(Acks.ACKS, (), acts);
      st.pc.Idle? && st.connected && Events(st.decoded) != Delivered(st.log)
  {
    hide Run, Lawful;
    Acks.AcksLawful();
    var behind := AcksBehind();
    Acks.AckReplies(Recv, [1]);
    DroppedDeliveryLosesEvent(Acks.ACKS, (), behind);
    LostEventsExactly(Acks.ACKS, (), behind);
    acts := behind + [Begin(OpRecv)] + [Cancel];
  }

  /* Termination */

  predicate Settled<S, E>(st: State<S, E>) {
    st.pc.Idle? || st.pc.Gone?
  }

  // The transport answers the awaited call, and reads deliver at most `total`
  // bytes overall.
  predicate Answers<S, E>(st: State<S, E>, a: Action, total: nat) {
    && Enabled(st, a) && !a.Begin? && !a.CoreSend?
    && (a.Got? ==> |st.submitted| + |a.chunk| <= total)
  }

  function Level<E>(pc: Pc<E>): nat {
    match pc
    case AwaitWrite(_, k) => 2 * Rank(k) + 2
    case AwaitFlush(k) => 2 * Rank(k) + 1
    case AwaitRead(_) => 1
    case _ => 0
  }

  // Input still to come, then the stage of the operation, then queued output.
  predicate Descends<S, E>(before: State<S, E>, after: State<S, E>) {
    || |after.submitted| > |before.submitted|
    || (|after.submitted| == |before.submitted|
        && (Level(after.pc) < Level(before.pc)
            || (Level(after.pc) == Level(before.pc) && |after.core.out| < |before.core.out|)))
  }

  lemma {:induction false} DrainLevel<S, E>(m: Machine<S, E>, st: State<S, E>, wrote: bool, k: Cont<E>)
    ensures Level(DrainHead(m, st, wrote, k).pc) <= if st.core.out != [] then 2 * Rank(k) + 2 else 2 * Rank(k) + 1
    ensures st.core.out != [] ==> DrainHead(m, st, wrote, k).core == st.core
    ensures Level(Resume(m, st, k).pc) <= if k.ThenReturn? then 0 else 2 * Rank(k)
    ensures DrainHead(m, st, wrote, k).submitted == st.submitted == Resume(m, st, k).submitted
    decreases Rank(k), 1
  {
    ResumeLevel(m, st, k);
  }

  lemma {:induction false} ResumeLevel<S, E>(m: Machine<S, E>, st: State<S, E>, k: Cont<E>)
    ensures Level(Resume(m, st, k).pc) <= if k.ThenReturn? then 0 else 2 * Rank(k)
    ensures Resume(m, st, k).submitted == st.submitted
    decreases Rank(k), 0
  {
    match k
    case ThenSend(req) => DrainLevel(m, Sending(m, st, req), false, ThenReturn(Sent));
    case ThenStep(call) =>
      var next := Stepping(m, st, call);
      match m.step(call, st.core.s, st.core.inbuf).verdict {
        case Ready(event) => DrainLevel(m, next, false, ThenReturn(Done(event)));
        case NeedsInput => DrainLevel(m, next, false, ThenRead(call));
        case _ =>
      }
    case _ =>
  }

  // Every answer of the transport is progress.
  lemma {:induction false} EveryAnswerDescends<S, E>(m: Machine<S, E>, st: State<S, E>, a: Action, total: nat)
    requires Answers(st, a, total)
    ensures Descends(st, Next(m, st, a))
    ensures |st.submitted| <= total ==> |Next(m, st, a).submitted| <= total
  {
    hide DrainHead, Resume;
    match a
    case Wrote(n) => if n != 0 { DrainLevel(m, Accept(st, n), true, st.pc.k); }
    case FlushDone => ResumeLevel(m, st.(flushed := |st.wire|), st.pc.k);
    case Got(chunk) => DrainLevel(m, Submit(st, chunk), false, ThenStep(st.pc.call));
    case _ =>
  }

  function At<S, E>(m: Machine<S, E>, st: State<S, E>, schedule: nat -> Action, n: nat): State<S, E> {
    if n == 0 then st else Next(m, At(m, st, schedule, n - 1), schedule(n - 1))
  }

  lemma AtNext<S, E>(m: Machine<S, E>, st: State<S, E>, schedule: nat -> Action, n: nat)
    ensures At(m, st, schedule, n + 1) == Next(m, At(m, st, schedule, n), schedule(n))
  {
    hide Next;
  }

  // Against every schedule of answers over a finite input, an operation is over
  // after finitely many of them.
  lemma {:induction false} OperationsTerminate<S, E>(
      m: Machine<S, E>, st: State<S, E>, schedule: nat -> Action, from: nat, total: nat)
      returns (n: nat)
    requires forall i: nat :: !Settled(At(m, st, schedule, i)) ==> Answers(At(m, st, schedule, i), schedule(i), total)
    requires |At(m, st, schedule, from).submitted| <= total
    ensures n >= from && Settled(At(m, st, schedule, n))
    decreases
      total - |At(m, st, schedule, from).submitted|,
      Level(At(m, st, schedule, from).pc),
      |At(m, st, schedule, from).core.out|
  {
    hide At, Next, Settled, Level, Answers;
    if Settled(At(m, st, schedule, from)) {
      return from;
    }
    AtNext(m, st, schedule, from);
    EveryAnswerDescends(m, At(m, st, schedule, from), schedule(from), total);
    n := OperationsTerminate(m, st, schedule, from + 1, total);
  }
}
