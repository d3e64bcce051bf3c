// Who frees what the C library hands over: packets, events and handshake
// exceptions of src/client.rs and src/ioless.rs.
//
// A block or exception is an object with an identity of its own; zero is null.
// Clearing a packet is the C library's: it frees whatever the packet still
// refers to. A packet that would block carries nothing.
module Ownership {
  import opened Outcomes

  datatype Kind =
    | Data | Totals | Extremes | Log | ProfileEvents
    | ExceptionPacket
    | Progress | ProfileInfo | Pong | EndOfStream | TableColumns | TimezoneUpdate
    | Unknown(code: int)

  predicate IsBlock(k: Kind) {
    k.Data? || k.Totals? || k.Extremes? || k.Log? || k.ProfileEvents?
  }

  predicate Owns(k: Kind) { IsBlock(k) || k.ExceptionPacket? }

  // An event and the object it owns, if its kind owns one.
  datatype Event = Event(kind: Kind, payload: nat)

  datatype Rc = Fine | Blocked | Failed(kind: ErrorKind)

  datatype Received = Ready(event: Event) | NeedsInput | Error(kind: ErrorKind)

  // Objects the C side has allocated and not freed, and every freeing so far.
  datatype Heap = Heap(live: set<nat>, freed: multiset<nat>)

  function Free(h: Heap, p: nat): Heap {
    Heap(h.live - {p}, h.freed + multiset{p})
  }

  function Clear(h: Heap, payload: nat): Heap {
    if payload == 0 then h else Free(h, payload)
  }

  // `Event::from_raw`: the event, and what is left in the packet.
  function FromRaw(kind: Kind, payload: nat): (Result<Event>, nat) {
    if kind.Unknown? then (Err(Protocol), payload)
    else if IsBlock(kind) then (if payload == 0 then Err(Protocol) else Ok(Event(kind, payload)), 0)
    else if kind.ExceptionPacket? then
      if payload == 0 then (Err(Protocol), 0) else (Ok(Event(kind, payload)), 0)
    else (Ok(Event(kind, 0)), payload)
  }

  // `recv_event`, blocking or not, after the C call has filled the packet.
  function Receive(h: Heap, ioless: bool, rc: Rc, kind: Kind, payload: nat): (Heap, Received) {
    if ioless && rc.Blocked? then (h, NeedsInput)
    else if !rc.Fine? then (Clear(h, payload), Error(if rc.Blocked? then WouldBlock else rc.kind))
    else
      var (event, left) := FromRaw(kind, payload);
      (Clear(h, left), if event.Ok? then Ready(event.value) else Error(event.kind))
  }

  /* Whole runs */

  datatype Step =
    | Recv(ioless: bool, rc: Rc, kind: Kind, payload: nat)
    | Handshake(exception: nat)
    | DropEvent(i: nat)
    | DropClient

  // The heap, everything ever handed over, the events the caller holds, and
  // whether the client still exists.
  datatype World = World(heap: Heap, handed: set<nat>, held: seq<Event>, open: bool)

  function Hand(w: World, payload: nat): World {
    if payload == 0 then w
    else w.(heap := w.heap.(live := w.heap.live + {payload}), handed := w.handed + {payload})
  }

  function Next(w: World, step: Step): World {
    match step
    case Recv(ioless, rc, kind, payload) =>
      if !w.open then w
      else
        var given := Hand(w, payload);
        var (heap, r) := Receive(given.heap, ioless, rc, kind, payload);
        given.(heap := heap, held := if r.Ready? then given.held + [r.event] else given.held)
    case Handshake(exception) =>
      // The exception becomes an error, which copies it and drops it.
      if !w.open then w else var given := Hand(w, exception); given.(heap := Clear(given.heap, exception))
    case DropEvent(i) =>
      if i >= |w.held| then w
      else w.(heap := Clear(w.heap, w.held[i].payload), held := w.held[..i] + w.held[i + 1..])
    case DropClient => w.(open := false)
  }

  // What the C side promises about what it hands over.
  predicate Promised(w: World, step: Step) {
    match step
    case Recv(_, rc, _, payload) => payload !in w.handed && (rc.Blocked? ==> payload == 0)
    case Handshake(exception) => exception !in w.handed
    case _ => true
  }

  function RunOf(steps: seq<Step>): World {
    if steps == [] then World(Heap({}, multiset{}), {}, [], true)
    else Next(RunOf(steps[..|steps| - 1]), steps[|steps| - 1])
  }

  predicate PromisedRun(steps: seq<Step>) {
    steps != [] ==>
      PromisedRun(steps[..|steps| - 1]) && Promised(RunOf(steps[..|steps| - 1]), steps[|steps| - 1])
  }

  function Owned(e: Event): multiset<nat> {
    if e.payload == 0 then multiset{} else multiset{e.payload}
  }

  function Payloads(held: seq<Event>): multiset<nat> {
    if held == [] then multiset{} else Payloads(held[..|held| - 1]) + Owned(held[|held| - 1])
  }

  // Every object handed over was freed once or is owned by one held event, and
  // never both.
  ghost predicate Balanced(w: World) {
    && 0 !in w.handed
    && (forall p :: p in w.heap.live <==> p in Payloads(w.held))
    && (forall p :: w.heap.freed[p] + Payloads(w.held)[p] == if p in w.handed then 1 else 0)
  }

  lemma PayloadsSnoc(held: seq<Event>, e: Event)
    ensures Payloads(held + [e]) == Payloads(held) + Owned(e)
  {
    assert (held + [e])[..|held|] == held;
  }

  lemma {:induction false} PayloadsAppend(a: seq<Event>, b: seq<Event>)
    ensures Payloads(a + b) == Payloads(a) + Payloads(b)
  {
    if b == [] {
      assert a + b == a;
    } else {
      var n := |b| - 1;
      assert a + b == (a + b[..n]) + [b[n]];
      PayloadsSnoc(a + b[..n], b[n]);
      PayloadsAppend(a, b[..n]);
    }
  }

  lemma PayloadsWithout(held: seq<Event>, i: nat)
    requires i < |held|
    ensures Payloads(held) == Payloads(held[..i] + held[i + 1..]) + Owned(held[i])
  {
    hide Payloads, Owned;
    var a, b := held[..i], held[i + 1..];
    assert held == (a + [held[i]]) + b;
    PayloadsSnoc(a, held[i]);
    PayloadsAppend(a + [held[i]], b);
    PayloadsAppend(a, b);
  }

  // A packet ends up as an event, or cleared, and its object with it.
  lemma {:induction false} ReceiveSettles(h: Heap, ioless: bool, rc: Rc, kind: Kind, payload: nat)
    requires rc.Blocked? ==> payload == 0
    ensures var (heap, r) := Receive(h, ioless, rc, kind, payload);
      if r.Ready? && r.event.payload != 0 then heap == h && r.event.payload == payload else heap == Clear(h, payload)
    ensures var (heap, r) := Receive(h, ioless, rc, kind, payload);
      r.Ready? ==> r.event.kind == kind && (Owns(kind) <==> r.event.payload != 0)
    ensures var r := Receive(h, ioless, rc, kind, payload).1;
      && (r.NeedsInput? <==> ioless && rc.Blocked?)
      && (r.Ready? <==> rc.Fine? && !kind.Unknown? && (Owns(kind) ==> payload != 0))
      && (rc.Failed? ==> r == Error(rc.kind)) && (rc.Fine? && !r.Ready? ==> r == Error(Protocol))
  {
  }

  // Kind by kind: the events that take the object `p` of their packet along.
  lemma ReceiveByKind(h: Heap, ioless: bool, p: nat)
    requires p != 0
    ensures Receive(h, ioless, Fine, Data, p) == (h, Ready(Event(Data, p)))
    ensures Receive(h, ioless, Fine, Totals, p) == (h, Ready(Event(Totals, p)))
    ensures Receive(h, ioless, Fine, Extremes, p) == (h, Ready(Event(Extremes, p)))
    ensures Receive(h, ioless, Fine, Log, p) == (h, Ready(Event(Log, p)))
    ensures Receive(h, ioless, Fine, ProfileEvents, p) == (h, Ready(Event(ProfileEvents, p)))
    ensures Receive(h, ioless, Fine, ExceptionPacket, p) == (h, Ready(Event(ExceptionPacket, p)))
  {
  }

  // With the other kinds the object is freed.
  lemma ReceiveFrees(h: Heap, ioless: bool, p: nat, code: int)
    requires p != 0
    ensures var freed := Heap(h.live - {p}, h.freed + multiset{p});
      && Receive(h, ioless, Fine, Progress, p) == (freed, Ready(Event(Progress, 0)))
      && Receive(h, ioless, Fine, ProfileInfo, p) == (freed, Ready(Event(ProfileInfo, 0)))
      && Receive(h, ioless, Fine, Pong, p) == (freed, Ready(Event(Pong, 0)))
      && Receive(h, ioless, Fine, EndOfStream, p) == (freed, Ready(Event(EndOfStream, 0)))
      && Receive(h, ioless, Fine, TableColumns, p) == (freed, Ready(Event(TableColumns, 0)))
      && Receive(h, ioless, Fine, TimezoneUpdate, p) == (freed, Ready(Event(TimezoneUpdate, 0)))
      && Receive(h, ioless, Fine, Unknown(code), p) == (freed, Error(Protocol))
  {
  }

  // A packet that carries nothing.
  lemma ReceiveNothing(h: Heap, ioless: bool, kind: Kind)
    ensures Receive(h, ioless, Fine, kind, 0) ==
      if kind in {Data, Totals, Extremes, Log, ProfileEvents, ExceptionPacket} || kind.Unknown?
      then (h, Error(Protocol)) else (h, Ready(Event(kind, 0)))
  {
  }

  // A call that does not succeed hands over nothing: what the packet holds is
  // freed, and only a transport-independent client waits for input.
  lemma ReceiveFails(h: Heap, ioless: bool, kind: Kind, p: nat, error: ErrorKind)
    requires p != 0
    ensures Receive(h, ioless, Failed(error), kind, p) == (Heap(h.live - {p}, h.freed + multiset{p}), Error(error))
    ensures Receive(h, ioless, Failed(error), kind, 0) == (h, Error(error))
    ensures Receive(h, true, Blocked, kind, 0) == (h, NeedsInput)
    ensures Receive(h, false, Blocked, kind, 0) == (h, Error(WouldBlock))
  {
  }

  // A new object: handed over, and then owned by an event or freed.
  lemma {:induction false} NewObjectBalanced(w: World, payload: nat, next: World)
    requires Balanced(w) && payload != 0 && payload !in w.handed && next.handed == w.handed + {payload}
    requires
      || (&& next.heap == Heap(w.heap.live + {payload}, w.heap.freed)
          && Payloads(next.held) == Payloads(w.held) + multiset{payload})
      || (next.heap == Heap(w.heap.live, w.heap.freed + multiset{payload}) && Payloads(next.held) == Payloads(w.held))
    ensures Balanced(next)
  {
  }

  lemma SameBalanced(w: World, next: World)
    requires Balanced(w) && next.heap == w.heap && next.handed == w.handed && Payloads(next.held) == Payloads(w.held)
    ensures Balanced(next)
  {
  }

  lemma {:induction false} DropBalanced(w: World, i: nat)
    requires Balanced(w) && i < |w.held|
    ensures Balanced(Next(w, DropEvent(i)))
  {
    PayloadsWithout(w.held, i);
    MovedBalanced(w, w.held[i].payload, Next(w, DropEvent(i)));
  }

  lemma MovedBalanced(w: World, p: nat, next: World)
    requires Balanced(w) && next.handed == w.handed && next.heap == Clear(w.heap, p)
    requires Payloads(w.held) == Payloads(next.held) + if p == 0 then multiset{} else multiset{p}
    ensures Balanced(next)
  {
    if p != 0 { assert w.heap.freed[p] + Payloads(w.held)[p] <= 1; }
  }

  // Either the new object is the last event's, or it is cleared at once.
  lemma {:induction false} SettledBalanced(w: World, payload: nat, kept: bool, next: World)
    requires Balanced(w) && payload !in w.handed && (kept ==> payload != 0)
    requires next.handed == Hand(w, payload).handed
    requires next.heap == if kept then Hand(w, payload).heap else Clear(Hand(w, payload).heap, payload)
    requires Payloads(next.held) == Payloads(w.held) + if kept then multiset{payload} else multiset{}
    ensures Balanced(next)
  {
    NotYetLive(w, payload);
    hide Balanced, Payloads;
    assert (w.heap.live + {payload}) - {payload} == w.heap.live;
    if payload != 0 { NewObjectBalanced(w, payload, next); } else { SameBalanced(w, next); }
  }

  lemma {:induction false} RecvBalanced(w: World, ioless: bool, rc: Rc, kind: Kind, payload: nat)
    requires Balanced(w) && w.open && Promised(w, Recv(ioless, rc, kind, payload))
    ensures Balanced(Next(w, Recv(ioless, rc, kind, payload)))
  {
    hide Receive, Balanced, Clear;
    var given := Hand(w, payload);
    ReceiveSettles(given.heap, ioless, rc, kind, payload);
    var r := Receive(given.heap, ioless, rc, kind, payload).1;
    if r.Ready? { PayloadsSnoc(w.held, r.event); }
    var kept := r.Ready? && r.event.payload != 0;
    SettledBalanced(w, payload, kept, Next(w, Recv(ioless, rc, kind, payload)));
  }

  lemma NotYetLive(w: World, payload: nat)
    requires Balanced(w) && payload !in w.handed
    ensures payload !in w.heap.live
  {
    assert w.heap.freed[payload] + Payloads(w.held)[payload] == 0;
  }

  lemma {:induction false} StepBalanced(w: World, step: Step)
    requires Balanced(w) && Promised(w, step)
    ensures Balanced(Next(w, step))
  {
    match step
    case Recv(ioless, rc, kind, payload) => if w.open { RecvBalanced(w, ioless, rc, kind, payload); }
    case Handshake(exception) =>
      if w.open && exception != 0 {
        NotYetLive(w, exception);
        assert (w.heap.live + {exception}) - {exception} == w.heap.live;
        NewObjectBalanced(w, exception, Next(w, step));
      }
    case DropEvent(i) => if i < |w.held| { DropBalanced(w, i); }
    case DropClient =>
  }

  // Over every run of receives, handshakes and drops, succeeding or failing,
  // each object handed over is freed at most once, and exactly once unless an
  // event still owns it; with no event left, nothing is live.
  lemma {:induction false} EverythingIsFreedOnce(steps: seq<Step>)
    requires PromisedRun(steps)
    ensures var w := RunOf(steps);
      && (forall p :: p in w.handed ==> w.heap.freed[p] == if p in Payloads(w.held) then 0 else 1)
      && (forall p :: p in w.heap.live <==> p in Payloads(w.held))
      && (forall p :: p in w.heap.freed ==> p in w.handed)
      && (w.held == [] ==> w.heap.live == {})
  {
    RunBalanced(steps);
  }

  lemma {:induction false} RunBalanced(steps: seq<Step>)
    requires PromisedRun(steps)
    ensures Balanced(RunOf(steps))
  {
    if steps != [] {
      RunBalanced(steps[..|steps| - 1]);
      StepBalanced(RunOf(steps[..|steps| - 1]), steps[|steps| - 1]);
    }
  }

  /* The same in its own form */

  class Packet {
    var kind: Kind
    var payload: nat

    constructor ()
      ensures payload == 0
    {
      kind, payload := Pong, 0;
    }
  }

  // The C library. Objects are numbered in the order they are handed over.
  // Freeing asks that the object be live, so freeing one twice does not verify.
  class CSide {
    ghost var heap: Heap
    var next: nat

    ghost predicate Valid()
      reads this
    {
      next > 0 && 0 !in heap.live && forall p :: p in heap.live || p in heap.freed ==> p < next
    }

    constructor ()
      ensures Valid() && heap == Heap({}, multiset{})
    {
      next := 1;
      heap := Heap({}, multiset{});
    }

    method FreeObject(p: nat)
      requires Valid() && p in heap.live
      modifies this`heap
      ensures Valid() && heap == Free(old(heap), p)
    {
      heap := Free(heap, p);
    }

    method PacketClear(raw: Packet)
      requires Valid() && (raw.payload != 0 ==> raw.payload in heap.live)
      modifies this`heap, raw`payload
      ensures Valid() && heap == Clear(old(heap), old(raw.payload)) && raw.payload == 0
    {
      if raw.payload != 0 {
        FreeObject(raw.payload);
        raw.payload := 0;
      }
    }

    method RecvPacket(raw: Packet, rc: Rc, kind: Kind, carries: bool) returns (payload: nat)
      requires Valid() && raw.payload == 0 && (rc.Blocked? ==> !carries)
      modifies this, raw
      ensures Valid() && raw.kind == kind && raw.payload == payload && (payload != 0 <==> carries)
      ensures payload != 0 ==> payload !in old(heap).live && payload !in old(heap).freed
      ensures heap == if carries then old(heap).(live := old(heap).live + {payload}) else old(heap)
    {
      raw.kind := kind;
      payload := 0;
      if carries {
        payload := next;
        heap := heap.(live := heap.live + {payload});
        next := next + 1;
      }
      raw.payload := payload;
    }
  }

  // `take_block`: the pointer leaves the packet, null or not.
  method TakeBlock(raw: Packet) returns (block: Option<nat>)
    modifies raw`payload
    ensures raw.payload == 0
    ensures block == if old(raw.payload) == 0 then None else Some(old(raw.payload))
  {
    var p := raw.payload;
    raw.payload := 0;
    block := if p == 0 then None else Some(p);
  }

  // `take_exception`.
  method TakeException(raw: Packet) returns (exception: Option<nat>)
    modifies raw`payload
    ensures raw.payload == 0
    ensures exception == if old(raw.payload) == 0 then None else Some(old(raw.payload))
  {
    if raw.payload == 0 {
      return None;
    }
    exception := Some(raw.payload);
    raw.payload := 0;
  }

  // `take_handshake_exception`: the error keeps a copy, the exception is freed.
  method TakeHandshakeException(c: CSide, exception: nat) returns (rejected: bool)
    requires c.Valid() && (exception != 0 ==> exception in c.heap.live)
    modifies c`heap
    ensures c.Valid() && c.heap == Clear(old(c.heap), exception) && (rejected <==> exception != 0)
  {
    rejected := exception != 0;
    if rejected {
      c.FreeObject(exception);
    }
  }

  method EventFromRaw(raw: Packet) returns (event: Result<Event>)
    modifies raw`payload
    ensures (event, raw.payload) == FromRaw(raw.kind, old(raw.payload))
  {
    var p: Option<nat> := None;
    if raw.kind.Unknown? {
      return Err(Protocol);
    }
    if IsBlock(raw.kind) {
      p := TakeBlock(raw);
    } else if raw.kind.ExceptionPacket? {
      p := TakeException(raw);
    } else {
      return Ok(Event(raw.kind, 0));
    }
    event := if p.None? then Err(Protocol) else Ok(Event(raw.kind, p.value));
  }

  // `recv_event` of either client. `rc`, `kind` and `carries` are what the C
  // call reports.
  method RecvEvent(c: CSide, ioless: bool, rc: Rc, kind: Kind, carries: bool) returns (r: Received, ghost payload: nat)
    requires c.Valid() && (rc.Blocked? ==> !carries)
    modifies c
    ensures c.Valid() && (payload != 0 <==> carries)
    ensures payload != 0 ==> payload !in old(c.heap).live && payload !in old(c.heap).freed
    ensures var given := if carries then old(c.heap).(live := old(c.heap).live + {payload}) else old(c.heap);
      (c.heap, r) == Receive(given, ioless, rc, kind, payload)
  {
    var raw := new Packet();
    var p := c.RecvPacket(raw, rc, kind, carries);
    payload := p;
    if ioless && rc.Blocked? {
      return NeedsInput, payload;
    }
    if !rc.Fine? {
      c.PacketClear(raw);
      return Error(if rc.Blocked? then WouldBlock else rc.kind), payload;
    }
    var event := EventFromRaw(raw);
    c.PacketClear(raw);
    r := if event.Ok? then Ready(event.value) else Error(event.kind);
  }
}
