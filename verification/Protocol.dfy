// The transport-independent protocol machine of src/ioless.rs.
//
// The C library behind it is not part of this model. What the Rust code relies
// on is written down as a contract (`Lawful`): a step looks only at the bytes
// submitted so far, reports `NeedsInput` when they do not decide the outcome,
// and resumes from where it stopped once more bytes arrive. `Frames` shows that
// the contract can be met by a decoder that keeps half-read frames.
module Protocol {
  import opened Outcomes

  datatype Call = Handshake | Recv

  datatype Request =
    | Query(sql: string, queryId: Option<string>)
    | Data(builder: Option<nat>)
    | DataEnd

  datatype Verdict<+E> = Ready(event: E) | NeedsInput | Failed(kind: ErrorKind)

  // One step: the new protocol state, how much input it used up, the bytes it
  // queued for sending and what it reported.
  datatype Reply<+S, +E> = Reply(state: S, used: nat, queued: Bytes, verdict: Verdict<E>)

  // A send only appends to the output queue; it may fail after doing so.
  datatype Encoded = Encoded(queued: Bytes, result: Result<()>)

  datatype Machine<!S, !E> = Machine(
    step: (Call, S, Bytes) -> Reply<S, E>,
    send: (S, Request) -> Encoded)

  // Two steps in a row seen as one.
  function After<S, E>(first: Reply<S, E>, second: Reply<S, E>): Reply<S, E> {
    Reply(second.state, first.used + second.used, first.queued + second.queued, second.verdict)
  }

  // One pair of inputs, `b` first and `x` later. A decided step stays decided,
  // with the same effect, whatever bytes follow. A step that needed input can be
  // repeated after submitting `x`, and the two together do what one step over
  // all the bytes would have done.
  ghost predicate Coherent<S, E>(m: Machine<S, E>, c: Call, s: S, b: Bytes, x: Bytes) {
    var r := m.step(c, s, b);
    m.step(c, s, b + x) ==
      if r.verdict.NeedsInput? then After(r, m.step(c, r.state, Drop(b, r.used) + x)) else r
  }

  ghost predicate UsesOnlyInput<S, E>(m: Machine<S, E>, c: Call, s: S, b: Bytes) {
    m.step(c, s, b).used <= |b|
  }

  ghost predicate Lawful<S(!new), E(!new)>(m: Machine<S, E>) {
    && (forall c, s, b :: UsesOnlyInput(m, c, s, b))
    && (forall c, s, b, x :: Coherent(m, c, s, b, x))
  }

  // Delivering an event queues no output of its own.
  ghost predicate QuietRecv<S(!new), E(!new)>(m: Machine<S, E>) {
    forall s, b :: m.step(Recv, s, b).verdict.Ready? ==> m.step(Recv, s, b).queued == []
  }

  // What a step leads to, leaving aside the output it queues.
  function View<S, E>(m: Machine<S, E>, c: Call, s: S, b: Bytes): (S, Bytes, Verdict<E>) {
    var r := m.step(c, s, b);
    (r.state, Drop(b, r.used), r.verdict)
  }

  // With `x` still to come, stepping on `b` first changes nothing in the end.
  lemma {:induction false} StepAhead<S(!new), E(!new)>(m: Machine<S, E>, c: Call, s: S, b: Bytes, x: Bytes)
    requires Lawful(m)
    ensures var r := m.step(c, s, b);
      if r.verdict.NeedsInput? then
        && View(m, c, s, b + x) == View(m, c, r.state, Drop(b, r.used) + x)
        && m.step(c, r.state, Drop(b, r.used)).verdict.NeedsInput?
      else View(m, c, s, b + x) == (r.state, Drop(b, r.used) + x, r.verdict)
  {
    var r := m.step(c, s, b);
    assert UsesOnlyInput(m, c, s, b) && UsesOnlyInput(m, c, s, b + x);
    assert Coherent(m, c, s, b, x) && Coherent(m, c, s, b, []);
    if r.verdict.NeedsInput? {
      assert b + [] == b && Drop(b, r.used) + [] == Drop(b, r.used);
      TwoSteps(m, c, s, b, x);
    } else {
      assert Drop(b + x, r.used) == Drop(b, r.used) + x;
    }
  }

  lemma {:induction false} TwoSteps<S, E>(m: Machine<S, E>, c: Call, s: S, b: Bytes, x: Bytes)
    requires var r := m.step(c, s, b);
      r.used <= |b| && m.step(c, s, b + x) == After(r, m.step(c, r.state, Drop(b, r.used) + x))
    requires m.step(c, s, b + x).used <= |b + x|
    ensures var r := m.step(c, s, b);
      View(m, c, s, b + x) == View(m, c, r.state, Drop(b, r.used) + x)
  {
    var r := m.step(c, s, b);
    var r2 := m.step(c, r.state, Drop(b, r.used) + x);
    assert Drop(b + x, r.used + r2.used) == Drop(Drop(b, r.used) + x, r2.used);
  }

  // Submitted but unused input, the protocol state and the output queue.
  datatype Core<+S> = Core(s: S, inbuf: Bytes, out: Bytes)
}

// A machine that meets the contract: frames of one length byte and a body,
// decoded incrementally, behind a one-byte Hello exchange.
module Frames {
  import opened Outcomes
  import opened Protocol

  datatype Phase =
    | Fresh
    | AwaitHello
    | Header
    | Body(missing: nat, have: Bytes)

  const HELLO: Bytes := [0, 1]
  const ADDENDUM: Bytes := [2]

  function Step(c: Call, s: Phase, b: Bytes): Reply<Phase, Bytes> {
    match (c, s)
    case (Handshake, Fresh) =>
      var g := Greeted(b);
      Reply(g.state, g.used, HELLO + g.queued, g.verdict)
    case (Handshake, AwaitHello) => Greeted(b)
    case (Recv, Header) =>
      if b == [] then Reply(Header, 0, [], NeedsInput)
      else
        var f := Filled(b[0], [], b[1..]);
        Reply(f.state, 1 + f.used, f.queued, f.verdict)
    case (Recv, Body(missing, have)) => Filled(missing, have, b)
    case _ => Reply(s, 0, [], Failed(Usage))
  }

  function Greeted(b: Bytes): Reply<Phase, Bytes> {
    if b == [] then Reply(AwaitHello, 0, [], NeedsInput)
    else if b[0] == 0 then Reply(Header, 1, ADDENDUM, Ready([]))
    else Reply(AwaitHello, 1, [], Failed(Server))
  }

  function Filled(missing: nat, have: Bytes, b: Bytes): Reply<Phase, Bytes> {
    if missing <= |b| then Reply(Header, missing, [], Ready(have + b[..missing]))
    else Reply(Body(missing - |b|, have + b), |b|, [], NeedsInput)
  }

  const FRAMES: Machine<Phase, Bytes> :=
    Machine(Step, (s: Phase, r: Request) => Encoded(if r.DataEnd? then [0] else [1, 0], Ok(())))

  lemma {:induction false} FilledResumes(missing: nat, have: Bytes, b: Bytes, x: Bytes)
    ensures missing <= |b| ==> Filled(missing, have, b + x) == Filled(missing, have, b)
    ensures missing > |b| ==>
      Filled(missing, have, b + x) == After(Filled(missing, have, b), Filled(missing - |b|, have + b, x))
  {
    if missing <= |b| {
      assert (b + x)[..missing] == b[..missing];
    } else if missing <= |b| + |x| {
      assert have + (b + x)[..missing] == have + b + x[..missing - |b|];
    } else {
      assert have + (b + x) == have + b + x;
    }
  }

  lemma {:induction false} BodyResumes(missing: nat, have: Bytes, b: Bytes, x: Bytes)
    ensures Coherent(FRAMES, Recv, Body(missing, have), b, x)
  {
    FilledResumes(missing, have, b, x);
    assert Drop(b, |b|) + x == x;
  }

  lemma {:induction false} HeaderResumes(b: Bytes, x: Bytes)
    ensures Coherent(FRAMES, Recv, Header, b, x)
  {
    if b == [] {
      assert b + x == x;
    } else {
      assert (b + x)[1..] == b[1..] + x;
      FilledResumes(b[0], [], b[1..], x);
      assert Drop(b, |b|) + x == x;
    }
  }

  lemma {:induction false} GreetedPrefix(b: Bytes, x: Bytes)
    ensures b != [] ==> Greeted(b + x) == Greeted(b)
    ensures b == [] ==> b + x == x && Drop(b, 0) + x == x
  {
    if b != [] {
      assert (b + x)[0] == b[0];
    } else {
      assert b + x == x && Drop(b, 0) + x == x;
    }
  }

  lemma {:induction false} GreetedResumes(b: Bytes, x: Bytes)
    ensures Coherent(FRAMES, Handshake, AwaitHello, b, x)
  {
    GreetedPrefix(b, x);
    assert [] + Greeted(x).queued == Greeted(x).queued;
  }

  lemma {:induction false} FreshResumes(b: Bytes, x: Bytes)
    ensures Coherent(FRAMES, Handshake, Fresh, b, x)
  {
    var hello := Reply(AwaitHello, 0, HELLO, NeedsInput);
    GreetedPrefix(b, x);
    if b == [] {
      assert HELLO + [] == HELLO;
      assert Step(Handshake, Fresh, b) == hello;
      assert Step(Handshake, Fresh, x) == After(hello, Step(Handshake, AwaitHello, x));
    } else {
      assert !Greeted(b).verdict.NeedsInput?;
      assert Step(Handshake, Fresh, b + x) == After(hello, Greeted(b + x));
    }
  }

  lemma {:induction false} StepResumes(c: Call, s: Phase, b: Bytes, x: Bytes)
    ensures Coherent(FRAMES, c, s, b, x)
  {
    match (c, s)
    case (Recv, Header) => HeaderResumes(b, x);
    case (Recv, Body(missing, have)) => BodyResumes(missing, have, b, x);
    case (Handshake, Fresh) => FreshResumes(b, x);
    case (Handshake, AwaitHello) => GreetedResumes(b, x);
    case _ =>
  }

  lemma HelloReply() returns (r: Reply<Phase, Bytes>)
    ensures r == FRAMES.step(Handshake, Fresh, [])
    ensures r.state == AwaitHello && r.used == 0 && |r.queued| == 2 && r.verdict.NeedsInput?
  {
    r := Step(Handshake, Fresh, []);
  }

  lemma AnswerReply() returns (r: Reply<Phase, Bytes>)
    ensures r == FRAMES.step(Handshake, AwaitHello, [0])
    ensures r.state == Header && r.used == 1 && |r.queued| == 1 && r.verdict.Ready?
  {
    r := Step(Handshake, AwaitHello, [0]);
  }

  lemma IdleReplies()
    ensures FRAMES.step(Recv, Header, []) == Reply(Header, 0, [], NeedsInput)
    ensures FRAMES.step(Recv, Header, [0]) == Reply(Header, 1, [], Ready([]))
    ensures FRAMES.send(Header, DataEnd) == Encoded([0], Ok(()))
  {
    var frame: Bytes := [0];
    assert frame[1..] == [] && [] + frame[1..][..0] == [];
    assert Filled(0, [], frame[1..]) == Reply(Header, 0, [], Ready([]));
  }

  lemma FramesLawful()
    ensures Lawful(FRAMES) && QuietRecv(FRAMES)
  {
    forall c, s, b: Bytes, x: Bytes
      ensures Coherent(FRAMES, c, s, b, x)
    {
      StepResumes(c, s, b, x);
    }
  }
}

// A machine that meets the contract and acknowledges every byte as it decodes it.
module Acks {
  import opened Outcomes
  import opened Protocol

  function Step(c: Call, s: (), b: Bytes): Reply<(), Bytes> {
    if b == [] then Reply((), 0, [], NeedsInput) else Reply((), 1, [0], Ready([b[0]]))
  }

  const ACKS: Machine<(), Bytes> := Machine(Step, (s: (), r: Request) => Encoded([], Ok(())))

  lemma AckReplies(c: Call, b: Bytes)
    ensures ACKS.step(c, (), b) == if b == [] then Reply((), 0, [], NeedsInput) else Reply((), 1, [0], Ready([b[0]]))
  {
  }

  lemma AcksLawful()
    ensures Lawful(ACKS)
  {
    forall c, s, b: Bytes, x: Bytes
      ensures Coherent(ACKS, c, s, b, x)
    {
      if b == [] {
        assert b + x == x && Drop(b, 0) + x == x;
        assert [] + Step(c, (), x).queued == Step(c, (), x).queued;
      } else {
        assert (b + x)[0] == b[0];
      }
    }
  }
}
