// The allocator bridge of src/alloc.rs: the C table over a Rust allocator that
// insists on seeing again the layout it handed out.
//
// Addresses are numbers, zero is null. What the system allocator answers is up
// to it: null at any time, or any address that no live block has, reused ones
// included.
module AllocBridge {
  import opened Outcomes

  datatype Layout = Layout(size: nat, align: nat)

  const ALIGN: nat := 16

  // `Layout::from_size_align` for a power-of-two alignment: the size rounded up
  // must not pass the largest signed machine number.
  function FromSizeAlign(isizeMax: nat, size: nat, align: nat): Option<Layout> {
    if align > 0 && size + (align - 1) <= isizeMax then Some(Layout(size, align)) else None
  }

  function AtLeastOne(bytes: nat): nat { if bytes == 0 then 1 else bytes }

  // `vtable::layout`.
  function LayoutOf(isizeMax: nat, bytes: nat): Option<Layout> {
    FromSizeAlign(isizeMax, AtLeastOne(bytes), ALIGN)
  }

  // Sixteen-byte alignment, one byte at least, and nothing beyond the largest
  // signed machine number once rounded up.
  lemma LayoutIs(isizeMax: nat, bytes: nat)
    ensures LayoutOf(isizeMax, 0) == if 16 <= isizeMax then Some(Layout(1, 16)) else None
    ensures bytes > 0 ==>
      LayoutOf(isizeMax, bytes) == if bytes + 15 <= isizeMax then Some(Layout(bytes, 16)) else None
  {
  }

  /* The checking allocator */

  // `stopped` when a resized block has a size no layout describes: the allocator
  // panics there, and the C caller it would unwind into ends the process.
  datatype Heap = Heap(live: map<nat, Layout>, invalid: bool, stopped: bool) {
    predicate IsClean() { !invalid && live == map[] }
  }

  const EMPTY := Heap(map[], false, false)

  // `take`: the block leaves the live map; a wrong or unknown one is remembered.
  function Take(h: Heap, p: nat, layout: Layout): Heap {
    h.(live := h.live - {p}, invalid := h.invalid || p !in h.live || h.live[p] != layout)
  }

  function Allocated(h: Heap, layout: Layout, answer: nat): Heap {
    if answer == 0 then h else h.(live := h.live[answer := layout])
  }

  function Deallocated(h: Heap, p: nat, layout: Layout): Heap {
    Take(h, p, layout)
  }

  function Reallocated(isizeMax: nat, h: Heap, p: nat, layout: Layout, newSize: nat, answer: nat): Heap {
    var taken := Take(h, p, layout);
    if p !in h.live then taken
    else if answer == 0 then taken.(live := taken.live[p := h.live[p]])
    else
      match FromSizeAlign(isizeMax, newSize, h.live[p].align)
      case None => taken.(stopped := true)
      case Some(resized) => taken.(live := taken.live[answer := resized])
  }

  // The address of the resized block.
  function Moved(isizeMax: nat, h: Heap, p: nat, newSize: nat, answer: nat): nat {
    if p !in h.live || FromSizeAlign(isizeMax, newSize, h.live[p].align).None? then 0 else answer
  }

  /* The C table over it */

  datatype Call =
    | Alloc(bytes: nat)
    | Realloc(p: nat, oldBytes: nat, newBytes: nat)
    | Free(p: nat, bytes: nat)

  // The heap after a call that the system answers with `answer`; a stopped
  // process makes no calls.
  function After(isizeMax: nat, h: Heap, c: Call, answer: nat): Heap
    requires !h.stopped
    decreases c.Realloc?
  {
    match c
    case Alloc(bytes) =>
      (match LayoutOf(isizeMax, bytes)
       case None => h
       case Some(layout) => Allocated(h, layout, answer))
    case Realloc(p, oldBytes, newBytes) =>
      if p == 0 then After(isizeMax, h, Alloc(newBytes), answer)
      else
        (match LayoutOf(isizeMax, oldBytes)
         case None => h
         case Some(layout) =>
           if newBytes == 0 then Deallocated(h, p, layout) else Reallocated(isizeMax, h, p, layout, newBytes, answer))
    case Free(p, bytes) =>
      if p == 0 then h
      else
        match LayoutOf(isizeMax, bytes)
        case None => h
        case Some(layout) => Deallocated(h, p, layout)
  }

  // What the caller gets back.
  function Returned(isizeMax: nat, h: Heap, c: Call, answer: nat): nat
    decreases c.Realloc?
  {
    match c
    case Alloc(bytes) => if LayoutOf(isizeMax, bytes).None? then 0 else answer
    case Realloc(p, oldBytes, newBytes) =>
      if p == 0 then Returned(isizeMax, h, Alloc(newBytes), answer)
      else if LayoutOf(isizeMax, oldBytes).None? || newBytes == 0 then 0
      else Moved(isizeMax, h, p, newBytes, answer)
    case Free(_, _) => 0
  }

  // Whether a call gets as far as the system: a size that a layout has, for a
  // new block or for the old size of a block that is known and stays.
  predicate Asks(isizeMax: nat, h: Heap, c: Call) {
    match c
    case Alloc(bytes) => LayoutOf(isizeMax, bytes).Some?
    case Realloc(p, oldBytes, newBytes) =>
      if p == 0 then LayoutOf(isizeMax, newBytes).Some?
      else LayoutOf(isizeMax, oldBytes).Some? && newBytes > 0 && p in h.live
    case Free(_, _) => false
  }

  // The system never hands out an address that is in use; a block being resized
  // may stay where it is.
  predicate Plausible(h: Heap, c: Call, answer: nat) {
    answer == 0 || answer !in h.live || (c.Realloc? && answer == c.p)
  }

  class CheckedAlloc {
    const isizeMax: nat
    // What the system allocator has answered so far.
    ghost var answers: seq<nat>
    var live: map<nat, Layout>
    var invalid: bool
    var stopped: bool

    function State(): Heap
      reads this
    {
      Heap(live, invalid, stopped)
    }

    constructor (isizeMax: nat)
      ensures this.isizeMax == isizeMax && State() == EMPTY && answers == []
    {
      this.isizeMax, live, invalid, stopped, answers := isizeMax, map[], false, false, [];
    }

    method TakeBlock(p: nat, layout: Layout) returns (actual: Option<Layout>)
      modifies this`live, this`invalid
      ensures State() == Take(old(State()), p, layout)
      ensures actual == if p in old(live) then Some(old(live)[p]) else None
    {
      actual := if p in live then Some(live[p]) else None;
      live := live - {p};
      match actual {
        case None => invalid := true;
        case Some(l) => if l != layout { invalid := true; }
      }
    }

    method Alloc(layout: Layout) returns (p: nat)
      modifies this
      ensures State() == Allocated(old(State()), layout, p)
      ensures p == 0 || p !in old(live)
      ensures answers == old(answers) + [p]
    {
      p := SystemAddress(0);
      if p != 0 {
        live := live[p := layout];
      }
    }

    // Null, an address no live block has, or `keep`.
    method SystemAddress(keep: nat) returns (p: nat)
      modifies this`answers
      ensures (p == 0 || p !in live || p == keep) && answers == old(answers) + [p]
    {
      p :| p == 0 || p !in live || p == keep;
      answers := answers + [p];
    }

    method Dealloc(p: nat, layout: Layout)
      modifies this`live, this`invalid
      ensures State() == Deallocated(old(State()), p, layout)
    {
      var actual := TakeBlock(p, layout);
    }

    // `answer` is what the system allocator returns.
    method Realloc(p: nat, layout: Layout, newSize: nat) returns (q: nat, ghost answer: nat)
      modifies this
      ensures answer == 0 || answer !in old(live) || answer == p
      ensures State() == Reallocated(isizeMax, old(State()), p, layout, newSize, answer)
      ensures q == Moved(isizeMax, old(State()), p, newSize, answer)
      ensures answers == if p in old(live) then old(answers) + [answer] else old(answers)
    {
      var actual := TakeBlock(p, layout);
      if actual.None? {
        return 0, 0;
      }
      q := SystemAddress(p);
      answer := q;
      if q == 0 {
        live := live[p := actual.value];
      } else {
        match FromSizeAlign(isizeMax, newSize, actual.value.align) {
          case None => q, stopped := 0, true;
          case Some(resized) => live := live[q := resized];
        }
      }
    }
  }

  // The three functions of the C table, with the ledger of a caller who keeps
  // track of what it was given and of the sizes it asked for. They can be called
  // in any way; `Valid` survives the calls of an honest caller that does not
  // resize too far.
  class Bridge {
    const a: CheckedAlloc
    ghost var ledger: map<nat, nat>

    ghost predicate Valid()
      reads this, a
    {
      Simulates(a.isizeMax, a.State(), ledger)
    }

    constructor (a: CheckedAlloc)
      requires a.State() == EMPTY
      ensures this.a == a && ledger == map[] && Valid()
    {
      this.a, ledger := a, map[];
    }

    method Alloc(bytes: nat) returns (p: nat)
      requires !a.stopped
      modifies this, a
      ensures Performed(old(a.State()), old(ledger), Call.Alloc(bytes), p, p)
      // The system is asked exactly when a layout has the size, and its answer is
      // handed on.
      ensures if LayoutOf(a.isizeMax, bytes).None? then p == 0 && a.answers == old(a.answers)
              else a.answers == old(a.answers) + [p]
      ensures old(Valid()) ==> Valid()
    {
      var layout := LayoutOf(a.isizeMax, bytes);
      p := 0;
      if layout.Some? {
        p := a.Alloc(layout.value);
      }
      Enter(old(a.State()), Call.Alloc(bytes), p, p);
    }

    method Realloc(p: nat, oldBytes: nat, newBytes: nat) returns (q: nat, ghost answer: nat)
      requires !a.stopped
      modifies this, a
      ensures Performed(old(a.State()), old(ledger), Call.Realloc(p, oldBytes, newBytes), answer, q)
      ensures a.answers == old(a.answers) +
        if Asks(a.isizeMax, old(a.State()), Call.Realloc(p, oldBytes, newBytes)) then [answer] else []
      ensures old(Valid()) && Honest(old(ledger), Call.Realloc(p, oldBytes, newBytes)) ==>
        if TooFar(a.isizeMax, Call.Realloc(p, oldBytes, newBytes), answer) then a.stopped else Valid()
    {
      if p == 0 {
        q := Alloc(newBytes);
        answer := q;
        return;
      }
      var layout := LayoutOf(a.isizeMax, oldBytes);
      q, answer := 0, 0;
      if layout.Some? {
        if newBytes == 0 {
          a.Dealloc(p, layout.value);
        } else {
          q, answer := a.Realloc(p, layout.value, newBytes);
        }
      }
      Enter(old(a.State()), Call.Realloc(p, oldBytes, newBytes), answer, q);
    }

    method Free(p: nat, bytes: nat)
      requires !a.stopped
      modifies this, a
      ensures Performed(old(a.State()), old(ledger), Call.Free(p, bytes), 0, 0) && a.answers == old(a.answers)
      ensures old(Valid()) && Honest(old(ledger), Call.Free(p, bytes)) ==> Valid()
    {
      if p != 0 {
        var layout := LayoutOf(a.isizeMax, bytes);
        if layout.Some? {
          a.Dealloc(p, layout.value);
        }
      }
      Enter(old(a.State()), Call.Free(p, bytes), 0, 0);
    }

    // A call answered with `answer` has happened to heap and ledger, and it
    // returned `got`.
    ghost predicate Performed(h: Heap, before: map<nat, nat>, c: Call, answer: nat, got: nat)
      requires !h.stopped
      reads this, a
    {
      && Plausible(h, c, answer)
      && a.State() == After(a.isizeMax, h, c, answer)
      && got == Returned(a.isizeMax, h, c, answer)
      && ledger == Entered(before, c, got)
    }

    ghost method Enter(h: Heap, c: Call, answer: nat, got: nat)
      requires !h.stopped && Plausible(h, c, answer)
      requires a.State() == After(a.isizeMax, h, c, answer) && got == Returned(a.isizeMax, h, c, answer)
      modifies this`ledger
      ensures Performed(h, old(ledger), c, answer, got)
      ensures Simulates(a.isizeMax, h, old(ledger)) && Honest(old(ledger), c) ==>
        if TooFar(a.isizeMax, c, answer) then a.stopped else Valid()
    {
      if Simulates(a.isizeMax, h, ledger) && Honest(ledger, c) {
        StepSimulates(a.isizeMax, h, ledger, c, answer);
      }
      ledger := Entered(ledger, c, got);
    }
  }

  /* The caller's side */

  // The caller's ledger after a call that returned `got`.
  function Entered(ledger: map<nat, nat>, c: Call, got: nat): map<nat, nat> {
    match c
    case Alloc(bytes) => if got == 0 then ledger else ledger[got := bytes]
    case Realloc(p, _, newBytes) =>
      if p == 0 then (if got == 0 then ledger else ledger[got := newBytes])
      else if newBytes == 0 then ledger - {p}
      else if got == 0 then ledger
      else (ledger - {p})[got := newBytes]
    case Free(p, _) => if p == 0 then ledger else ledger - {p}
  }

  // A caller passes back the size it asked for with a block it holds.
  predicate Honest(ledger: map<nat, nat>, c: Call) {
    match c
    case Alloc(_) => true
    case Realloc(p, oldBytes, _) => p != 0 ==> p in ledger && ledger[p] == oldBytes
    case Free(p, bytes) => p != 0 ==> p in ledger && ledger[p] == bytes
  }

  // The live map is the ledger with every size raised to at least one.
  ghost predicate Simulates(isizeMax: nat, h: Heap, ledger: map<nat, nat>) {
    && !h.invalid && !h.stopped && 0 !in ledger && h.live.Keys == ledger.Keys
    && forall p :: p in ledger ==>
         && h.live[p] == Layout(if ledger[p] > 1 then ledger[p] else 1, ALIGN)
         && LayoutOf(isizeMax, ledger[p]) == Some(h.live[p])
  }

  // A block is resized, and the system has room, beyond what a layout describes.
  // The bridge passes such sizes on.
  predicate TooFar(isizeMax: nat, c: Call, answer: nat) {
    c.Realloc? && c.p != 0 && answer != 0 && c.newBytes > isizeMax - (ALIGN - 1)
  }

  lemma {:induction false} StepSimulates(isizeMax: nat, h: Heap, ledger: map<nat, nat>, c: Call, answer: nat)
    requires Simulates(isizeMax, h, ledger) && Honest(ledger, c) && Plausible(h, c, answer)
    ensures var next := After(isizeMax, h, c, answer);
      if TooFar(isizeMax, c, answer) then next.stopped
      else Simulates(isizeMax, next, Entered(ledger, c, Returned(isizeMax, h, c, answer)))
  {
    match c
    case Alloc(_) =>
    case Realloc(p, oldBytes, newBytes) =>
      if p != 0 { assert Some(h.live[p]) == LayoutOf(isizeMax, oldBytes); }
    case Free(p, bytes) =>
      if p != 0 { assert Some(h.live[p]) == LayoutOf(isizeMax, bytes); }
  }

  // Resizing a held block to any other size than zero: the allocator is given
  // the block with its own layout and the new size as it is. Allocator and caller
  // stay in step if and only if the system has no room or the new size, rounded
  // up to the alignment, is a signed machine number.
  lemma {:induction false} ResizeBound(
      isizeMax: nat, h: Heap, ledger: map<nat, nat>, p: nat, newBytes: nat, answer: nat)
    requires Simulates(isizeMax, h, ledger) && p in ledger && newBytes > 0
    requires answer == 0 || answer !in h.live || answer == p
    ensures var c := Call.Realloc(p, ledger[p], newBytes);
      var next := After(isizeMax, h, c, answer);
      && next == Reallocated(isizeMax, h, p, h.live[p], newBytes, answer)
      && (Simulates(isizeMax, next, Entered(ledger, c, Returned(isizeMax, h, c, answer)))
          <==> answer == 0 || newBytes + (ALIGN - 1) <= isizeMax)
  {
    assert LayoutOf(isizeMax, ledger[p]) == Some(h.live[p]);
    StepSimulates(isizeMax, h, ledger, Call.Realloc(p, ledger[p], newBytes), answer);
  }

  /* Whole runs */

  datatype Step = Step(call: Call, answer: nat)

  function HeapAfter(isizeMax: nat, steps: seq<Step>): Heap {
    if steps == [] then EMPTY
    else
      var before, last := HeapAfter(isizeMax, steps[..|steps| - 1]), steps[|steps| - 1];
      if before.stopped then before else After(isizeMax, before, last.call, last.answer)
  }

  function LedgerAfter(isizeMax: nat, steps: seq<Step>): map<nat, nat> {
    if steps == [] then map[]
    else
      var before, last := HeapAfter(isizeMax, steps[..|steps| - 1]), steps[|steps| - 1];
      var ledger := LedgerAfter(isizeMax, steps[..|steps| - 1]);
      if before.stopped then ledger
      else Entered(ledger, last.call, Returned(isizeMax, before, last.call, last.answer))
  }

  predicate HonestRun(isizeMax: nat, steps: seq<Step>) {
    steps != [] ==>
      var last, before := steps[|steps| - 1], steps[..|steps| - 1];
      && HonestRun(isizeMax, before)
      && Honest(LedgerAfter(isizeMax, before), last.call)
      && Plausible(HeapAfter(isizeMax, before), last.call, last.answer)
  }

  // In every run of an honest caller, whatever fails and whatever addresses are
  // reused: until a block is resized too far, the allocator's live blocks are the
  // caller's and no call ever presented a wrong layout; once the caller holds
  // nothing, all is clean. Nothing else stops the run.
  lemma {:induction false} RunsSimulate(isizeMax: nat, steps: seq<Step>)
    requires HonestRun(isizeMax, steps)
    ensures HeapAfter(isizeMax, steps).stopped <==> exists s :: s in steps && TooFar(isizeMax, s.call, s.answer)
    ensures !HeapAfter(isizeMax, steps).stopped ==>
      && Simulates(isizeMax, HeapAfter(isizeMax, steps), LedgerAfter(isizeMax, steps))
      && (LedgerAfter(isizeMax, steps) == map[] <==> HeapAfter(isizeMax, steps).IsClean())
  {
    if steps != [] {
      var before, last := steps[..|steps| - 1], steps[|steps| - 1];
      assert forall s :: s in steps <==> s in before || s == last by {
        assert steps == before + [last];
      }
      RunsSimulate(isizeMax, before);
      if !HeapAfter(isizeMax, before).stopped {
        StepSimulates(isizeMax, HeapAfter(isizeMax, before), LedgerAfter(isizeMax, before), last.call, last.answer);
      }
    }
    NoKeysNoEntries(HeapAfter(isizeMax, steps).live);
    NoKeysNoEntries(LedgerAfter(isizeMax, steps));
  }

  lemma NoKeysNoEntries<T>(m: map<nat, T>)
    ensures m.Keys == {} <==> m == map[]
  {
    if m.Keys == {} { assert forall k :: k !in m; }
  }

  // A block the allocator does not know is noticed, and not resized, whenever a
  // layout has the size it is presented with.
  lemma UnknownBlockIsNoticed(isizeMax: nat, h: Heap, p: nat, oldBytes: nat, newBytes: nat, answer: nat)
    requires p != 0 && p !in h.live && !h.stopped
    ensures var freed := After(isizeMax, h, Call.Free(p, oldBytes), 0);
      freed == if LayoutOf(isizeMax, oldBytes).Some? then h.(invalid := true) else h
    ensures var c := Call.Realloc(p, oldBytes, newBytes);
      && After(isizeMax, h, c, answer) == (if LayoutOf(isizeMax, oldBytes).Some? then h.(invalid := true) else h)
      && Returned(isizeMax, h, c, answer) == 0
  {
    assert h.live - {p} == h.live;
  }

  // For a caller that is wrong about a size: releasing a held block goes
  // unnoticed exactly when the two sizes agree once raised to one, and does
  // nothing at all when no layout has that size.
  lemma {:induction false} WrongSizeIsNoticed(isizeMax: nat, h: Heap, ledger: map<nat, nat>, p: nat, bytes: nat)
    requires Simulates(isizeMax, h, ledger) && p in ledger
    ensures var next := After(isizeMax, h, Free(p, bytes), 0);
      if LayoutOf(isizeMax, bytes).None? then next == h
      else p !in next.live && (next.invalid <==> bytes != ledger[p] && (bytes > 1 || ledger[p] > 1))
  {
    assert LayoutOf(isizeMax, ledger[p]) == Some(h.live[p]);
  }
}
