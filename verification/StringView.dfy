// The string accessor of src/block.rs over a node published by the C library.
//
// The node carries `nRows` offsets and a data slab of `capacity` bytes, or null
// in place of either. Nothing else is known of its offsets.
module StringView {
  import opened Outcomes
  import opened Columns

  datatype Node = Node(nRows: nat, offsets: Option<seq<nat>>, data: Option<Bytes>, capacity: nat)

  predicate Published(p: Platform, node: Node) {
    && p.Valid() && node.capacity <= p.IsizeMax()
    && (node.offsets.Some? ==>
          |node.offsets.value| == node.nRows && forall o :: o in node.offsets.value ==> o <= U64_MAX)
    && (node.data.Some? ==> |node.data.value| == node.capacity)
  }

  // `as usize` keeps the low bits.
  function Truncate(p: Platform, offset: nat): nat {
    offset % (p.usizeMax + 1)
  }

  function DataLen(p: Platform, node: Node): nat
    requires node.offsets.Some?
  {
    var claimed := Truncate(p, Last(node.offsets.value));
    if claimed < node.capacity then claimed else node.capacity
  }

  function View(p: Platform, node: Node): Option<(seq<nat>, Bytes)>
    requires Published(p, node)
  {
    if node.offsets.None? then None
    else
      var len := DataLen(p, node);
      if len == 0 then Some((node.offsets.value, []))
      else if node.data.None? then None
      else Some((node.offsets.value, node.data.value[..len]))
  }

  // The check that debug builds make.
  predicate DebugCheck(p: Platform, node: Node)
    requires node.offsets.Some?
  {
    Monotone(node.offsets.value) && Truncate(p, Last(node.offsets.value)) <= node.capacity
  }

  // Row `i` as a reader of the view cuts it.
  predicate RowInside(offsets: seq<nat>, data: Bytes, i: nat)
    requires i < |offsets|
  {
    StartOf(offsets, i) <= offsets[i] <= |data|
  }

  // Whatever the offsets, the view never reaches past the slab: it is the prefix
  // of it that the low bits of the last offset claim, or all of it.
  lemma ViewStaysInside(p: Platform, node: Node)
    requires Published(p, node) && View(p, node).Some?
    ensures var (offsets, data) := View(p, node).value;
      && (data != [] ==> data <= node.data.value) && Some(offsets) == node.offsets
      && var claimed := (if offsets == [] then 0 else offsets[|offsets| - 1]) % (p.usizeMax + 1);
      |data| == if claimed < node.capacity then claimed else node.capacity
  {
  }

  // A view is missing exactly when the node has no offsets, or has no slab for
  // the bytes its offsets claim.
  lemma MissingExactly(p: Platform, node: Node)
    requires Published(p, node)
    ensures View(p, node).None? <==>
      node.offsets.None? || (node.data.None? && Truncate(p, Last(node.offsets.value)) > 0 && node.capacity > 0)
  {
  }

  // All rows lie inside the data exactly when the offsets do not decrease and
  // stay within the slab.
  lemma {:induction false} RowsInsideExactly(p: Platform, node: Node)
    requires Published(p, node) && View(p, node).Some?
    ensures var (offsets, data) := View(p, node).value;
      (forall i :: 0 <= i < |offsets| ==> RowInside(offsets, data, i))
      <==> Monotone(offsets) && Last(offsets) <= node.capacity
  {
    var (offsets, data) := View(p, node).value;
    if Monotone(offsets) && Last(offsets) <= node.capacity {
      FitsUntruncated(p, Last(offsets));
      assert |data| == Last(offsets);
    }
    if forall i :: 0 <= i < |offsets| ==> RowInside(offsets, data, i) {
      if offsets != [] { assert RowInside(offsets, data, |offsets| - 1); }
      StepsAreMonotone(offsets, data);
    }
  }

  lemma SmallMod(n: nat, m: nat)
    requires n < m
    ensures n % m == n
  {
  }

  lemma SelfMod(m: nat)
    requires m > 0
    ensures m % m == 0
  {
  }

  lemma FitsUntruncated(p: Platform, n: nat)
    ensures n <= p.usizeMax ==> Truncate(p, n) == n
  {
    if n <= p.usizeMax { SmallMod(n, p.usizeMax + 1); }
  }

  lemma {:induction false} StepsAreMonotone(offsets: seq<nat>, data: Bytes)
    requires forall i :: 0 <= i < |offsets| ==> RowInside(offsets, data, i)
    ensures Monotone(offsets)
  {
    if offsets != [] {
      var n := |offsets| - 1;
      var head := offsets[..n];
      forall i | 0 <= i < n
        ensures RowInside(head, data, i)
      {
        assert RowInside(offsets, data, i) && StartOf(head, i) == StartOf(offsets, i);
      }
      StepsAreMonotone(head, data);
      assert RowInside(offsets, data, n);
      forall i | 0 <= i < n
        ensures offsets[i] <= offsets[n]
      {
        assert head[i] <= head[n - 1];
      }
      forall i, j | 0 <= i <= j < |offsets|
        ensures offsets[i] <= offsets[j]
      {
        if j < n { assert head[i] <= head[j]; }
      }
    }
  }

  // The debug check is that condition except for non-decreasing offsets whose
  // last one does not fit `usize` and is truncated to one within the slab.
  lemma {:induction false} DebugCheckIsExact(p: Platform, node: Node)
    requires Published(p, node) && View(p, node).Some?
    ensures var (offsets, data) := View(p, node).value;
      var inside := forall i :: 0 <= i < |offsets| ==> RowInside(offsets, data, i);
      (DebugCheck(p, node) <==> inside)
      <==> !(Last(offsets) > p.usizeMax && Monotone(offsets) && Truncate(p, Last(offsets)) <= node.capacity)
  {
    FitsUntruncated(p, Last(node.offsets.value));
    RowsInsideExactly(p, node);
  }

  // Where `usize` is narrower than an offset, truncation comes before the check
  // and lets through a row that ends outside the data.
  lemma TruncationPassesTheCheck(p: Platform) returns (node: Node)
    requires p.Valid() && p.usizeMax < U64_MAX
    ensures Published(p, node) && node.offsets.Some? && DebugCheck(p, node) && View(p, node).Some?
    ensures var (offsets, data) := View(p, node).value; |offsets| == 1 && !RowInside(offsets, data, 0)
  {
    node := Node(1, Some([p.usizeMax + 1]), None, 0);
    SelfMod(p.usizeMax + 1);
  }

  function RowSlices(offsets: seq<nat>, data: Bytes, n: nat): seq<Bytes>
    requires n <= |offsets| && forall i :: 0 <= i < |offsets| ==> RowInside(offsets, data, i)
  {
    seq(n, i requires 0 <= i < n =>
      assert RowInside(offsets, data, i);
      data[StartOf(offsets, i)..offsets[i]])
  }

  // Then the rows, in order, make up the returned data and nothing else, and
  // they are the rows of the column tree with that slab.
  lemma {:induction false} RowsMakeUpTheData(p: Platform, node: Node)
    requires Published(p, node) && View(p, node).Some?
    requires Monotone(node.offsets.value) && Last(node.offsets.value) <= node.capacity
    ensures var (offsets, data) := View(p, node).value;
      && (forall i :: 0 <= i < |offsets| ==> RowInside(offsets, data, i))
      && Flatten(RowSlices(offsets, data, |offsets|)) == data
      && Sound(p, Str(offsets, data, node.nRows))
      && forall i :: 0 <= i < |offsets| ==>
           Row(p, StringOf, Str(offsets, data, node.nRows), i) == Raw(RowSlices(offsets, data, |offsets|)[i])
  {
    hide Monotone, RowInside, Row, RowSlices, Sound, Truncate;
    var (offsets, data) := View(p, node).value;
    FitsUntruncated(p, Last(offsets));
    RowsInsideExactly(p, node);
    SlicesMakePrefix(offsets, data, |offsets|);
    SlicesAreRows(p, offsets, data);
    assert |data| == Last(offsets) && data[..|data|] == data;
  }

  lemma SlicesAreRows(p: Platform, offsets: seq<nat>, data: Bytes)
    requires Monotone(offsets) && Last(offsets) <= |data|
    requires forall i :: 0 <= i < |offsets| ==> RowInside(offsets, data, i)
    ensures Sound(p, Str(offsets, data, |offsets|))
    ensures forall i :: 0 <= i < |offsets| ==>
      Row(p, StringOf, Str(offsets, data, |offsets|), i) == Raw(RowSlices(offsets, data, |offsets|)[i])
  {
  }

  lemma {:induction false} SlicesMakePrefix(offsets: seq<nat>, data: Bytes, n: nat)
    requires n <= |offsets| && forall i :: 0 <= i < |offsets| ==> RowInside(offsets, data, i)
    ensures (if n == 0 then 0 else offsets[n - 1]) <= |data|
    ensures Flatten(RowSlices(offsets, data, n)) == data[..if n == 0 then 0 else offsets[n - 1]]
  {
    if n > 0 {
      SlicesMakePrefix(offsets, data, n - 1);
      assert RowInside(offsets, data, n - 1);
      var slices := RowSlices(offsets, data, n);
      assert slices[..n - 1] == RowSlices(offsets, data, n - 1);
      var start, end := StartOf(offsets, n - 1), offsets[n - 1];
      assert data[..start] + data[start..end] == data[..end];
    }
  }
}
