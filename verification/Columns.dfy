// Column trees of src/builder.rs and the rows they stand for.
//
// Slabs are byte sequences and offsets are numbers; what a machine can hold is
// stated apart, in `OnMachine`. The C constructors copy their arguments into a
// node; a nullable node has the row count of its inner column and a tuple node
// that of its first child.
module Columns {
  import opened Outcomes

  // The width of `usize` and the byte order of keys.
  datatype Platform = Platform(usizeMax: nat, littleEndian: bool) {
    predicate Valid() { 0xFFFF <= usizeMax <= U64_MAX }

    function IsizeMax(): nat { usizeMax / 2 }
  }

  const U64_MAX: int := 0xFFFF_FFFF_FFFF_FFFF

  datatype Column =
    | Fixed(data: Bytes, elemSize: nat, nRows: nat)
    | Str(offsets: seq<nat>, data: Bytes, nRows: nat)
    | Nullable(nullMap: Bytes, inner: Column)
    | Array(offsets: seq<nat>, nRows: nat, values: Column)
    | LowCardinality(keySize: nat, keys: Bytes, nRows: nat, dict: Column)
    | Tuple(children: seq<Column>)

  function Rows(c: Column): nat {
    match c
    case Nullable(_, inner) => Rows(inner)
    case Tuple(children) => if children == [] then 0 else Rows(children[0])
    case _ => c.nRows
  }

  /* The conditions, over unbounded numbers */

  predicate Monotone(offsets: seq<nat>) {
    forall i, j :: 0 <= i <= j < |offsets| ==> offsets[i] <= offsets[j]
  }

  // Where the last row ends, and where row `i` starts.
  function Last(offsets: seq<nat>): nat {
    if offsets == [] then 0 else offsets[|offsets| - 1]
  }

  function StartOf(offsets: seq<nat>, i: nat): nat
    requires i < |offsets|
  {
    if i == 0 then 0 else offsets[i - 1]
  }

  function Unsigned(littleEndian: bool, b: Bytes): nat {
    if b == [] then 0
    else if littleEndian then b[0] + 256 * Unsigned(littleEndian, b[1..])
    else 256 * Unsigned(littleEndian, b[..|b| - 1]) + b[|b| - 1]
  }

  // Chunk `i` of a slab cut into pieces of `width` bytes.
  function Chunk(slab: Bytes, width: nat, i: nat): Bytes
    requires (i + 1) * width <= |slab|
  {
    assert i * width <= (i + 1) * width;
    slab[i * width..(i + 1) * width]
  }

  lemma ChunkFits(i: nat, n: nat, width: nat)
    requires i < n
    ensures (i + 1) * width <= n * width
  {
    assert (i + 1) * width + (n - i - 1) * width == n * width;
  }

  predicate WireWidth(keySize: int) {
    keySize == 1 || keySize == 2 || keySize == 4 || keySize == 8
  }

  function KeyAt(p: Platform, keys: Bytes, keySize: nat, nRows: nat, i: nat): nat
    requires |keys| == nRows * keySize && i < nRows
  {
    ChunkFits(i, nRows, keySize);
    Unsigned(p.littleEndian, Chunk(keys, keySize, i))
  }

  predicate KeysInside(p: Platform, keys: Bytes, keySize: nat, nRows: nat, dictRows: nat)
    requires |keys| == nRows * keySize
  {
    forall i :: 0 <= i < nRows ==> KeyAt(p, keys, keySize, nRows, i) < dictRows
  }

  // What each constructor asks of its own arguments.
  predicate Fits(p: Platform, c: Column) {
    match c
    case Fixed(data, elemSize, n) => elemSize > 0 && n * elemSize <= |data|
    case Str(offsets, data, n) => |offsets| == n && Monotone(offsets) && Last(offsets) <= |data|
    case Nullable(nullMap, inner) => |nullMap| == Rows(inner)
    case Array(offsets, n, values) => |offsets| == n && Monotone(offsets) && Last(offsets) == Rows(values)
    case LowCardinality(keySize, keys, n, dict) =>
      WireWidth(keySize) && |keys| == n * keySize && KeysInside(p, keys, keySize, n, Rows(dict))
    case Tuple(children) => children != [] && forall i :: 0 <= i < |children| ==> Rows(children[i]) == Rows(children[0])
  }

  // The whole tree meets them.
  predicate Sound(p: Platform, c: Column) {
    && Fits(p, c)
    && match c
       case Fixed(_, _, _) => true
       case Str(_, _, _) => true
       case Nullable(_, inner) => Sound(p, inner)
       case Array(_, _, values) => Sound(p, values)
       case LowCardinality(_, _, _, dict) => Sound(p, dict)
       case Tuple(children) => forall i :: 0 <= i < |children| ==> Sound(p, children[i])
  }

  // Every slab is a slice this machine can hold, every number a machine number.
  predicate OnMachine(p: Platform, c: Column) {
    match c
    case Fixed(data, elemSize, n) => |data| <= p.IsizeMax() && elemSize <= p.usizeMax && n <= p.usizeMax
    case Str(offsets, data, n) => Offsets(p, offsets) && |data| <= p.IsizeMax() && n <= p.usizeMax
    case Nullable(nullMap, inner) => |nullMap| <= p.IsizeMax() && OnMachine(p, inner)
    case Array(offsets, n, values) => Offsets(p, offsets) && n <= p.usizeMax && OnMachine(p, values)
    case LowCardinality(_, keys, n, dict) => |keys| <= p.IsizeMax() && n <= p.usizeMax && OnMachine(p, dict)
    case Tuple(children) => forall i :: 0 <= i < |children| ==> OnMachine(p, children[i])
  }

  predicate Offsets(p: Platform, offsets: seq<nat>) {
    8 * |offsets| <= p.IsizeMax() && forall i :: 0 <= i < |offsets| ==> offsets[i] <= U64_MAX
  }

  // No accepted tree has more rows than the largest slice has bytes.
  lemma {:induction false} RowsAreBounded(p: Platform, c: Column)
    requires Sound(p, c) && OnMachine(p, c)
    ensures Rows(c) <= p.IsizeMax()
  {
    match c
    case Fixed(data, elemSize, n) => AtLeastOnePerRow(n, elemSize);
    case Str(offsets, data, n) =>
    case Nullable(nullMap, inner) => RowsAreBounded(p, inner);
    case Array(offsets, n, values) =>
    case LowCardinality(keySize, keys, n, dict) => AtLeastOnePerRow(n, keySize);
    case Tuple(children) => RowsAreBounded(p, children[0]);
  }

  lemma AtLeastOnePerRow(n: nat, width: nat)
    requires width > 0
    ensures n <= n * width
  {
    assert n * width == n + n * (width - 1);
  }

  /* Rows */

  datatype Value =
    | Raw(bytes: Bytes)
    | Null
    | List(items: seq<Value>)
    | Fields(fields: seq<Value>)

  // The declared type of a column, as far as it decides what its rows are.
  datatype Shape =
    | FixedOf(width: nat)
    | StringOf
    | NullableOf(inner: Shape)
    | ArrayOf(inner: Shape)
    | TupleOf(fields: seq<Shape>)
    | LowCardinalityOf(keySize: nat, inner: Shape)

  // The dictionary of a nullable column of low cardinality holds no nulls: entry
  // zero stands for null.
  function EntryShape(inner: Shape): Shape {
    if inner.NullableOf? then inner.inner else inner
  }

  predicate Matches(s: Shape, c: Column)
    decreases s
  {
    match s
    case FixedOf(width) => c.Fixed? && c.elemSize == width
    case StringOf => c.Str?
    case NullableOf(inner) => c.Nullable? && Matches(inner, c.inner)
    case ArrayOf(inner) => c.Array? && Matches(inner, c.values)
    case TupleOf(fields) =>
      c.Tuple? && |fields| == |c.children| && forall k :: 0 <= k < |fields| ==> Matches(fields[k], c.children[k])
    case LowCardinalityOf(keySize, inner) =>
      c.LowCardinality? && c.keySize == keySize && Matches(EntryShape(inner), c.dict)
  }

  // Every tree matches some shape, so what is said of matching trees is said of
  // all of them.
  function ShapeOf(c: Column): (s: Shape)
    ensures Matches(s, c)
  {
    match c
    case Fixed(_, elemSize, _) => FixedOf(elemSize)
    case Str(_, _, _) => StringOf
    case Nullable(_, inner) => NullableOf(ShapeOf(inner))
    case Array(_, _, values) => ArrayOf(ShapeOf(values))
    case LowCardinality(keySize, _, _, dict) => LowCardinalityOf(keySize, NullableOf(ShapeOf(dict)))
    case Tuple(children) =>
      TupleOf(seq(|children|, k requires 0 <= k < |children| => ShapeOf(children[k])))
  }

  // The value of row `i`. That this is well defined is the point: at every
  // level, each row below the row count reads inside its slab and its children.
  function Row(p: Platform, s: Shape, c: Column, i: nat): Value
    requires Sound(p, c) && Matches(s, c) && i < Rows(c)
    decreases s
  {
    match s
    case FixedOf(width) =>
      ChunkFits(i, c.nRows, width);
      Raw(Chunk(c.data, width, i))
    case StringOf =>
      Raw(c.data[StartOf(c.offsets, i)..c.offsets[i]])
    case NullableOf(inner) =>
      if c.nullMap[i] == 1 then Null else Row(p, inner, c.inner, i)
    case ArrayOf(inner) =>
      var start := StartOf(c.offsets, i);
      List(seq(c.offsets[i] - start, k requires 0 <= k < c.offsets[i] - start => Row(p, inner, c.values, start + k)))
    case LowCardinalityOf(keySize, inner) =>
      var key := KeyAt(p, c.keys, keySize, c.nRows, i);
      if inner.NullableOf? && key == 0 then Null else Row(p, EntryShape(inner), c.dict, key)
    case TupleOf(fields) =>
      Fields(seq(|fields|, k requires 0 <= k < |fields| => Row(p, fields[k], c.children[k], i)))
  }

  function AllRows(p: Platform, s: Shape, c: Column): (rows: seq<Value>)
    requires Sound(p, c) && Matches(s, c)
    ensures |rows| == Rows(c)
  {
    seq(Rows(c), i requires 0 <= i < Rows(c) => Row(p, s, c, i))
  }

  function Items(p: Platform, s: Shape, c: Column, n: nat): seq<seq<Value>>
    requires s.ArrayOf? && Sound(p, c) && Matches(s, c) && n <= c.nRows
  {
    seq(n, i requires 0 <= i < n => Row(p, s, c, i).items)
  }

  // The rows of an array column, one after the other, are the rows of its
  // element column: no element is skipped, shared or out of order.
  lemma {:induction false} ArrayPartitionsElements(p: Platform, s: Shape, c: Column)
    requires s.ArrayOf? && Sound(p, c) && Matches(s, c)
    ensures Flatten(Items(p, s, c, c.nRows)) == AllRows(p, s.inner, c.values)
  {
    ArrayPrefix(p, s, c, c.nRows);
    assert AllRows(p, s.inner, c.values)[..Rows(c.values)] == AllRows(p, s.inner, c.values);
  }

  lemma {:induction false} ArrayPrefix(p: Platform, s: Shape, c: Column, n: nat)
    requires s.ArrayOf? && Sound(p, c) && Matches(s, c) && n <= c.nRows
    ensures (if n == 0 then 0 else c.offsets[n - 1]) <= Rows(c.values)
    ensures Flatten(Items(p, s, c, n)) == AllRows(p, s.inner, c.values)[..if n == 0 then 0 else c.offsets[n - 1]]
  {
    if n > 0 {
      ArrayPrefix(p, s, c, n - 1);
      hide Row, AllRows, Sound;
      var items := Items(p, s, c, n);
      assert items[..n - 1] == Items(p, s, c, n - 1);
      ArrayRow(p, s, c, n - 1);
      var all, start, end := AllRows(p, s.inner, c.values), StartOf(c.offsets, n - 1), c.offsets[n - 1];
      assert all[..start] + all[start..end] == all[..end];
    }
  }

  lemma {:induction false} ArrayRow(p: Platform, s: Shape, c: Column, i: nat)
    requires s.ArrayOf? && Sound(p, c) && Matches(s, c) && i < c.nRows
    ensures StartOf(c.offsets, i) <= c.offsets[i] <= Rows(c.values)
    ensures Row(p, s, c, i) == List(AllRows(p, s.inner, c.values)[StartOf(c.offsets, i)..c.offsets[i]])
  {
    hide Row, AllRows;
    var all, start, end := AllRows(p, s.inner, c.values), StartOf(c.offsets, i), c.offsets[i];
    ListRow(p, s, c, i);
    var items := Row(p, s, c, i).items;
    forall k | 0 <= k < end - start
      ensures items[k] == all[start..end][k]
    {
      RowAt(p, s.inner, c.values, start + k);
    }
    assert items == all[start..end];
  }

  lemma RowAt(p: Platform, s: Shape, c: Column, i: nat)
    requires Sound(p, c) && Matches(s, c) && i < Rows(c)
    ensures AllRows(p, s, c)[i] == Row(p, s, c, i)
  {
    hide Row;
  }

  lemma ListRow(p: Platform, s: Shape, c: Column, i: nat)
    requires s.ArrayOf? && Sound(p, c) && Matches(s, c) && i < c.nRows
    ensures StartOf(c.offsets, i) <= c.offsets[i] <= Rows(c.values)
    ensures var row := Row(p, s, c, i);
      && row.List? && |row.items| == c.offsets[i] - StartOf(c.offsets, i)
      && forall k :: 0 <= k < |row.items| ==> row.items[k] == Row(p, s.inner, c.values, StartOf(c.offsets, i) + k)
  {
  }
}
