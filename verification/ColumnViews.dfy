// Reading a column tree through the accessors of src/block.rs, given its type.
//
// An accessor answers only for its own layout and computes slice lengths in
// machine arithmetic. The slab of a string node is as long as its capacity.
module ColumnViews {
  import opened Outcomes
  import opened Columns
  import opened ColumnEncoding
  import StringView

  function Product(p: Platform, a: nat, b: nat): Option<nat> {
    if a * b <= p.usizeMax then Some(a * b) else None
  }

  // `Column::fixed`: width and exactly the bytes of the rows.
  function FixedView(p: Platform, c: Column): Option<(nat, Bytes)> {
    if !c.Fixed? then None
    else
      match Product(p, c.nRows, c.elemSize)
      case None => None
      case Some(n) => if n <= |c.data| then Some((c.elemSize, c.data[..n])) else None
  }

  function StringParts(p: Platform, c: Column): Option<(seq<nat>, Bytes)>
    requires p.Valid() && OnMachine(p, c) && (c.Str? ==> |c.offsets| == c.nRows)
  {
    if !c.Str? then None
    else StringView.View(p, StringView.Node(c.nRows, Some(c.offsets), Some(c.data), |c.data|))
  }

  function NullMapView(c: Column): Option<Bytes> {
    if c.Nullable? && |c.nullMap| == Rows(c) then Some(c.nullMap) else None
  }

  function ArrayOffsetsView(c: Column): Option<seq<nat>> {
    if c.Array? && |c.offsets| == Rows(c) then Some(c.offsets) else None
  }

  // `Column::low_cardinality`: width, exactly the keys of the rows, dictionary.
  function LowCardinalityView(p: Platform, c: Column): Option<(nat, Bytes, Column)> {
    if !c.LowCardinality? || c.keySize == 0 then None
    else
      match Product(p, c.nRows, c.keySize)
      case None => None
      case Some(n) => if n <= |c.keys| then Some((c.keySize, c.keys[..n], c.dict)) else None
  }

  // Of an accepted tree each accessor answers for its own layout, and with
  // exactly the bytes, offsets or keys of the rows.
  lemma {:induction false} ViewsExactly(p: Platform, c: Column)
    requires p.Valid() && Sound(p, c) && OnMachine(p, c)
    ensures FixedView(p, c) == if c.Fixed? then Some((c.elemSize, c.data[..c.nRows * c.elemSize])) else None
    ensures StringParts(p, c) ==
      if c.Str? then Some((c.offsets, c.data[..if c.offsets == [] then 0 else c.offsets[|c.offsets| - 1]])) else None
    ensures NullMapView(c) == if c.Nullable? then Some(c.nullMap) else None
    ensures ArrayOffsetsView(c) == if c.Array? then Some(c.offsets) else None
    ensures LowCardinalityView(p, c) == if c.LowCardinality? then Some((c.keySize, c.keys, c.dict)) else None
  {
    match c
    case Str(offsets, data, n) =>
      StringView.FitsUntruncated(p, Last(offsets));
      assert data[..0] == [];
    case LowCardinality(keySize, keys, n, _) => assert keys[..n * keySize] == keys;
    case _ =>
  }

  /* A reader */

  // Row `i` as a reader gets it that has the declared type and the accessors.
  function ReadRow(p: Platform, s: Shape, c: Column, i: nat): Option<Value>
    requires p.Valid() && Sound(p, c) && OnMachine(p, c) && Matches(s, c) && i < Rows(c)
    decreases s, 2
  {
    match s
    case FixedOf(_) =>
      (match FixedView(p, c)
       case Some((width, bytes)) => if (i + 1) * width <= |bytes| then Some(Raw(Chunk(bytes, width, i))) else None
       case None => None)
    case StringOf =>
      (match StringParts(p, c)
       case Some((offsets, data)) =>
         if StringView.RowInside(offsets, data, i) then Some(Raw(data[StartOf(offsets, i)..offsets[i]])) else None
       case None => None)
    case NullableOf(inner) =>
      (match NullMapView(c)
       case Some(nulls) => if nulls[i] == 1 then Some(Null) else ReadRow(p, inner, c.inner, i)
       case None => None)
    case ArrayOf(inner) =>
      (match ArrayOffsetsView(c)
       case Some(offsets) => ReadList(p, inner, c.values, StartOf(offsets, i), offsets[i])
       case None => None)
    case LowCardinalityOf(_, inner) =>
      (match LowCardinalityView(p, c)
       case Some((width, keys, dict)) =>
         if (i + 1) * width > |keys| then None
         else
           var key := Unsigned(p.littleEndian, Chunk(keys, width, i));
           if inner.NullableOf? && key == 0 then Some(Null)
           else if key < Rows(c.dict) then ReadRow(p, EntryShape(inner), c.dict, key)
           else None
       case None => None)
    case TupleOf(fields) => ReadFields(p, s, c, |fields|, i)
  }

  // Elements `from` to `to` of an element column.
  function ReadList(p: Platform, s: Shape, values: Column, from: nat, to: nat): Option<Value>
    requires p.Valid() && Sound(p, values) && OnMachine(p, values) && Matches(s, values)
    decreases s, 3, to
  {
    if from >= to then Some(List([]))
    else if to > Rows(values) then None
    else
      match (ReadList(p, s, values, from, to - 1), ReadRow(p, s, values, to - 1))
      case (Some(List(items)), Some(last)) => Some(List(items + [last]))
      case _ => None
  }

  function ReadFields(p: Platform, s: Shape, c: Column, n: nat, i: nat): Option<Value>
    requires p.Valid() && Sound(p, c) && OnMachine(p, c) && Matches(s, c)
    requires s.TupleOf? && n <= |s.fields| && i < Rows(c)
    decreases s, 1, n
  {
    if n == 0 then Some(Fields([]))
    else
      match (ReadFields(p, s, c, n - 1, i), ReadRow(p, s.fields[n - 1], c.children[n - 1], i))
      case (Some(Fields(fields)), Some(last)) => Some(Fields(fields + [last]))
      case _ => None
  }

  /* It gets the rows */

  lemma ChunkOfTake(slab: Bytes, width: nat, n: nat, i: nat)
    requires i < n && n * width <= |slab|
    ensures (i + 1) * width <= n * width
    ensures Chunk(slab[..n * width], width, i) == Chunk(slab, width, i)
  {
    ChunkFits(i, n, width);
    assert i * width <= (i + 1) * width <= n * width;
  }

  lemma {:induction false} FixedRead(p: Platform, s: Shape, c: Column, i: nat)
    requires p.Valid() && Sound(p, c) && OnMachine(p, c) && Matches(s, c) && s.FixedOf? && i < Rows(c)
    ensures ReadRow(p, s, c, i) == Some(Row(p, s, c, i))
  {
    ChunkOfTake(c.data, c.elemSize, c.nRows, i);
  }

  lemma {:induction false} StringRead(p: Platform, s: Shape, c: Column, i: nat)
    requires p.Valid() && Sound(p, c) && OnMachine(p, c) && Matches(s, c) && s.StringOf? && i < Rows(c)
    ensures ReadRow(p, s, c, i) == Some(Row(p, s, c, i))
  {
    var node := StringView.Node(c.nRows, Some(c.offsets), Some(c.data), |c.data|);
    StringView.RowsInsideExactly(p, node);
    StringView.ViewStaysInside(p, node);
    var (offsets, data) := StringView.View(p, node).value;
    assert StringView.RowInside(offsets, data, i);
    assert data[StartOf(offsets, i)..offsets[i]] == c.data[StartOf(offsets, i)..offsets[i]];
  }

  lemma {:induction false} KeysRead(p: Platform, s: Shape, c: Column, i: nat)
    requires p.Valid() && Sound(p, c) && OnMachine(p, c) && Matches(s, c) && s.LowCardinalityOf? && i < Rows(c)
    ensures var key := KeyAt(p, c.keys, c.keySize, c.nRows, i);
      && key < Rows(c.dict)
      && ReadRow(p, s, c, i) ==
           if s.inner.NullableOf? && key == 0 then Some(Null) else ReadRow(p, EntryShape(s.inner), c.dict, key)
  {
    ChunkOfTake(c.keys, c.keySize, c.nRows, i);
    assert c.keys[..c.nRows * c.keySize] == c.keys;
  }

  // At every nesting, the accessors give a reader exactly the rows of the tree.
  lemma {:induction false} ReadRowIsRow(p: Platform, s: Shape, c: Column, i: nat)
    requires p.Valid() && Sound(p, c) && OnMachine(p, c) && Matches(s, c) && i < Rows(c)
    ensures ReadRow(p, s, c, i) == Some(Row(p, s, c, i))
    decreases s, 2
  {
    match s
    case FixedOf(_) => FixedRead(p, s, c, i);
    case StringOf => StringRead(p, s, c, i);
    case NullableOf(inner) => if c.nullMap[i] != 1 { ReadRowIsRow(p, inner, c.inner, i); }
    case ArrayOf(inner) =>
      ArrayRow(p, s, c, i);
      ReadListIsSlice(p, inner, c.values, StartOf(c.offsets, i), c.offsets[i]);
    case LowCardinalityOf(keySize, inner) =>
      KeysRead(p, s, c, i);
      ReadRowIsRow(p, EntryShape(inner), c.dict, KeyAt(p, c.keys, keySize, c.nRows, i));
    case TupleOf(fields) =>
      ReadFieldsAre(p, s, c, |fields|, i);
      var row := Row(p, s, c, i).fields;
      assert row[..|fields|] == row;
  }

  lemma {:induction false} ReadListIsSlice(p: Platform, s: Shape, values: Column, from: nat, to: nat)
    requires p.Valid() && Sound(p, values) && OnMachine(p, values) && Matches(s, values) && from <= to <= Rows(values)
    ensures ReadList(p, s, values, from, to) == Some(List(AllRows(p, s, values)[from..to]))
    decreases s, 3, to
  {
    hide Row, AllRows, Sound, OnMachine, Matches, ReadRow;
    if from < to {
      ReadListIsSlice(p, s, values, from, to - 1);
      ReadRowIsRow(p, s, values, to - 1);
      var all := AllRows(p, s, values);
      RowAt(p, s, values, to - 1);
      assert all[from..to] == all[from..to - 1] + [all[to - 1]];
    }
  }

  lemma TupleRow(p: Platform, s: Shape, c: Column, i: nat)
    requires p.Valid() && Sound(p, c) && OnMachine(p, c) && Matches(s, c) && s.TupleOf? && i < Rows(c)
    ensures |s.fields| == |c.children|
    ensures forall k :: 0 <= k < |s.fields| ==>
      && Sound(p, c.children[k]) && OnMachine(p, c.children[k]) && Matches(s.fields[k], c.children[k])
      && Rows(c.children[k]) == Rows(c)
    ensures var row := Row(p, s, c, i);
      && row.Fields? && |row.fields| == |s.fields|
      && forall k :: 0 <= k < |s.fields| ==> row.fields[k] == Row(p, s.fields[k], c.children[k], i)
  {
  }

  lemma {:induction false} ReadFieldsAre(p: Platform, s: Shape, c: Column, n: nat, i: nat)
    requires p.Valid() && Sound(p, c) && OnMachine(p, c) && Matches(s, c)
    requires s.TupleOf? && n <= |s.fields| && i < Rows(c)
    ensures ReadFields(p, s, c, n, i) == Some(Fields(Row(p, s, c, i).fields[..n]))
    decreases s, 1, n
  {
    hide Row, ReadRow, Sound, OnMachine;
    TupleRow(p, s, c, i);
    var row := Row(p, s, c, i).fields;
    if n > 0 {
      ReadFieldsAre(p, s, c, n - 1, i);
      ReadRowIsRow(p, s.fields[n - 1], c.children[n - 1], i);
      assert row[..n] == row[..n - 1] + [row[n - 1]];
    }
  }

  // A list of values, encoded and read back through the accessors.
  lemma {:induction false} EncodedValuesAreRead(p: Platform, s: Shape, vs: seq<Value>, i: nat)
    requires p.Valid() && ValidShape(s) && AllHaveShape(vs, s) && Encodable(vs, s) && i < |vs|
    requires OnMachine(p, Encode(p, s, vs))
    ensures Sound(p, Encode(p, s, vs)) && Matches(s, Encode(p, s, vs)) && Rows(Encode(p, s, vs)) == |vs|
    ensures ReadRow(p, s, Encode(p, s, vs), i) == Some(vs[i])
  {
    hide Row, ReadRow, Sound, OnMachine, Encode, Encodable, HasShape;
    EncodingReadsBack(p, s, vs);
    ReadRowIsRow(p, s, Encode(p, s, vs), i);
  }
}
