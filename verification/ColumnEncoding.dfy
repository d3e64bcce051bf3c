// Encoding nested values into column trees and reading them back.
module ColumnEncoding {
  import opened Outcomes
  import opened Columns

  /* Nested values of a type */

  predicate ValidShape(s: Shape) {
    match s
    case FixedOf(width) => width > 0
    case StringOf => true
    case NullableOf(inner) => ValidShape(inner)
    case ArrayOf(inner) => ValidShape(inner)
    case TupleOf(fields) => fields != [] && forall i :: 0 <= i < |fields| ==> ValidShape(fields[i])
    case LowCardinalityOf(keySize, inner) => WireWidth(keySize) && ValidShape(inner)
  }

  predicate HasShape(v: Value, s: Shape)
    decreases s
  {
    match s
    case FixedOf(width) => v.Raw? && |v.bytes| == width
    case StringOf => v.Raw?
    case NullableOf(inner) => v.Null? || HasShape(v, inner)
    case ArrayOf(inner) => v.List? && forall i :: 0 <= i < |v.items| ==> HasShape(v.items[i], inner)
    case TupleOf(fields) =>
      v.Fields? && |v.fields| == |fields| && forall i :: 0 <= i < |fields| ==> HasShape(v.fields[i], fields[i])
    case LowCardinalityOf(_, inner) => HasShape(v, inner)
  }

  predicate AllHaveShape(vs: seq<Value>, s: Shape) {
    forall i :: 0 <= i < |vs| ==> HasShape(vs[i], s)
  }

  // A value for the rows of an inner column that are null.
  function Default(s: Shape): (v: Value)
    requires ValidShape(s)
    ensures HasShape(v, s)
  {
    match s
    case FixedOf(width) => Raw(seq(width, i => 0))
    case StringOf => Raw([])
    case NullableOf(_) => Null
    case ArrayOf(_) => List([])
    case TupleOf(fields) => Fields(seq(|fields|, i requires 0 <= i < |fields| => Default(fields[i])))
    case LowCardinalityOf(_, inner) => Default(inner)
  }

  /* Slabs */

  // Cumulative ends of consecutive parts.
  function Ends<T>(parts: seq<seq<T>>): (ends: seq<nat>)
    ensures |ends| == |parts|
  {
    if parts == [] then [] else Ends(parts[..|parts| - 1]) + [|Flatten(parts)|]
  }

  lemma MonotoneSnoc(offsets: seq<nat>, x: nat)
    requires Monotone(offsets) && Last(offsets) <= x
    ensures Monotone(offsets + [x])
  {
    forall i | 0 <= i < |offsets|
      ensures offsets[i] <= x
    {
      assert offsets[i] <= offsets[|offsets| - 1];
    }
  }

  lemma {:induction false} EndsAreOffsets<T>(parts: seq<seq<T>>)
    ensures Monotone(Ends(parts)) && Last(Ends(parts)) == |Flatten(parts)|
  {
    if parts != [] {
      var head := parts[..|parts| - 1];
      EndsAreOffsets(head);
      MonotoneSnoc(Ends(head), |Flatten(parts)|);
    }
  }

  lemma SliceOfPrefix<T>(a: seq<T>, b: seq<T>, lo: nat, hi: nat)
    requires lo <= hi <= |a|
    ensures (a + b)[lo..hi] == a[lo..hi] && (a + b)[|a|..|a + b|] == b
  {
  }

  // Each part lies between its neighbours' ends.
  lemma {:induction false} EndAt<T>(parts: seq<seq<T>>, i: nat)
    requires i < |parts|
    ensures StartOf(Ends(parts), i) <= Ends(parts)[i] <= |Flatten(parts)|
    ensures Flatten(parts)[StartOf(Ends(parts), i)..Ends(parts)[i]] == parts[i]
    decreases |parts|
  {
    var n := |parts| - 1;
    var head := parts[..n];
    var front, ends := Flatten(head), Ends(parts);
    assert Flatten(parts) == front + parts[n] && ends == Ends(head) + [|Flatten(parts)|];
    if i < n {
      EndAt(head, i);
      var lo, hi := StartOf(Ends(head), i), Ends(head)[i];
      assert StartOf(ends, i) == lo && ends[i] == hi;
      SliceOfPrefix(front, parts[n], lo, hi);
    } else {
      EndsAreOffsets(head);
      assert StartOf(ends, n) == Last(Ends(head)) == |front|;
      SliceOfPrefix(front, parts[n], 0, 0);
    }
  }

  lemma {:induction false} ChunksTotal(parts: seq<Bytes>, width: nat)
    requires forall i :: 0 <= i < |parts| ==> |parts[i]| == width
    ensures |Flatten(parts)| == |parts| * width
  {
    if parts != [] {
      var n := |parts| - 1;
      ChunksTotal(parts[..n], width);
      assert n * width + width == (n + 1) * width;
    }
  }

  // Parts of one width are the chunks of their concatenation.
  lemma {:induction false} ChunkAt(parts: seq<Bytes>, width: nat, i: nat)
    requires i < |parts| && forall k :: 0 <= k < |parts| ==> |parts[k]| == width
    ensures (i + 1) * width <= |Flatten(parts)| && Chunk(Flatten(parts), width, i) == parts[i]
    decreases |parts|
  {
    var n := |parts| - 1;
    var head := parts[..n];
    var front, all := Flatten(head), Flatten(parts);
    ChunksTotal(parts, width);
    ChunksTotal(head, width);
    ChunkFits(i, n + 1, width);
    assert all == front + parts[n];
    if i < n {
      ChunkAt(head, width, i);
      ChunkOfPrefix(front, parts[n], width, i);
    } else {
      SliceOfPrefix(front, parts[n], 0, 0);
    }
  }

  lemma ChunkOfPrefix(a: Bytes, b: Bytes, width: nat, i: nat)
    requires (i + 1) * width <= |a|
    ensures (i + 1) * width <= |a + b| && Chunk(a + b, width, i) == Chunk(a, width, i)
  {
    var lo, hi := i * width, (i + 1) * width;
    assert lo <= hi;
    SliceOfPrefix(a, b, lo, hi);
  }

  /* Keys */

  function Power(width: nat): nat {
    if width == 0 then 1 else 256 * Power(width - 1)
  }

  function KeyBytes(littleEndian: bool, n: nat, width: nat): (b: Bytes)
    requires n < Power(width)
    ensures |b| == width
  {
    if width == 0 then []
    else if littleEndian then [n % 256] + KeyBytes(littleEndian, n / 256, width - 1)
    else KeyBytes(littleEndian, n / 256, width - 1) + [n % 256]
  }

  // The low byte comes first or last.
  lemma TwoByteKeys(first: byte, second: byte)
    ensures Unsigned(true, [first, second]) == first + 256 * second
    ensures Unsigned(false, [first, second]) == 256 * first + second
  {
    assert [first, second][1..] == [second] && [second][1..] == [];
    assert [first, second][..1] == [first] && [first][..0] == [];
    assert Unsigned(true, [second]) == second && Unsigned(false, [first]) == first;
  }

  lemma {:induction false} KeyReadsBack(littleEndian: bool, n: nat, width: nat)
    requires n < Power(width)
    ensures Unsigned(littleEndian, KeyBytes(littleEndian, n, width)) == n
  {
    if width > 0 {
      var b, rest := KeyBytes(littleEndian, n, width), KeyBytes(littleEndian, n / 256, width - 1);
      KeyReadsBack(littleEndian, n / 256, width - 1);
      assert if littleEndian then b[1..] == rest else b[..width - 1] == rest;
    }
  }

  // The distinct values in order of first appearance.
  function Distinct(vs: seq<Value>): (dict: seq<Value>)
    ensures |dict| <= |vs| && forall v :: v in dict <==> v in vs
  {
    if vs == [] then []
    else
      var dict, v := Distinct(vs[..|vs| - 1]), vs[|vs| - 1];
      assert vs == vs[..|vs| - 1] + [v];
      if v in dict then dict else dict + [v]
  }

  function IndexOf(vs: seq<Value>, v: Value): (i: nat)
    requires v in vs
    ensures i < |vs| && vs[i] == v
  {
    if vs[0] == v then 0 else 1 + IndexOf(vs[1..], v)
  }

  /* Encoding */

  function RawBytes(vs: seq<Value>): seq<Bytes>
    requires forall i :: 0 <= i < |vs| ==> vs[i].Raw?
  {
    seq(|vs|, i requires 0 <= i < |vs| => vs[i].bytes)
  }

  function ItemLists(vs: seq<Value>): (lists: seq<seq<Value>>)
    requires forall i :: 0 <= i < |vs| ==> vs[i].List?
    ensures |lists| == |vs| && forall i :: 0 <= i < |vs| ==> lists[i] == vs[i].items
  {
    seq(|vs|, i requires 0 <= i < |vs| => vs[i].items)
  }

  function NullMap(vs: seq<Value>): Bytes {
    seq(|vs|, i requires 0 <= i < |vs| => if vs[i].Null? then 1 else 0)
  }

  function Filled(vs: seq<Value>, inner: Shape): (filled: seq<Value>)
    requires ValidShape(inner) && AllHaveShape(vs, NullableOf(inner))
    ensures |filled| == |vs| && AllHaveShape(filled, inner)
  {
    seq(|vs|, i requires 0 <= i < |vs| => if vs[i].Null? then Default(inner) else vs[i])
  }

  function FieldColumn(vs: seq<Value>, fields: seq<Shape>, k: nat): (column: seq<Value>)
    requires AllHaveShape(vs, TupleOf(fields)) && k < |fields|
    ensures |column| == |vs| && AllHaveShape(column, fields[k])
  {
    seq(|vs|, i requires 0 <= i < |vs| => vs[i].fields[k])
  }

  predicate AllBelow(keys: seq<nat>, bound: nat) {
    forall i :: 0 <= i < |keys| ==> keys[i] < bound
  }

  function KeySlab(littleEndian: bool, keys: seq<nat>, width: nat): (slab: seq<Bytes>)
    requires AllBelow(keys, Power(width))
    ensures |slab| == |keys| && forall i :: 0 <= i < |keys| ==> |slab[i]| == width
  {
    seq(|keys|, i requires 0 <= i < |keys| => KeyBytes(littleEndian, keys[i], width))
  }

  // Where each value stands among the distinct ones.
  function Indices(vs: seq<Value>): (keys: seq<nat>)
    ensures |keys| == |vs| && AllBelow(keys, |Distinct(vs)|)
    ensures forall i :: 0 <= i < |vs| ==> Distinct(vs)[keys[i]] == vs[i]
  {
    seq(|vs|, i requires 0 <= i < |vs| => IndexOf(Distinct(vs), vs[i]))
  }

  function NonNull(vs: seq<Value>): (some: seq<Value>)
    ensures |some| <= |vs| && forall v :: v in some <==> v in vs && !v.Null?
  {
    if vs == [] then []
    else
      assert vs == vs[..|vs| - 1] + [vs[|vs| - 1]];
      NonNull(vs[..|vs| - 1]) + if vs[|vs| - 1].Null? then [] else [vs[|vs| - 1]]
  }

  function NullKey(dict: seq<Value>, v: Value): (k: nat)
    requires v.Null? || v in dict
    ensures if v.Null? then k == 0 else 0 < k <= |dict| && dict[k - 1] == v
  {
    if v.Null? then 0 else 1 + IndexOf(dict, v)
  }

  function NullKeys(vs: seq<Value>): (keys: seq<nat>)
    ensures |keys| == |vs| && AllBelow(keys, 1 + |Distinct(NonNull(vs))|)
    ensures forall i :: 0 <= i < |vs| ==> keys[i] == NullKey(Distinct(NonNull(vs)), vs[i])
  {
    seq(|vs|, i requires 0 <= i < |vs| => NullKey(Distinct(NonNull(vs)), vs[i]))
  }

  lemma DistinctHasShape(vs: seq<Value>, s: Shape)
    requires AllHaveShape(vs, s)
    ensures AllHaveShape(Distinct(vs), s)
  {
    forall i | 0 <= i < |Distinct(vs)|
      ensures HasShape(Distinct(vs)[i], s)
    {
      assert Distinct(vs)[i] in vs;
    }
  }

  lemma DistinctNonNullHaveShape(inner: Shape, vs: seq<Value>)
    requires AllHaveShape(vs, NullableOf(inner))
    ensures AllHaveShape(Distinct(NonNull(vs)), inner)
  {
    forall i | 0 <= i < |NonNull(vs)|
      ensures HasShape(NonNull(vs)[i], inner)
    {
      assert NonNull(vs)[i] in vs;
    }
    DistinctHasShape(NonNull(vs), inner);
  }

  // The dictionary of a column of low cardinality: its distinct values or, when
  // it is nullable, a filler for null and the distinct values that are not.
  function Dictionary(inner: Shape, vs: seq<Value>): (entries: seq<Value>)
    requires ValidShape(inner) && AllHaveShape(vs, inner)
    ensures AllHaveShape(entries, EntryShape(inner))
  {
    if inner.NullableOf? then
      DistinctNonNullHaveShape(inner.inner, vs);
      [Default(inner.inner)] + Distinct(NonNull(vs))
    else
      DistinctHasShape(vs, inner);
      Distinct(vs)
  }

  // Key zero is for null rows, and every other row has the key of its value.
  function Keys(inner: Shape, vs: seq<Value>): (keys: seq<nat>)
    requires ValidShape(inner) && AllHaveShape(vs, inner)
    ensures |keys| == |vs| && AllBelow(keys, |Dictionary(inner, vs)|)
    ensures forall i :: 0 <= i < |vs| ==>
      if inner.NullableOf? && vs[i].Null? then keys[i] == 0
      else Dictionary(inner, vs)[keys[i]] == vs[i] && (inner.NullableOf? ==> keys[i] > 0)
  {
    if inner.NullableOf? then NullKeys(vs) else Indices(vs)
  }

  lemma {:induction false} FlatHasShape(vs: seq<Value>, inner: Shape)
    requires AllHaveShape(vs, ArrayOf(inner))
    ensures AllHaveShape(Flatten(ItemLists(vs)), inner)
  {
    var lists := ItemLists(vs);
    if vs != [] {
      var n := |vs| - 1;
      assert lists[..n] == ItemLists(vs[..n]);
      FlatHasShape(vs[..n], inner);
      assert HasShape(vs[n], ArrayOf(inner));
    }
  }

  // Every dictionary's keys fit their width.
  predicate Encodable(vs: seq<Value>, s: Shape)
    requires ValidShape(s) && AllHaveShape(vs, s)
    decreases s
  {
    match s
    case FixedOf(_) => true
    case StringOf => true
    case NullableOf(inner) => Encodable(Filled(vs, inner), inner)
    case ArrayOf(inner) =>
      FlatHasShape(vs, inner);
      Encodable(Flatten(ItemLists(vs)), inner)
    case TupleOf(fields) => forall k :: 0 <= k < |fields| ==> Encodable(FieldColumn(vs, fields, k), fields[k])
    case LowCardinalityOf(keySize, inner) =>
      |Dictionary(inner, vs)| <= Power(keySize) && Encodable(Dictionary(inner, vs), EntryShape(inner))
  }

  function Keyed(p: Platform, keySize: nat, keys: seq<nat>, dict: Column): Column
    requires AllBelow(keys, Power(keySize))
  {
    LowCardinality(keySize, Flatten(KeySlab(p.littleEndian, keys, keySize)), |keys|, dict)
  }

  // The column tree for a list of values: cumulative ends for strings and
  // arrays, fillers under nulls, a dictionary.
  function Encode(p: Platform, s: Shape, vs: seq<Value>): Column
    requires ValidShape(s) && AllHaveShape(vs, s) && Encodable(vs, s)
    decreases s
  {
    match s
    case FixedOf(width) => Fixed(Flatten(RawBytes(vs)), width, |vs|)
    case StringOf => Str(Ends(RawBytes(vs)), Flatten(RawBytes(vs)), |vs|)
    case NullableOf(inner) => Nullable(NullMap(vs), Encode(p, inner, Filled(vs, inner)))
    case ArrayOf(inner) =>
      FlatHasShape(vs, inner);
      Array(Ends(ItemLists(vs)), |vs|, Encode(p, inner, Flatten(ItemLists(vs))))
    case TupleOf(fields) =>
      Tuple(seq(|fields|, k requires 0 <= k < |fields| => Encode(p, fields[k], FieldColumn(vs, fields, k))))
    case LowCardinalityOf(keySize, inner) =>
      Keyed(p, keySize, Keys(inner, vs), Encode(p, EntryShape(inner), Dictionary(inner, vs)))
  }

  ghost predicate ReadsBack(p: Platform, s: Shape, c: Column, vs: seq<Value>) {
    Sound(p, c) && Matches(s, c) && Rows(c) == |vs| && forall i :: 0 <= i < |vs| ==> Row(p, s, c, i) == vs[i]
  }

  lemma {:induction false} FixedReadsBack(p: Platform, width: nat, vs: seq<Value>)
    requires width > 0 && AllHaveShape(vs, FixedOf(width))
    ensures ReadsBack(p, FixedOf(width), Fixed(Flatten(RawBytes(vs)), width, |vs|), vs)
  {
    var parts := RawBytes(vs);
    forall i | 0 <= i < |parts|
      ensures |parts[i]| == width
    {
      assert HasShape(vs[i], FixedOf(width));
    }
    ChunksTotal(parts, width);
    var c := Fixed(Flatten(parts), width, |vs|);
    forall i | 0 <= i < |vs|
      ensures Row(p, FixedOf(width), c, i) == vs[i]
    {
      ChunkAt(parts, width, i);
    }
  }

  lemma {:induction false} StringReadsBack(p: Platform, vs: seq<Value>)
    requires AllHaveShape(vs, StringOf)
    ensures ReadsBack(p, StringOf, Str(Ends(RawBytes(vs)), Flatten(RawBytes(vs)), |vs|), vs)
  {
    var parts := RawBytes(vs);
    EndsAreOffsets(parts);
    var c := Str(Ends(parts), Flatten(parts), |vs|);
    forall i | 0 <= i < |vs|
      ensures Row(p, StringOf, c, i) == vs[i]
    {
      EndAt(parts, i);
    }
  }

  lemma {:induction false} NullableReadsBack(p: Platform, s: Shape, vs: seq<Value>, filled: seq<Value>, inner: Column)
    requires |filled| == |vs| && forall i :: 0 <= i < |vs| ==> vs[i].Null? || filled[i] == vs[i]
    requires ReadsBack(p, s, inner, filled)
    ensures ReadsBack(p, NullableOf(s), Nullable(NullMap(vs), inner), vs)
  {
    var c := Nullable(NullMap(vs), inner);
    assert Fits(p, c);
    forall i | 0 <= i < |vs|
      ensures Row(p, NullableOf(s), c, i) == vs[i]
    {
      assert Row(p, s, inner, i) == filled[i];
    }
  }

  lemma {:induction false} ArrayReadsBack(p: Platform, s: Shape, lists: seq<seq<Value>>, vs: seq<Value>, values: Column)
    requires |lists| == |vs| && forall i :: 0 <= i < |vs| ==> vs[i] == List(lists[i])
    requires ReadsBack(p, s, values, Flatten(lists))
    ensures ReadsBack(p, ArrayOf(s), Array(Ends(lists), |vs|, values), vs)
  {
    EndsAreOffsets(lists);
    var c := Array(Ends(lists), |vs|, values);
    assert Fits(p, c);
    assert AllRows(p, s, values) == Flatten(lists);
    forall i | 0 <= i < |vs|
      ensures Row(p, ArrayOf(s), c, i) == vs[i]
    {
      EndAt(lists, i);
      ArrayRow(p, ArrayOf(s), c, i);
    }
  }

  // Each row is the dictionary entry its key names, or null for key zero.
  lemma {:induction false} DictionaryReadsBack(
      p: Platform, keySize: nat, inner: Shape, keys: seq<nat>, entries: seq<Value>, dict: Column)
    requires WireWidth(keySize) && AllBelow(keys, Power(keySize)) && AllBelow(keys, |entries|)
    requires ReadsBack(p, EntryShape(inner), dict, entries)
    ensures var s, c := LowCardinalityOf(keySize, inner), Keyed(p, keySize, keys, dict);
      && Sound(p, c) && Matches(s, c) && Rows(c) == |keys|
      && forall i :: 0 <= i < |keys| ==>
           && KeyAt(p, c.keys, keySize, |keys|, i) == keys[i]
           && Row(p, s, c, i) == if inner.NullableOf? && keys[i] == 0 then Null else entries[keys[i]]
  {
    hide Power, KeySlab, KeyAt;
    var s, c := LowCardinalityOf(keySize, inner), Keyed(p, keySize, keys, dict);
    KeysReadBack(p, keySize, keys);
    assert KeysInside(p, c.keys, keySize, |keys|, Rows(dict));
    forall i | 0 <= i < |keys|
      ensures Row(p, s, c, i) == if inner.NullableOf? && keys[i] == 0 then Null else entries[keys[i]]
    {
      assert Row(p, EntryShape(inner), dict, keys[i]) == entries[keys[i]];
    }
  }

  lemma {:induction false} KeysReadBack(p: Platform, keySize: nat, keys: seq<nat>)
    requires AllBelow(keys, Power(keySize))
    ensures var slab := Flatten(KeySlab(p.littleEndian, keys, keySize));
      && |slab| == |keys| * keySize
      && forall i :: 0 <= i < |keys| ==> KeyAt(p, slab, keySize, |keys|, i) == keys[i]
  {
    hide Power, Unsigned, KeyBytes;
    var parts := KeySlab(p.littleEndian, keys, keySize);
    ChunksTotal(parts, keySize);
    forall i | 0 <= i < |keys|
      ensures KeyAt(p, Flatten(parts), keySize, |keys|, i) == keys[i]
    {
      ChunkAt(parts, keySize, i);
      KeyReadsBack(p.littleEndian, keys[i], keySize);
    }
  }

  lemma {:induction false} TupleReadsBack(
      p: Platform, fields: seq<Shape>, columns: seq<seq<Value>>, vs: seq<Value>, children: seq<Column>)
    requires children != [] && |columns| == |children| == |fields|
    requires forall k :: 0 <= k < |children| ==> |columns[k]| == |vs| && ReadsBack(p, fields[k], children[k], columns[k])
    requires forall i :: 0 <= i < |vs| ==> vs[i].Fields? && |vs[i].fields| == |children|
    requires forall i, k :: 0 <= i < |vs| && 0 <= k < |children| ==> columns[k][i] == vs[i].fields[k]
    ensures ReadsBack(p, TupleOf(fields), Tuple(children), vs)
  {
    var s, c := TupleOf(fields), Tuple(children);
    assert Rows(c) == Rows(children[0]);
    forall k | 0 <= k < |children|
      ensures Rows(children[k]) == |vs| && Sound(p, children[k]) && Matches(fields[k], children[k])
    {
      assert ReadsBack(p, fields[k], children[k], columns[k]);
    }
    forall i | 0 <= i < |vs|
      ensures Row(p, s, c, i) == vs[i]
    {
      var row := Row(p, s, c, i).fields;
      forall k | 0 <= k < |children|
        ensures row[k] == vs[i].fields[k]
      {
        assert Row(p, fields[k], children[k], i) == columns[k][i];
      }
      assert row == vs[i].fields;
    }
  }

  // At every nesting, the encoding of a list of values is a tree the
  // constructors' conditions accept, and its rows are those values.
  lemma {:induction false} EncodingReadsBack(p: Platform, s: Shape, vs: seq<Value>)
    requires ValidShape(s) && AllHaveShape(vs, s) && Encodable(vs, s)
    ensures ReadsBack(p, s, Encode(p, s, vs), vs)
    decreases s
  {
    match s
    case FixedOf(width) => FixedReadsBack(p, width, vs);
    case StringOf => StringReadsBack(p, vs);
    case NullableOf(inner) =>
      EncodingReadsBack(p, inner, Filled(vs, inner));
      NullableReadsBack(p, inner, vs, Filled(vs, inner), Encode(p, inner, Filled(vs, inner)));
    case ArrayOf(inner) =>
      FlatHasShape(vs, inner);
      EncodingReadsBack(p, inner, Flatten(ItemLists(vs)));
      forall i | 0 <= i < |vs|
        ensures vs[i] == List(ItemLists(vs)[i])
      {
        assert HasShape(vs[i], s);
      }
      ArrayReadsBack(p, inner, ItemLists(vs), vs, Encode(p, inner, Flatten(ItemLists(vs))));
    case LowCardinalityOf(keySize, inner) =>
      var entries := Dictionary(inner, vs);
      EncodingReadsBack(p, EntryShape(inner), entries);
      DictionaryReadsBack(p, keySize, inner, Keys(inner, vs), entries, Encode(p, EntryShape(inner), entries));
    case TupleOf(fields) => EncodedTupleReadsBack(p, fields, vs);
  }

  lemma {:induction false} EncodedTupleReadsBack(p: Platform, fields: seq<Shape>, vs: seq<Value>)
    requires var s := TupleOf(fields); ValidShape(s) && AllHaveShape(vs, s) && Encodable(vs, s)
    ensures ReadsBack(p, TupleOf(fields), Encode(p, TupleOf(fields), vs), vs)
    decreases TupleOf(fields), 0
  {
    var columns := seq(|fields|, k requires 0 <= k < |fields| => FieldColumn(vs, fields, k));
    var children := Encode(p, TupleOf(fields), vs).children;
    forall k | 0 <= k < |fields|
      ensures |columns[k]| == |vs| && ReadsBack(p, fields[k], children[k], columns[k])
    {
      EncodingReadsBack(p, fields[k], FieldColumn(vs, fields, k));
    }
    forall i | 0 <= i < |vs|
      ensures vs[i].Fields? && |vs[i].fields| == |fields|
    {
      assert HasShape(vs[i], TupleOf(fields));
    }
    TupleReadsBack(p, fields, columns, vs, children);
  }

  // The layout of a nullable column of low cardinality: the dictionary holds one
  // filler, at entry zero, and then no nulls, and exactly the null rows have key
  // zero.
  ghost predicate NullHasKeyZero(p: Platform, keySize: nat, inner: Shape, vs: seq<Value>, c: Column)
    requires ValidShape(inner)
  {
    && c.LowCardinality? && c.nRows == |vs| && |c.keys| == |vs| * keySize
    && Sound(p, c.dict) && Matches(inner, c.dict)
    && AllRows(p, inner, c.dict) == [Default(inner)] + Distinct(NonNull(vs))
    && forall i :: 0 <= i < |vs| ==> (KeyAt(p, c.keys, keySize, |vs|, i) == 0 <==> vs[i].Null?)
  }

  lemma {:induction false} KeyZeroIsNull(p: Platform, keySize: nat, inner: Shape, vs: seq<Value>)
    requires var s := LowCardinalityOf(keySize, NullableOf(inner));
      ValidShape(s) && AllHaveShape(vs, s) && Encodable(vs, s)
    ensures NullHasKeyZero(p, keySize, inner, vs, Encode(p, LowCardinalityOf(keySize, NullableOf(inner)), vs))
  {
    var s := NullableOf(inner);
    assert AllHaveShape(vs, s) by {
      forall i | 0 <= i < |vs|
        ensures HasShape(vs[i], s)
      {
        assert HasShape(vs[i], LowCardinalityOf(keySize, s));
      }
    }
    hide Power, Encodable;
    EncodingReadsBack(p, inner, Dictionary(s, vs));
    assert AllRows(p, inner, Encode(p, inner, Dictionary(s, vs))) == Dictionary(s, vs);
    DictionaryReadsBack(p, keySize, s, Keys(s, vs), Dictionary(s, vs), Encode(p, inner, Dictionary(s, vs)));
  }
}
