// The checked constructors of src/builder.rs, in machine arithmetic.
//
// Each states over its own arguments, in unbounded numbers, exactly when it is
// Ok, although the check saturates and detects overflow. That is the condition
// of `Columns.Fits` on the node it builds.
module ColumnChecks {
  import opened Outcomes
  import opened Columns

  // A multiplication that does not fit `usize` is an error.
  function CheckedLen(p: Platform, count: nat, width: nat): (r: Result<nat>) {
    if count * width <= p.usizeMax then Ok(count * width) else Err(Usage)
  }

  function RequireLen(actual: nat, expected: nat): Result<()> {
    if actual == expected then Ok(()) else Err(Usage)
  }

  function RequireCovers(actual: nat, needed: nat): Result<()> {
    if actual >= needed then Ok(()) else Err(Usage)
  }

  // Converting a 64-bit offset to `usize` saturates.
  function Saturate(p: Platform, offset: nat): nat {
    if offset <= p.usizeMax then offset else p.usizeMax
  }

  method ValidateOffsets(p: Platform, offsets: seq<nat>, nRows: nat) returns (r: Result<nat>)
    ensures r.Ok? <==>
      |offsets| == nRows && forall i, j :: 0 <= i <= j < |offsets| ==> offsets[i] <= offsets[j]
    ensures r.Ok? ==>
      var last := if offsets == [] then 0 else offsets[|offsets| - 1];
      r.value == if last <= p.usizeMax then last else p.usizeMax
    ensures r.Err? ==> r.kind == Usage
  {
    if RequireLen(|offsets|, nRows).Err? {
      return Err(Usage);
    }
    var previous := 0;
    for row := 0 to |offsets|
      invariant previous == if row == 0 then 0 else offsets[row - 1]
      invariant forall i, j :: 0 <= i <= j < row ==> offsets[i] <= offsets[j]
    {
      if offsets[row] < previous {
        return Err(Usage);
      }
      previous := offsets[row];
    }
    return Ok(Saturate(p, previous));
  }

  method ValidateString(p: Platform, offsets: seq<nat>, dataLen: nat, nRows: nat) returns (r: Result<()>)
    requires p.Valid() && dataLen <= p.IsizeMax()
    ensures r.Ok? <==> |offsets| == nRows && Monotone(offsets) && Last(offsets) <= dataLen
    ensures r.Err? ==> r.kind == Usage
  {
    var last := ValidateOffsets(p, offsets, nRows);
    if last.Err? {
      return Err(last.kind);
    }
    r := RequireCovers(dataLen, last.value);
  }

  method ValidateLowCardinalityKeys(p: Platform, keys: Bytes, keySize: int, nRows: nat, dictRows: nat)
      returns (r: Result<()>)
    requires p.Valid() && |keys| <= p.IsizeMax() && nRows <= p.usizeMax
    ensures r.Ok? <==>
      && (keySize == 1 || keySize == 2 || keySize == 4 || keySize == 8)
      && |keys| == nRows * keySize && forall i :: 0 <= i < nRows ==> KeyAt(p, keys, keySize, nRows, i) < dictRows
    ensures r.Err? ==> r.kind == Usage
  {
    if !WireWidth(keySize) {
      return Err(Usage);
    }
    var width: nat := keySize;
    var needed := CheckedLen(p, nRows, width);
    if needed.Err? || RequireLen(|keys|, needed.value).Err? {
      return Err(Usage);
    }
    for row := 0 to nRows
      invariant forall i :: 0 <= i < row ==> KeyAt(p, keys, width, nRows, i) < dictRows
    {
      ChunkFits(row, nRows, width);
      var value := Unsigned(p.littleEndian, Chunk(keys, width, row));
      assert value == KeyAt(p, keys, width, nRows, row);
      if value >= dictRows {
        return Err(Usage);
      }
    }
    r := Ok(());
  }

  /* Constructors */

  // The outcome of a constructor that builds `c` if `ok`.
  ghost predicate Exactly(p: Platform, r: Result<Column>, c: Column, ok: bool) {
    && (r.Ok? <==> ok)
    && (r.Ok? ==> r.value == c && Sound(p, c) && OnMachine(p, c))
    && (r.Err? ==> r.kind == Usage)
  }

  ghost predicate Usable(p: Platform, c: Column) {
    p.Valid() && Sound(p, c) && OnMachine(p, c)
  }

  method BuildFixed(p: Platform, data: Bytes, elemSize: nat, nRows: nat) returns (r: Result<Column>)
    requires p.Valid() && OnMachine(p, Fixed(data, elemSize, nRows))
    ensures Exactly(p, r, Fixed(data, elemSize, nRows), elemSize > 0 && nRows * elemSize <= |data|)
  {
    if elemSize == 0 {
      return Err(Usage);
    }
    var needed := CheckedLen(p, nRows, elemSize);
    if needed.Err? || RequireCovers(|data|, needed.value).Err? {
      return Err(Usage);
    }
    r := Ok(Fixed(data, elemSize, nRows));
  }

  method BuildString(p: Platform, offsets: seq<nat>, data: Bytes, nRows: nat) returns (r: Result<Column>)
    requires p.Valid() && OnMachine(p, Str(offsets, data, nRows))
    ensures Exactly(p, r, Str(offsets, data, nRows),
      |offsets| == nRows && Monotone(offsets) && (offsets != [] ==> offsets[|offsets| - 1] <= |data|))
  {
    var ok := ValidateString(p, offsets, |data|, nRows);
    r := if ok.Err? then Err(ok.kind) else Ok(Str(offsets, data, nRows));
  }

  method BuildNullable(p: Platform, inner: Column, nullMap: Bytes) returns (r: Result<Column>)
    requires Usable(p, inner) && |nullMap| <= p.IsizeMax()
    ensures Exactly(p, r, Nullable(nullMap, inner), |nullMap| == Rows(inner))
  {
    var ok := RequireLen(|nullMap|, Rows(inner));
    r := if ok.Err? then Err(ok.kind) else Ok(Nullable(nullMap, inner));
  }

  method BuildArray(p: Platform, values: Column, offsets: seq<nat>, nRows: nat) returns (r: Result<Column>)
    requires Usable(p, values) && Offsets(p, offsets) && nRows <= p.usizeMax
    ensures Exactly(p, r, Array(offsets, nRows, values),
      && |offsets| == nRows && Monotone(offsets)
      && Rows(values) == if offsets == [] then 0 else offsets[|offsets| - 1])
  {
    RowsAreBounded(p, values);
    var last := ValidateOffsets(p, offsets, nRows);
    if last.Err? {
      return Err(last.kind);
    }
    var ok := RequireLen(Rows(values), last.value);
    r := if ok.Err? then Err(ok.kind) else Ok(Array(offsets, nRows, values));
  }

  method BuildLowCardinality(p: Platform, dict: Column, keySize: int, keys: Bytes, nRows: nat)
      returns (r: Result<Column>)
    requires Usable(p, dict) && |keys| <= p.IsizeMax() && nRows <= p.usizeMax
    ensures keySize < 0 ==> r == Err(Usage)
    ensures keySize >= 0 ==> Exactly(p, r, LowCardinality(keySize, keys, nRows, dict),
      && (keySize == 1 || keySize == 2 || keySize == 4 || keySize == 8)
      && |keys| == nRows * keySize && forall i :: 0 <= i < nRows ==> KeyAt(p, keys, keySize, nRows, i) < Rows(dict))
  {
    var ok := ValidateLowCardinalityKeys(p, keys, keySize, nRows, Rows(dict));
    r := if ok.Err? then Err(ok.kind) else Ok(LowCardinality(keySize, keys, nRows, dict));
  }

  // `ptrs` is scratch for one node pointer per child; the node refers to the
  // children through it. A rejected call leaves the pointers from the offending
  // child on as they were.
  method BuildTuple(p: Platform, children: seq<Column>, ptrs: array<Option<Column>>) returns (r: Result<Column>)
    requires p.Valid() && forall i :: 0 <= i < |children| ==> Usable(p, children[i])
    modifies ptrs
    ensures r.Ok? <==>
      && children != [] && ptrs.Length == |children|
      && forall i :: 0 <= i < |children| ==> Rows(children[i]) == Rows(children[0])
    ensures r.Ok? ==> r.value == Tuple(children) && Sound(p, r.value) && OnMachine(p, r.value)
    ensures r.Ok? ==> forall i :: 0 <= i < |children| ==> ptrs[i] == Some(children[i])
    ensures r.Err? ==> r.kind == Usage
    ensures children == [] || ptrs.Length != |children| ==> ptrs[..] == old(ptrs[..])
    ensures children != [] && ptrs.Length == |children| ==> forall i :: 0 <= i < |children| ==>
      ptrs[i] == if forall k :: 0 <= k <= i ==> Rows(children[k]) == Rows(children[0])
                 then Some(children[i]) else old(ptrs[i])
  {
    if children == [] {
      return Err(Usage);
    }
    if ptrs.Length != |children| {
      return Err(Usage);
    }
    var nRows := Rows(children[0]);
    for i := 0 to |children|
      invariant forall k :: 0 <= k < i ==> Rows(children[k]) == nRows && ptrs[k] == Some(children[k])
      invariant forall k :: i <= k < |children| ==> ptrs[k] == old(ptrs[k])
    {
      if Rows(children[i]) != nRows {
        return Err(Usage);
      }
      ptrs[i] := Some(children[i]);
    }
    var nodes := seq(ptrs.Length, i requires 0 <= i < ptrs.Length && ptrs[i].Some? reads ptrs => ptrs[i].value);
    assert nodes == children;
    r := Ok(Tuple(nodes));
  }
}
