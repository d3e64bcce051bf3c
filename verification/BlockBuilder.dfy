// The block builder of src/builder.rs.
//
// Columns are kept in a growing buffer, and the raw view handed to the C
// library points into that buffer. Growing moves the columns to a new buffer,
// which would leave the view pointing at the old one were it not refreshed.
module BlockBuilder {
  import opened Outcomes

  // A named column of the block: name, type and column are borrowed and only
  // identified here.
  datatype Entry = Entry(name: string, ty: nat, column: nat)

  datatype Append = Append(entry: Entry, nRows: nat)

  /* What any sequence of calls leads to */

  datatype Accepted = Accepted(entries: seq<Entry>, nRows: Option<nat>)

  function Pushed(s: Accepted, a: Append): (Accepted, Result<()>) {
    if s.nRows.Some? && s.nRows.value != a.nRows then (s, Err(Usage))
    else (Accepted(s.entries + [a.entry], Some(a.nRows)), Ok(()))
  }

  function PushedAll(calls: seq<Append>): Accepted {
    if calls == [] then Accepted([], None)
    else Pushed(PushedAll(calls[..|calls| - 1]), calls[|calls| - 1]).0
  }

  lemma PushedSnoc(calls: seq<Append>, a: Append)
    ensures PushedAll(calls + [a]) == Pushed(PushedAll(calls), a).0
  {
    assert (calls + [a])[..|calls|] == calls;
  }

  // The calls whose row count is that of the first call, in order.
  function Agreeing(calls: seq<Append>, n: nat): seq<Entry> {
    if calls == [] then []
    else
      var last := calls[|calls| - 1];
      Agreeing(calls[..|calls| - 1], n) + if last.nRows == n then [last.entry] else []
  }

  // After any sequence of calls the block holds exactly the columns that agree
  // in row count with the first one, in call order, and that row count.
  lemma {:induction false} FirstCallSetsRowCount(calls: seq<Append>)
    ensures calls != [] ==> PushedAll(calls) == Accepted(Agreeing(calls, calls[0].nRows), Some(calls[0].nRows))
  {
    if |calls| > 1 {
      FirstCallSetsRowCount(calls[..|calls| - 1]);
      assert calls[..|calls| - 1][0] == calls[0];
    } else if |calls| == 1 {
      assert calls[..0] == [];
      assert Agreeing(calls, calls[0].nRows) == [] + [calls[0].entry];
    }
  }

  /* The object */

  class Builder {
    // The column vector: its buffer and how much of it is in use.
    var buffer: array<Entry>
    var len: nat
    // The raw view.
    var rawCols: array?<Entry>
    var rawCount: nat
    var rawRows: nat
    var nRows: Option<nat>
    ghost var calls: seq<Append>

    function State(): Accepted
      requires len <= buffer.Length
      reads this, buffer
    {
      Accepted(buffer[..len], nRows)
    }

    // The view is the current buffer with the accepted columns, and all that
    // happened is what the calls ask for.
    ghost predicate Valid()
      reads this, buffer
    {
      && len <= buffer.Length
      && State() == PushedAll(calls)
      && rawCount == len
      && (len == 0 ==> rawCols == null && rawRows == 0 && nRows == None)
      && (len > 0 ==> rawCols == buffer && nRows == Some(rawRows))
    }

    constructor ()
      ensures Valid() && calls == [] && fresh(buffer)
    {
      buffer := new Entry[0];
      len, rawCols, rawCount, rawRows := 0, null, 0, 0;
      nRows, calls := None, [];
    }

    // Room for one more: the contents may move to a new buffer, and then the
    // raw view still refers to the old one.
    method Reserve()
      requires len <= buffer.Length
      modifies this`buffer
      ensures len < buffer.Length && buffer[..len] == old(buffer[..len])
      ensures buffer == old(buffer) || fresh(buffer)
    {
      if len < buffer.Length {
        return;
      }
      var filler := Entry("", 0, 0);
      var bigger := new Entry[if buffer.Length == 0 then 4 else 2 * buffer.Length](_ => filler);
      for i := 0 to len
        invariant buffer == old(buffer) && i <= len <= buffer.Length <= bigger.Length
        invariant forall k :: 0 <= k < i ==> bigger[k] == buffer[k]
      {
        bigger[i] := buffer[i];
      }
      buffer := bigger;
    }

    // The vector's own push.
    method PushEntry(entry: Entry)
      requires len <= buffer.Length
      modifies this`buffer, this`len, buffer
      ensures len == old(len) + 1 <= buffer.Length && buffer[..len] == old(buffer[..len]) + [entry]
      ensures buffer == old(buffer) || fresh(buffer)
    {
      Reserve();
      buffer[len] := entry;
      len := len + 1;
      assert buffer[..len - 1] == old(buffer[..len]);
    }

    method Push(entry: Entry, rows: nat) returns (r: Result<()>)
      requires Valid()
      modifies this, buffer
      ensures Valid() && calls == old(calls) + [Append(entry, rows)]
      ensures buffer == old(buffer) || fresh(buffer)
      ensures r.Err? <==> old(nRows).Some? && old(nRows).value != rows
      ensures r.Err? ==> r.kind == Usage
      ensures r.Err? ==> unchanged(this`buffer, this`len, this`rawCols, this`rawCount, this`rawRows, this`nRows)
      ensures r.Err? ==> buffer[..] == old(buffer[..])
      ensures r.Ok? ==> State().entries == old(State().entries) + [entry] && rawRows == rows && rawCols == buffer
    {
      PushedSnoc(calls, Append(entry, rows));
      hide PushedAll;
      calls := calls + [Append(entry, rows)];
      if nRows.Some? && nRows.value != rows {
        return Err(Usage);
      }
      nRows := Some(rows);
      PushEntry(entry);
      rawCols := buffer;
      rawCount := len;
      rawRows := rows;
      r := Ok(());
    }
  }
}
