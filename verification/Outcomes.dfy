// Results shared by every component: optional values, the error kinds of
// src/error.rs that the modelled code produces, and `Result`.
module Outcomes {
  type byte = b: int | 0 <= b < 256

  type Bytes = seq<byte>

  datatype Option<+T> = None | Some(value: T)

  datatype ErrorKind = Io | Eof | Protocol | Oom | Server | Usage | WouldBlock

  datatype Result<+T> = Ok(value: T) | Err(kind: ErrorKind)

  // The concatenation of a list of sequences, first list first.
  function Flatten<T>(parts: seq<seq<T>>): seq<T> {
    if parts == [] then [] else Flatten(parts[..|parts| - 1]) + parts[|parts| - 1]
  }

  lemma FlattenSnoc<T>(parts: seq<seq<T>>, last: seq<T>)
    ensures Flatten(parts + [last]) == Flatten(parts) + last
  {
    assert (parts + [last])[..|parts|] == parts;
  }

  // What is left of `b` after its first `n` elements; nothing when `n` is past
  // the end.
  function Drop<T>(b: seq<T>, n: nat): seq<T> {
    if n <= |b| then b[n..] else []
  }
}
