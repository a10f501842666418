// Result types shared by every module, and the outcome of one poll of a non-blocking operation.
module Wrappers {
  datatype Option<+T> = None | Some(value: T)

  datatype Result<+T, +E> = Ok(value: T) | Err(error: E)
  {
    predicate IsFailure()
    {
      Err?
    }

    function PropagateFailure<U>(): Result<U, E>
      requires Err?
    {
      Result.Err(error)
    }

    function Extract(): T
      requires Ok?
    {
      value
    }
  }

  // The I/O errors the byte layers tell apart.
  datatype IoError =
    | WriteZero
    | BrokenPipe
    | NotConnected
    | UnexpectedEof
    | InvalidInput
    | InvalidData
    | Link
    | Other

  // One poll: not now, done, or failed.
  datatype Poll<+T> = Pending | Done(value: T) | Failed(error: IoError)
}

module Bytes {
  type byte = b: int | 0 <= b < 256

  // The parts laid end to end.
  function Flatten(parts: seq<seq<byte>>): (r: seq<byte>)
  {
    if parts == [] then [] else parts[0] + Flatten(parts[1..])
  }

  lemma {:induction false} FlattenConcat(a: seq<seq<byte>>, b: seq<seq<byte>>)
    ensures Flatten(a + b) == Flatten(a) + Flatten(b)
  {
    if a == [] {
      assert a + b == b;
    } else {
      assert (a + b)[1..] == a[1..] + b;
      FlattenConcat(a[1..], b);
    }
  }

  lemma FlattenSnoc(a: seq<seq<byte>>, x: seq<byte>)
    ensures Flatten(a + [x]) == Flatten(a) + x
  {
    FlattenConcat(a, [x]);
    assert Flatten([x]) == x + Flatten([]);
  }

  lemma FlattenPrefix(a: seq<seq<byte>>, b: seq<seq<byte>>)
    requires a <= b
    ensures Flatten(a) <= Flatten(b)
  {
    FlattenConcat(a, b[|a|..]);
    assert a + b[|a|..] == b;
  }
}
