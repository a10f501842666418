/** Messages cut out of a stream of bytes by the length written before each.

    Two parsers of the same bytes live here: `Reassembler`, which is handed chunks of any size, and
    `ReadDelimited`, which pulls one message at a time. `Parse` is the one parser both refine. */
module Framing {
  import opened Wrappers
  import opened Bytes

  const TRANSPORT_PREFIX: nat := 2
  const READ_CHUNK: nat := 8192
  const USIZE: nat := 0x1_0000_0000_0000_0000

  function Pow256(n: nat): (r: nat)
    ensures r > 0
  {
    if n == 0 then 1 else 256 * Pow256(n - 1)
  }

  // The low `width` bytes of `n`, most significant first.
  function BigEndian(n: nat, width: nat): (r: seq<byte>)
    ensures |r| == width
  {
    if width == 0 then [] else BigEndian(n / 256, width - 1) + [n % 256]
  }

  function DecodePrefix(bytes: seq<byte>): nat
  {
    if bytes == [] then 0 else 256 * DecodePrefix(bytes[..|bytes| - 1]) + bytes[|bytes| - 1]
  }

  // A length is written as a 64-bit integer and narrowed only when nothing is lost by it.
  function EncodePrefix(width: nat, len: nat): Result<seq<byte>, IoError>
    requires 1 <= width <= 4
  {
    var be := BigEndian(len, 8);
    if AllZero(be[..8 - width]) then Ok(be[8 - width..]) else Err(InvalidInput)
  }

  lemma {:induction false} BigEndianDecodes(n: nat, width: nat)
    requires n < Pow256(width)
    ensures DecodePrefix(BigEndian(n, width)) == n
  {
    if width > 0 {
      BigEndianDecodes(n / 256, width - 1);
      var b := BigEndian(n, width);
      assert b[..|b| - 1] == BigEndian(n / 256, width - 1);
    }
  }

  lemma {:induction false} DecodeBounds(bytes: seq<byte>)
    ensures DecodePrefix(bytes) < Pow256(|bytes|)
  {
    if bytes != [] {
      DecodeBounds(bytes[..|bytes| - 1]);
    }
  }

  lemma {:induction false} DecodeEncodes(bytes: seq<byte>)
    ensures BigEndian(DecodePrefix(bytes), |bytes|) == bytes
  {
    if bytes != [] {
      var front := bytes[..|bytes| - 1];
      DecodeEncodes(front);
      assert DecodePrefix(bytes) / 256 == DecodePrefix(front);
      assert DecodePrefix(bytes) % 256 == bytes[|bytes| - 1];
      assert bytes == front + [bytes[|bytes| - 1]];
    }
  }

  // Dropping leading bytes of a big-endian number is taking it modulo a power of 256, so they are all
  // zero exactly when nothing is lost.
  lemma {:induction false} BigEndianTail(n: nat, width: nat, keep: nat)
    requires keep <= width
    ensures BigEndian(n, width)[width - keep..] == BigEndian(n, keep)
    decreases keep
  {
    if keep > 0 {
      BigEndianTail(n / 256, width - 1, keep - 1);
      var b := BigEndian(n, width);
      assert b[..width - 1] == BigEndian(n / 256, width - 1);
      assert b[width - keep..] == b[..width - 1][width - keep..] + [n % 256];
    }
  }

  predicate AllZero(b: seq<byte>)
  {
    forall i | 0 <= i < |b| :: b[i] == 0
  }

  lemma {:induction false} LeadingZeros(n: nat, width: nat, keep: nat)
    requires keep <= width && n < Pow256(width)
    ensures AllZero(BigEndian(n, width)[..width - keep]) <==> n < Pow256(keep)
    decreases width
  {
    var b := BigEndian(n, width);
    if keep == width {
    } else if keep == 0 {
      BigEndianDecodes(n, width);
      assert b[..width] == b;
      if AllZero(b) {
        ZerosDecode(b);
      }
      if n == 0 {
        ZeroEncodes(width);
      }
    } else {
      LeadingZeros(n / 256, width - 1, keep - 1);
      var front := BigEndian(n / 256, width - 1);
      assert b[..width - keep] == front[..(width - 1) - (keep - 1)];
      assert n < Pow256(keep) <==> n / 256 < Pow256(keep - 1);
    }
  }

  lemma {:induction false} ZerosDecode(b: seq<byte>)
    requires AllZero(b)
    ensures DecodePrefix(b) == 0
  {
    if b != [] {
      ZerosDecode(b[..|b| - 1]);
    }
  }

  lemma {:induction false} ZeroEncodes(width: nat)
    ensures AllZero(BigEndian(0, width))
  {
    if width > 0 {
      ZeroEncodes(width - 1);
    }
  }

  lemma PowersOf256(width: nat)
    requires 1 <= width <= 4
    ensures Pow256(width) <= Pow256(4) == 0x1_0000_0000
    ensures Pow256(TRANSPORT_PREFIX) == 0x1_0000 && Pow256(3) == 0x100_0000
    ensures Pow256(8) == USIZE
  {
    assert Pow256(1) == 0x100;
    assert Pow256(2) == 0x1_0000;
    assert Pow256(3) == 0x100_0000;
    assert Pow256(4) == 0x1_0000_0000;
  }

  // A width is exactly its own bound, and what it carries comes back.
  lemma EncodePrefixExact(width: nat, len: nat)
    requires 1 <= width <= 4 && len < USIZE
    ensures EncodePrefix(width, len) ==
            if len < Pow256(width) then Ok(BigEndian(len, width)) else Err(InvalidInput)
    ensures len < Pow256(width) ==> DecodePrefix(BigEndian(len, width)) == len
  {
    PowersOf256(width);
    LeadingZeros(len, 8, width);
    if len < Pow256(width) {
      BigEndianTail(len, 8, width);
      BigEndianDecodes(len, width);
    }
  }

  lemma BigEndianStep(len: nat, width: nat)
    requires width > 0
    ensures BigEndian(len, width) == BigEndian(len / 256, width - 1) + [len % 256]
    ensures BigEndian(len, 0) == []
  {
  }

  lemma BigEndianBytes(len: nat)
    ensures BigEndian(len, 2) == [len / 256 % 256, len % 256]
    ensures BigEndian(len, 3) == [len / 256 / 256 % 256, len / 256 % 256, len % 256]
  {
    hide BigEndian;
    BigEndianStep(len, 2);
    BigEndianStep(len, 3);
    BigEndianStep(len / 256, 1);
    BigEndianStep(len / 256, 2);
    BigEndianStep(len / 256 / 256, 1);
    BigEndianStep(len / 256 / 256 / 256, 1);
  }

  /** The prefixes of the two layers, byte by byte: the most significant first. */
  lemma PrefixBytes(len: nat)
    ensures len < 0x1_0000 ==> EncodePrefix(2, len) == Ok([len / 0x100, len % 0x100])
    ensures len < 0x100_0000 ==>
              EncodePrefix(3, len) == Ok([len / 0x1_0000, len / 0x100 % 0x100, len % 0x100])
  {
    hide BigEndian, DecodePrefix, Pow256;
    if len < 0x100_0000 {
      PowersOf256(2);
      PowersOf256(3);
      EncodePrefixExact(2, len);
      EncodePrefixExact(3, len);
      BigEndianTail(len, 8, 2);
      BigEndianTail(len, 8, 3);
      BigEndianBytes(len);
      assert len / 256 / 256 == len / 0x1_0000;
    }
  }

  lemma EncodePrefixInverse(bytes: seq<byte>)
    requires 1 <= |bytes| <= 4
    ensures EncodePrefix(|bytes|, DecodePrefix(bytes)) == Ok(bytes)
  {
    DecodeBounds(bytes);
    PowersOf256(|bytes|);
    EncodePrefixExact(|bytes|, DecodePrefix(bytes));
    DecodeEncodes(bytes);
  }

  // ---- One message, and the parser of a whole stream of them --------------------------------------

  // A message as it goes on the wire: its length, then its bytes.
  function Frame(width: nat, message: seq<byte>): seq<byte>
    requires 1 <= width <= 4 && |message| < Pow256(width)
  {
    BigEndian(|message|, width) + message
  }

  predicate Fit(width: nat, messages: seq<seq<byte>>)
  {
    forall i | 0 <= i < |messages| :: |messages[i]| < Pow256(width)
  }

  function Frames(width: nat, messages: seq<seq<byte>>): seq<byte>
    requires 1 <= width <= 4 && Fit(width, messages)
  {
    if messages == [] then [] else Frame(width, messages[0]) + Frames(width, messages[1..])
  }

  lemma {:induction false} FramesConcat(width: nat, a: seq<seq<byte>>, b: seq<seq<byte>>)
    requires 1 <= width <= 4 && Fit(width, a) && Fit(width, b)
    ensures Fit(width, a + b)
    ensures Frames(width, a + b) == Frames(width, a) + Frames(width, b)
  {
    hide BigEndian, DecodePrefix, Pow256;
    if a == [] {
      assert a + b == b;
    } else {
      assert (a + b)[1..] == a[1..] + b;
      FramesConcat(width, a[1..], b);
    }
  }

  lemma FramesSnoc(width: nat, messages: seq<seq<byte>>, message: seq<byte>)
    requires 1 <= width <= 4 && Fit(width, messages) && |message| < Pow256(width)
    ensures Fit(width, messages + [message])
    ensures Frames(width, messages + [message]) == Frames(width, messages) + Frame(width, message)
  {
    hide BigEndian, DecodePrefix, Pow256, Frame;
    FramesConcat(width, messages, [message]);
    assert [message][1..] == [];
    assert Frames(width, []) == [];
    assert Frames(width, [message]) == Frame(width, message);
  }

  // Where the first message of `stream` ends, once enough of its prefix has arrived to say.
  predicate Complete(width: nat, stream: seq<byte>)
    requires width >= 1
  {
    |stream| >= width && |stream| >= width + DecodePrefix(stream[..width])
  }

  function First(width: nat, stream: seq<byte>): (r: (seq<byte>, seq<byte>))
    requires width >= 1 && Complete(width, stream)
    ensures |r.1| < |stream|
  {
    var end := width + DecodePrefix(stream[..width]);
    (stream[width..end], stream[end..])
  }

  // Every message a stream completes, and the bytes left over.
  function Parse(width: nat, stream: seq<byte>): (seq<seq<byte>>, seq<byte>)
    requires width >= 1
    decreases |stream|
  {
    if Complete(width, stream) then
      var (message, rest) := First(width, stream);
      var (messages, left) := Parse(width, rest);
      ([message] + messages, left)
    else
      ([], stream)
  }

  lemma FrameIsComplete(width: nat, message: seq<byte>, tail: seq<byte>)
    requires 1 <= width <= 4 && |message| < Pow256(width)
    ensures Complete(width, Frame(width, message) + tail)
    ensures First(width, Frame(width, message) + tail) == (message, tail)
  {
    BigEndianDecodes(|message|, width);
    assert (Frame(width, message) + tail)[..width] == BigEndian(|message|, width);
  }

  lemma FirstIsFrame(width: nat, stream: seq<byte>)
    requires 1 <= width <= 4 && Complete(width, stream)
    ensures |First(width, stream).0| < Pow256(width)
    ensures stream == Frame(width, First(width, stream).0) + First(width, stream).1
  {
    DecodeBounds(stream[..width]);
    DecodeEncodes(stream[..width]);
  }

  // Parsing undoes framing, whatever follows.
  lemma {:induction false} ParseFrames(width: nat, messages: seq<seq<byte>>, tail: seq<byte>)
    requires 1 <= width <= 4 && Fit(width, messages)
    ensures Parse(width, Frames(width, messages) + tail) ==
            (messages + Parse(width, tail).0, Parse(width, tail).1)
    decreases |messages|
  {
    hide BigEndian, DecodePrefix, Pow256;
    if messages == [] {
      assert Frames(width, messages) + tail == tail;
      assert messages + Parse(width, tail).0 == Parse(width, tail).0;
    } else {
      var rest := Frames(width, messages[1..]) + tail;
      assert Frames(width, messages) + tail == Frame(width, messages[0]) + rest;
      FrameIsComplete(width, messages[0], rest);
      ParseFrames(width, messages[1..], tail);
      var after := Parse(width, tail).0;
      assert messages + after == [messages[0]] + (messages[1..] + after);
    }
  }

  // Framing undoes parsing: what was taken, framed again, and what was left are the stream.
  lemma {:induction false} FramesOfParse(width: nat, stream: seq<byte>)
    requires 1 <= width <= 4
    ensures Fit(width, Parse(width, stream).0)
    ensures stream == Frames(width, Parse(width, stream).0) + Parse(width, stream).1
    ensures !Complete(width, Parse(width, stream).1)
    decreases |stream|
  {
    if Complete(width, stream) {
      FirstIsFrame(width, stream);
      hide BigEndian, DecodePrefix, Pow256, Frame, First, Complete;
      var message, rest := First(width, stream).0, First(width, stream).1;
      FramesOfParse(width, rest);
      var messages, left := Parse(width, rest).0, Parse(width, rest).1;
      assert ([message] + messages)[1..] == messages;
      assert Frame(width, message) + (Frames(width, messages) + left)
          == (Frame(width, message) + Frames(width, messages)) + left;
    }
  }

  // Splitting the stream anywhere changes nothing: the leftover of the first part, carried into the
  // second, gives the same messages and the same leftover.
  lemma ParseSplit(width: nat, a: seq<byte>, b: seq<byte>)
    requires 1 <= width <= 4
    ensures Parse(width, a + b).0 == Parse(width, a).0 + Parse(width, Parse(width, a).1 + b).0
    ensures Parse(width, a + b).1 == Parse(width, Parse(width, a).1 + b).1
  {
    FramesOfParse(width, a);
    ParseResumes(width, a, b, Parse(width, a).0, Parse(width, a).1);
  }

  lemma ParseResumes(width: nat, a: seq<byte>, b: seq<byte>, taken: seq<seq<byte>>, left: seq<byte>)
    requires 1 <= width <= 4 && Fit(width, taken) && a == Frames(width, taken) + left
    ensures Parse(width, a + b) == (taken + Parse(width, left + b).0, Parse(width, left + b).1)
  {
    hide BigEndian, DecodePrefix, Pow256;
    ParseFrames(width, taken, left + b);
    assert a + b == Frames(width, taken) + (left + b);
  }

  lemma Unparsed(width: nat, stream: seq<byte>)
    requires width >= 1 && !Complete(width, stream)
    ensures Parse(width, stream) == ([], stream)
  {
  }

  lemma ParseStep(width: nat, stream: seq<byte>)
    requires width >= 1 && Complete(width, stream)
    ensures var (message, rest) := First(width, stream);
            Parse(width, stream) == ([message] + Parse(width, rest).0, Parse(width, rest).1)
  {
  }

  // A run of frames determines its messages, however much of it has been taken off the front.
  lemma FramesDetermine(width: nat, all: seq<seq<byte>>, taken: seq<seq<byte>>, rest: seq<byte>)
    requires 1 <= width <= 4 && Fit(width, all) && Fit(width, taken)
    requires Frames(width, all) == Frames(width, taken) + rest
    ensures all == taken + Parse(width, rest).0
    ensures Parse(width, rest).1 == []
  {
    hide BigEndian, DecodePrefix, Pow256, Frame, Frames;
    ParseFrames(width, all, []);
    ParseFrames(width, taken, rest);
    assert Frames(width, all) + [] == Frames(width, all);
    assert Parse(width, []) == ([], []);
    assert all + [] == all;
  }

  // A complete message stays the first message whatever arrives after it.
  lemma CompleteExtends(width: nat, stream: seq<byte>, more: seq<byte>)
    requires width >= 1 && Complete(width, stream)
    ensures Complete(width, stream + more)
    ensures First(width, stream + more) == (First(width, stream).0, First(width, stream).1 + more)
  {
    assert (stream + more)[..width] == stream[..width];
    var end := width + DecodePrefix(stream[..width]);
    assert (stream + more)[width..end] == stream[width..end];
    assert (stream + more)[end..] == stream[end..] + more;
  }

  // ---- The reassembler ----------------------------------------------------------------------------

  // Bytes still to be parsed, with every complete message taken out by `Take` in turn.
  class Reassembler {
    var buf: seq<byte>

    constructor ()
      ensures buf == []
    {
      buf := [];
    }

    method Push(chunk: seq<byte>)
      modifies this
      ensures buf == old(buf) + chunk
    {
      buf := buf + chunk;
    }

    method Take() returns (message: Option<seq<byte>>)
      modifies this
      ensures message.Some? <==> Complete(TRANSPORT_PREFIX, old(buf))
      ensures message.Some? ==> (message.value, buf) == First(TRANSPORT_PREFIX, old(buf))
      ensures message.None? ==> buf == old(buf)
    {
      if |buf| < TRANSPORT_PREFIX {
        return None;
      }
      var end := TRANSPORT_PREFIX + DecodePrefix(buf[..TRANSPORT_PREFIX]);
      if |buf| < end {
        return None;
      }
      message := Some(buf[TRANSPORT_PREFIX..end]);
      buf := buf[end..];
    }

    method PushAndDrain(chunk: seq<byte>) returns (messages: seq<seq<byte>>)
      modifies this
      ensures (messages, buf) == Parse(TRANSPORT_PREFIX, old(buf) + chunk)
    {
      Push(chunk);
      messages := [];
      ghost var all := Parse(TRANSPORT_PREFIX, buf);
      while true
        invariant all.0 == messages + Parse(TRANSPORT_PREFIX, buf).0
        invariant all.1 == Parse(TRANSPORT_PREFIX, buf).1
        decreases |buf|
      {
        ghost var before := buf;
        var message := Take();
        if message.None? {
          assert messages + [] == messages;
          break;
        }
        ParseStep(TRANSPORT_PREFIX, before);
        assert messages + ([message.value] + Parse(TRANSPORT_PREFIX, buf).0)
            == (messages + [message.value]) + Parse(TRANSPORT_PREFIX, buf).0;
        messages := messages + [message.value];
      }
    }

    // However a stream is cut into chunks, the messages taken out and the bytes left are those of the
    // stream itself.
    method DrainAll(chunks: seq<seq<byte>>) returns (messages: seq<seq<byte>>)
      requires !Complete(TRANSPORT_PREFIX, buf)
      modifies this
      ensures (messages, buf) == Parse(TRANSPORT_PREFIX, old(buf) + Flatten(chunks))
      ensures !Complete(TRANSPORT_PREFIX, buf)
    {
      hide Complete, First, Parse, Frames, Frame;
      messages := [];
      ghost var start := buf;
      Unparsed(TRANSPORT_PREFIX, start);
      assert start + Flatten(chunks[..0]) == start;
      for i := 0 to |chunks|
        invariant (messages, buf) == Parse(TRANSPORT_PREFIX, start + Flatten(chunks[..i]))
      {
        ghost var so_far := start + Flatten(chunks[..i]);
        var more := PushAndDrain(chunks[i]);
        ParseSplit(TRANSPORT_PREFIX, so_far, chunks[i]);
        FlattenSnoc(chunks[..i], chunks[i]);
        assert chunks[..i + 1] == chunks[..i] + [chunks[i]];
        assert start + Flatten(chunks[..i + 1]) == so_far + chunks[i];
        messages := messages + more;
      }
      assert chunks[..|chunks|] == chunks;
      FramesOfParse(TRANSPORT_PREFIX, start + Flatten(chunks));
    }
  }

  // ---- Reading and writing one message at a time ----------------------------------------------------

  // A stream read and written in pieces whose sizes it chooses. `rest` is what is still to be read
  // before end of stream, and `sizes` how much each call moves; a zero there is the stream failing.
  class ByteStream {
    var rest: seq<byte>
    var accepted: seq<byte>
    // How much of what was accepted is known to have been sent on.
    var flushed: nat
    var sizes: seq<nat>

    // Whether it is to fail at all.
    static predicate Fails(sizes: seq<nat>)
    {
      0 in sizes
    }

    constructor (rest: seq<byte>, sizes: seq<nat>)
      ensures this.rest == rest && accepted == [] && flushed == 0 && this.sizes == sizes
    {
      this.rest, this.accepted, this.flushed, this.sizes := rest, [], 0, sizes;
    }

    method Choose(most: nat) returns (n: nat, ok: bool)
      requires most > 0
      modifies this`sizes
      ensures ok ==> 1 <= n <= most
      ensures !ok ==> Fails(old(sizes))
      ensures Fails(sizes) ==> Fails(old(sizes))
    {
      if sizes == [] {
        return most, true;
      }
      n := if sizes[0] < most then sizes[0] else most;
      sizes := sizes[1..];
      ok := n > 0;
    }

    // Up to `room` bytes; nothing only at end of stream.
    method Read(room: nat) returns (got: Result<seq<byte>, IoError>)
      requires room > 0
      modifies this`rest, this`sizes
      ensures got.Ok? ==> |got.value| <= room && old(rest) == got.value + rest
      ensures got.Ok? ==> (got.value == [] <==> old(rest) == [])
      ensures got.Err? ==> got.error == Link && old(rest) != [] && Fails(old(sizes))
      ensures Fails(sizes) ==> Fails(old(sizes))
    {
      if rest == [] {
        return Ok([]);
      }
      var n, ok := Choose(if room < |rest| then room else |rest|);
      if !ok {
        return Err(Link);
      }
      got := Ok(rest[..n]);
      rest := rest[n..];
    }

    // Exactly `room` bytes, or the error of a stream that stopped short of them.
    method ReadExact(room: nat) returns (got: Result<seq<byte>, IoError>)
      modifies this`rest, this`sizes
      ensures got.Ok? ==> |got.value| == room && old(rest) == got.value + rest
      ensures got == Err(UnexpectedEof) ==> |old(rest)| < room
      ensures got.Err? ==> got.error == UnexpectedEof || (got.error == Link && Fails(old(sizes)))
      ensures Fails(sizes) ==> Fails(old(sizes))
    {
      var out: seq<byte> := [];
      ghost var all := rest;
      while |out| < room
        invariant |out| <= room && all == out + rest
        invariant Fails(sizes) ==> Fails(old(sizes))
      {
        var more := Read(room - |out|);
        if more.Err? {
          return Err(more.error);
        }
        if more.value == [] {
          return Err(UnexpectedEof);
        }
        out := out + more.value;
      }
      return Ok(out);
    }

    method Flush() returns (r: Result<(), IoError>)
      modifies this`flushed, this`sizes
      ensures r.Ok? ==> flushed == |accepted|
      ensures r.Err? ==> r.error == Link && flushed == old(flushed) && Fails(old(sizes))
    {
      var _, ok := Choose(1);
      if !ok {
        return Err(Link);
      }
      flushed := |accepted|;
      return Ok(());
    }

    method WriteAll(bytes: seq<byte>) returns (r: Result<(), IoError>)
      modifies this`accepted, this`sizes
      ensures r.Ok? ==> accepted == old(accepted) + bytes
      ensures old(accepted) <= accepted <= old(accepted) + bytes
      ensures r.Err? ==> r.error == Link && Fails(old(sizes))
      ensures Fails(sizes) ==> Fails(old(sizes))
    {
      var sent := 0;
      ghost var start := accepted;
      while sent < |bytes|
        invariant sent <= |bytes| && accepted == start + bytes[..sent]
        invariant Fails(sizes) ==> Fails(old(sizes))
      {
        var n, ok := Choose(|bytes| - sent);
        if !ok {
          return Err(Link);
        }
        accepted := accepted + bytes[sent..sent + n];
        sent := sent + n;
      }
      return Ok(());
    }
  }

  // A message written is flushed, and one that could not be is not.
  method WriteDelimited(width: nat, stream: ByteStream, message: seq<byte>) returns (r: Result<(), IoError>)
    requires 1 <= width <= 4 && |message| < USIZE
    modifies stream`accepted, stream`flushed, stream`sizes
    ensures r == Err(InvalidInput) <==> |message| >= Pow256(width)
    ensures r == Err(InvalidInput) ==> stream.accepted == old(stream.accepted)
    ensures r.Ok? ==> |message| < Pow256(width) && stream.accepted == old(stream.accepted) + Frame(width, message)
    ensures r.Ok? ==> stream.flushed == |stream.accepted|
    ensures r.Err? ==> stream.flushed == old(stream.flushed)
    ensures r == Err(Link) ==> old(stream.accepted) <= stream.accepted <= old(stream.accepted) + Frame(width, message)
    ensures r.Err? ==> r.error == InvalidInput || (r.error == Link && ByteStream.Fails(old(stream.sizes)))
  {
    hide Pow256, BigEndian, DecodePrefix, EncodePrefix;
    EncodePrefixExact(width, |message|);
    var prefix := EncodePrefix(width, |message|);
    if prefix.Err? {
      return Err(InvalidInput);
    }
    r := stream.WriteAll(prefix.value);
    if r.Err? {
      return r;
    }
    r := stream.WriteAll(message);
    if r.Err? {
      return r;
    }
    r := stream.Flush();
  }

  // What reading one message off a stream that then ends yields: nothing at a boundary, the message
  // where it is all there, and an error wherever the stream was cut inside one.
  method ReadDelimited(width: nat, stream: ByteStream) returns (r: Result<Option<seq<byte>>, IoError>)
    requires 1 <= width <= 4
    modifies stream`rest, stream`sizes
    ensures r == Ok(None) ==> old(stream.rest) == []
    ensures r.Ok? && r.value.Some? ==>
              && Complete(width, old(stream.rest))
              && (r.value.value, stream.rest) == First(width, old(stream.rest))
    ensures r == Err(UnexpectedEof) ==> old(stream.rest) != [] && !Complete(width, old(stream.rest))
    ensures r.Err? ==> old(stream.rest) != []
    ensures r.Err? ==> r.error == UnexpectedEof || (r.error == Link && ByteStream.Fails(old(stream.sizes)))
    ensures ByteStream.Fails(stream.sizes) ==> ByteStream.Fails(old(stream.sizes))
  {
    ghost var all := stream.rest;
    var head := stream.Read(width);
    if head.Err? {
      return Err(head.error);
    }
    if head.value == [] {
      return Ok(None);
    }
    var tail := stream.ReadExact(width - |head.value|);
    if tail.Err? {
      return Err(tail.error);
    }
    var prefix := head.value + tail.value;
    assert all == prefix + stream.rest;
    assert all[..width] == prefix;
    var message := ReadBody(stream, DecodePrefix(prefix));
    if message.Err? {
      return Err(message.error);
    }
    FirstIs(width, prefix, message.value, stream.rest);
    assert all == prefix + (message.value + stream.rest);
    r := Ok(Some(message.value));
  }

  lemma FirstIs(width: nat, prefix: seq<byte>, message: seq<byte>, rest: seq<byte>)
    requires width >= 1 && |prefix| == width && |message| == DecodePrefix(prefix)
    ensures Complete(width, prefix + (message + rest))
    ensures First(width, prefix + (message + rest)) == (message, rest)
  {
    var all := prefix + (message + rest);
    assert all[..width] == prefix;
    assert all[width..width + |message|] == message;
    assert all[width + |message|..] == rest;
  }

  // The body grows by what has arrived, a chunk at a time, rather than by what was claimed.
  method ReadBody(stream: ByteStream, len: nat) returns (r: Result<seq<byte>, IoError>)
    modifies stream`rest, stream`sizes
    ensures r.Ok? ==> |r.value| == len && old(stream.rest) == r.value + stream.rest
    ensures r.Err? ==> r.error == UnexpectedEof || (r.error == Link && ByteStream.Fails(old(stream.sizes)))
    ensures ByteStream.Fails(stream.sizes) ==> ByteStream.Fails(old(stream.sizes))
    ensures r == Err(UnexpectedEof) ==> |old(stream.rest)| < len
  {
    ghost var body := stream.rest;
    var message: seq<byte> := [];
    var remaining := len;
    while remaining > 0
      invariant 0 <= remaining && remaining + |message| == len
      invariant body == message + stream.rest
      invariant ByteStream.Fails(stream.sizes) ==> ByteStream.Fails(old(stream.sizes))
    {
      var take := if remaining < READ_CHUNK then remaining else READ_CHUNK;
      var more := stream.ReadExact(take);
      if more.Err? {
        return Err(more.error);
      }
      message := message + more.value;
      remaining := remaining - take;
    }
    return Ok(message);
  }

  // Reading message after message to the end of a stream, as every stream handler does: the messages
  // are those `Parse` finds, and the end is clean exactly when `Parse` leaves nothing over.
  method ReadToEnd(width: nat, stream: ByteStream) returns (messages: seq<seq<byte>>, end: Result<(), IoError>)
    requires 1 <= width <= 4
    modifies stream`rest, stream`sizes
    ensures messages <= Parse(width, old(stream.rest)).0
    ensures end != Err(Link) ==> messages == Parse(width, old(stream.rest)).0
    ensures end.Ok? ==> Parse(width, old(stream.rest)).1 == []
    ensures end == Err(UnexpectedEof) ==> Parse(width, old(stream.rest)).1 != []
    ensures end.Err? ==> end.error == UnexpectedEof || (end.error == Link && ByteStream.Fails(old(stream.sizes)))
  {
    messages := [];
    ghost var all := Parse(width, stream.rest);
    while true
      invariant all.0 == messages + Parse(width, stream.rest).0
      invariant all.1 == Parse(width, stream.rest).1
      invariant ByteStream.Fails(stream.sizes) ==> ByteStream.Fails(old(stream.sizes))
      decreases |stream.rest|
    {
      ghost var before := stream.rest;
      var next := ReadDelimited(width, stream);
      if next.Err? {
        return messages, Err(next.error);
      }
      if next.value.None? {
        return messages, Ok(());
      }
      ParseStep(width, before);
      messages := messages + [next.value.value];
    }
  }

  // A stream of whole messages cut anywhere but at a boundary is neither a clean end nor complete, so
  // a reader that has taken the whole messages before the cut finds an error there.
  lemma CutIsNotClean(width: nat, messages: seq<seq<byte>>, last: seq<byte>, cut: nat)
    requires 1 <= width <= 4 && Fit(width, messages) && |last| < Pow256(width)
    requires 0 < cut < |Frame(width, last)|
    ensures var (taken, left) := Parse(width, Frames(width, messages) + Frame(width, last)[..cut]);
            taken == messages && left == Frame(width, last)[..cut] && left != [] && !Complete(width, left)
  {
    var part := Frame(width, last)[..cut];
    BigEndianDecodes(|last|, width);
    if |part| >= width {
      assert part[..width] == BigEndian(|last|, width);
    }
    ParseFrames(width, messages, part);
    assert messages + [] == messages;
  }
}
