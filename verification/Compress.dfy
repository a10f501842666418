/** The compression layer: one deflate stream per direction, for as long as the connection.

    The codec is abstract. Its encoder and decoder are functions of states that may hold bytes of their
    own, bound only by the contract of `Codec.Lawful`. */
module Compress {
  import opened Wrappers
  import opened Bytes
  import opened Transport

  const CHUNK: nat := 8192

  datatype Flush = NoFlush | Sync | Finish

  // A state of either half of a codec: what has gone in, what has come out, and whatever else it holds.
  datatype State = State(taken: seq<byte>, emitted: seq<byte>, held: int)

  // One call: the state after it, how much of the input it took, what it put out, and whether the
  // stream ended with it.
  datatype Step = Step(state: State, read: nat, out: seq<byte>, ended: bool)

  datatype Codec = Codec(
    deflating: (State, seq<byte>, Flush) -> Option<Step>,
    inflating: (State, seq<byte>, nat) -> Option<Step>,
    encoder: int,
    decoder: int,
    plainOf: seq<byte> -> seq<byte>,
    endsAt: seq<byte> -> bool,
    readableAs: seq<byte> -> bool,
    owing: (State, Flush) -> nat)
  {
    function Deflate(s: State, input: seq<byte>, flush: Flush): Option<Step> { deflating(s, input, flush) }

    function Inflate(s: State, input: seq<byte>, room: nat): Option<Step> { inflating(s, input, room) }

    // What some front part of a compressed stream decodes to.
    function Plain(stream: seq<byte>): seq<byte> { plainOf(stream) }

    // Whether the stream ends there.
    predicate Ends(stream: seq<byte>) { endsAt(stream) }

    // Whether it is the front part of something an encoder could write.
    predicate Readable(stream: seq<byte>) { readableAs(stream) }

    // A bound on the output an encoder still has to give.
    function Owed(s: State, flush: Flush): nat { owing(s, flush) }

    // No front part of a stream ends it.
    ghost predicate Unended(stream: seq<byte>)
    {
      forall p | p <= stream :: !Ends(p)
    }

    ghost predicate EndsOnlyWhole(stream: seq<byte>)
    {
      Ends(stream) && forall p | p < stream :: !Ends(p)
    }

    // An encoder still going: what is out says only what went in, and is no end.
    ghost predicate Going(s: State)
    {
      Plain(s.emitted) <= s.taken && Unended(s.emitted) && Readable(s.emitted)
    }

    // An encoder that ended: what is out is an end, and says all that went in.
    ghost predicate Over(s: State)
    {
      Plain(s.emitted) == s.taken && EndsOnlyWhole(s.emitted) && Readable(s.emitted)
    }

    // A decoder: what is out is the front of what the input it took says, and it took nothing past an end.
    ghost predicate Decoding(s: State)
    {
      s.emitted <= Plain(s.taken) && forall p | p < s.taken :: !Ends(p)
    }

    ghost predicate Lawful()
    {
      && Plain([]) == [] && !Ends([]) && Readable([])
      && (forall a, b | a <= b :: Plain(a) <= Plain(b))
      && (forall a, b | a <= b && Readable(b) :: Readable(a))
      && (forall s, input, flush :: Going(s) ==> DeflateLaw(s, input, flush, Deflate(s, input, flush)))
      && (forall s, input, room :: Decoding(s) && room > 0 ==> InflateLaw(s, input, room, Inflate(s, input, room)))
    }

    // Whether there is any call at which the encoder fails, or stops short of the end it was asked for.
    ghost predicate CanFail()
    {
      exists s, input, flush :: FailsAt(s, input, flush)
    }

    ghost predicate FailsAt(s: State, input: seq<byte>, flush: Flush)
    {
      var step := Deflate(s, input, flush);
      step.None? || (flush.Finish? && !step.value.ended && |step.value.out| < CHUNK)
    }

    ghost predicate DeflateLaw(s: State, input: seq<byte>, flush: Flush, r: Option<Step>)
    {
      r.Some? ==>
        var t := r.value;
        && t.read <= |input| && |t.out| <= CHUNK
        && t.state.taken == s.taken + input[..t.read]
        && t.state.emitted == s.emitted + t.out
        && (t.ended ==> flush.Finish? && t.read == |input| && Over(t.state))
        && (!t.ended ==> Going(t.state))
        // With input and room it makes progress, and it does not put out full chunks for ever.
        && (flush.NoFlush? && input != [] ==> t.read > 0 || |t.out| == CHUNK)
        && (|t.out| == CHUNK && t.read == 0 && !t.ended ==> Owed(t.state, flush) < Owed(s, flush))
        // A sync flush with room to spare has put everything taken where a decoder can read it.
        && (flush.Sync? && input == [] && |t.out| < CHUNK ==> Plain(t.state.emitted) == t.state.taken)
    }

    ghost predicate InflateLaw(s: State, input: seq<byte>, room: nat, r: Option<Step>)
    {
      && (Readable(s.taken + input) ==> r.Some?)
      && (r.Some? ==>
            var t := r.value;
            && t.read <= |input| && |t.out| <= room
            && t.state.taken == s.taken + input[..t.read]
            && t.state.emitted == s.emitted + t.out
            && Decoding(t.state)
            && (t.ended ==> Ends(t.state.taken) && t.state.emitted == Plain(t.state.taken))
            // Idle only with no input left, nothing held back, and the end, if this is one, reported.
            && (t.read == 0 && t.out == [] && !t.ended ==>
                  input == [] && s.emitted == Plain(s.taken) && !Ends(s.taken)))
    }
  }

  lemma Deflates(codec: Codec, s: State, input: seq<byte>, flush: Flush)
    requires codec.Lawful() && codec.Going(s)
    ensures codec.DeflateLaw(s, input, flush, codec.Deflate(s, input, flush))
  {
  }

  lemma Inflates(codec: Codec, s: State, input: seq<byte>, room: nat)
    requires codec.Lawful() && codec.Decoding(s) && room > 0
    ensures codec.InflateLaw(s, input, room, codec.Inflate(s, input, room))
  {
  }

  // What one call of the decoder leaves of what has been received.
  lemma Advances(codec: Codec, s: State, input: seq<byte>, room: nat, t: Step)
    requires codec.InflateLaw(s, input, room, Some(t))
    ensures t.read <= |input| && |t.out| <= room && codec.Decoding(t.state)
    ensures t.state.taken + input[t.read..] == s.taken + input && t.state.emitted == s.emitted + t.out
    ensures |t.state.taken| == |s.taken| + t.read
    ensures t.ended ==> codec.Ends(t.state.taken) && t.state.emitted == codec.Plain(t.state.taken)
    ensures t.read == 0 && t.out == [] && !t.ended ==>
              && t.state.taken == s.taken == s.taken + input
              && t.state.emitted == codec.Plain(s.taken) && !codec.Ends(s.taken)
  {
    hide Codec.Decoding;
    assert input == input[..t.read] + input[t.read..];
  }

  lemma Refuses(codec: Codec, s: State, input: seq<byte>, room: nat)
    requires codec.InflateLaw(s, input, room, None)
    ensures !codec.Readable(s.taken + input)
  {
  }

  class CompressStream {
    const codec: Codec
    const inner: Link
    const out: WriteBacklog
    var enc: State
    var dec: State
    var dirty: bool
    var finished: bool
    var inBuf: seq<byte>
    var inStart: nat
    var readEof: bool
    var streamEnd: bool
    // How much had been taken when the stream was last made readable by a sync or a finish.
    ghost var settled: nat

    ghost predicate Valid()
      reads this, inner, out
    {
      codec.Lawful() && Writing() && Reading()
    }

    ghost predicate Writing()
      reads this, inner, out
    {
      Sending() && Settled()
    }

    // Every byte of the stream put out is the transport's or waits for it.
    ghost predicate Sending()
      reads this, inner, out
    {
      && out.Valid()
      && inner.accepted + out.Waiting() == enc.emitted
      && (if finished then codec.Over(enc) else codec.Going(enc))
    }

    // What has been written since the last sync or finish is what `dirty` says.
    ghost predicate Settled()
      reads this
    {
      && (finished ==> !dirty)
      && (!dirty ==> codec.Plain(enc.emitted) == enc.taken)
      && settled <= |enc.taken|
      && (dirty <==> settled < |enc.taken|)
    }

    // What is left of `Valid` where the encoder failed part way through a call.
    ghost predicate Holds()
      reads this, inner, out
    {
      codec.Lawful() && Sending() && Reading()
    }

    ghost predicate Reading()
      reads this, inner
    {
      && inStart <= |inBuf|
      && inner.received == dec.taken + inBuf[inStart..]
      && codec.Decoding(dec)
      && (streamEnd ==> codec.Ends(dec.taken) && dec.emitted == codec.Plain(dec.taken))
      && (readEof ==> inner.ended && inner.incoming == [])
    }

    // Nothing more can come of what has been received.
    ghost predicate Dry()
      reads this, inner
    {
      dec.taken == inner.received && dec.emitted == codec.Plain(dec.taken) && !codec.Ends(dec.taken)
    }

    constructor (codec: Codec, inner: Link)
      requires codec.Lawful() && inner.accepted == [] && inner.received == []
      ensures Valid() && this.codec == codec && this.inner == inner && fresh(out)
      ensures enc.taken == [] && dec.emitted == [] && !finished && !streamEnd
    {
      this.codec, this.inner := codec, inner;
      out := new WriteBacklog();
      enc, dec := State([], [], codec.encoder), State([], [], codec.decoder);
      dirty, finished, inBuf, inStart, readEof, streamEnd := false, false, [], 0, false, false;
      settled := 0;
    }

    // ---- The write direction ---------------------------------------------------------------------

    // One step of the encoder, its output queued behind what already waits.
    method Deflate(input: seq<byte>, flush: Flush) returns (r: Result<Step, IoError>)
      requires codec.Lawful() && out.Valid() && codec.Going(enc)
      requires inner.accepted + out.Waiting() == enc.emitted
      modifies this`enc, out
      ensures out.Valid() && inner.accepted + out.Waiting() == enc.emitted
      ensures r.Err? ==> enc == old(enc) && r.error == Other && codec.CanFail()
      ensures r.Ok? && flush.Finish? && !r.value.ended && |r.value.out| < CHUNK ==> codec.CanFail()
      ensures r.Ok? ==> enc == r.value.state && codec.DeflateLaw(old(enc), input, flush, Some(r.value))
    {
      Deflates(codec, enc, input, flush);
      var step := codec.Deflate(enc, input, flush);
      assert codec.FailsAt(enc, input, flush) ==> codec.CanFail();
      if step.None? {
        return Err(Other);
      }
      ghost var waiting := out.Waiting();
      out.Extend(step.value.out);
      assert inner.accepted + (waiting + step.value.out) == (inner.accepted + waiting) + step.value.out;
      enc := step.value.state;
      return Ok(step.value);
    }

    // Runs all of `input` through the deflate context. It never stops short of it.
    method CompressInput(input: seq<byte>) returns (r: Result<nat, IoError>)
      requires codec.Lawful() && out.Valid() && codec.Going(enc) && input != []
      requires inner.accepted + out.Waiting() == enc.emitted
      modifies this`enc, out
      ensures out.Valid() && codec.Going(enc) && inner.accepted + out.Waiting() == enc.emitted
      ensures old(enc.emitted) <= enc.emitted
      ensures r.Ok? ==> r.value == |input| && enc.taken == old(enc.taken) + input
      ensures r.Err? ==> r.error == Other && codec.CanFail() && enc.taken <= old(enc.taken) + input
    {
      hide Codec.CanFail, Codec.Lawful, Codec.Going, Codec.Over, Codec.Decoding;
      var offset := 0;
      while true
        invariant offset <= |input| && out.Valid() && codec.Going(enc)
        invariant inner.accepted + out.Waiting() == enc.emitted
        invariant enc.taken == old(enc.taken) + input[..offset]
        invariant old(enc.emitted) <= enc.emitted
        decreases |input| - offset, codec.Owed(enc, NoFlush)
      {
        var step := Deflate(input[offset..], NoFlush);
        if step.Err? {
          return Err(step.error);
        }
        var read, wrote := step.value.read, |step.value.out|;
        assert input[..offset + read] == input[..offset] + input[offset..][..read];
        offset := offset + read;
        if (offset >= |input| && wrote < CHUNK) || (read == 0 && wrote == 0) {
          assert input[..offset] == input;
          return Ok(offset);
        }
      }
    }

    // Flushes the deflate context, and says whether that ended the stream.
    method FlushCompress(flush: Flush) returns (r: Result<bool, IoError>)
      requires codec.Lawful() && out.Valid() && codec.Going(enc) && !flush.NoFlush?
      requires inner.accepted + out.Waiting() == enc.emitted
      modifies this`enc, out
      ensures out.Valid() && inner.accepted + out.Waiting() == enc.emitted
      ensures old(enc.emitted) <= enc.emitted && enc.taken == old(enc.taken)
      ensures r.Ok? && r.value ==> flush.Finish? && codec.Over(enc)
      ensures r.Err? || !r.value ==> codec.Going(enc)
      ensures r.Ok? && flush.Sync? ==> codec.Plain(enc.emitted) == enc.taken
      ensures r.Err? ==> r.error == Other && codec.CanFail()
      ensures r == Ok(false) && flush.Finish? ==> codec.CanFail()
    {
      hide Codec.CanFail, Codec.Lawful, Codec.Going, Codec.Over, Codec.Decoding;
      while true
        invariant out.Valid() && codec.Going(enc)
        invariant inner.accepted + out.Waiting() == enc.emitted
        invariant old(enc.emitted) <= enc.emitted && enc.taken == old(enc.taken)
        decreases codec.Owed(enc, flush)
      {
        var step := Deflate([], flush);
        if step.Err? {
          return Err(step.error);
        }
        if step.value.ended {
          return Ok(true);
        }
        if |step.value.out| < CHUNK {
          return Ok(false);
        }
      }
    }

    // All of a write goes through the encoder, or the encoder failed.
    method TakeIn(buf: seq<byte>) returns (r: Result<nat, IoError>)
      requires Valid() && !finished && buf != []
      modifies this`enc, this`dirty, out
      ensures Holds() && old(enc.emitted) <= enc.emitted
      ensures r.Ok? ==> Valid() && r.value == |buf| && enc.taken == old(enc.taken) + buf
      ensures r.Err? ==> r.error == Other && codec.CanFail() && enc.taken <= old(enc.taken) + buf
    {
      hide Codec.CanFail, Codec.Lawful, Codec.Going, Codec.Over, Codec.Decoding;
      var consumed := CompressInput(buf);
      if consumed.Err? {
        return Err(consumed.error);
      }
      if consumed.value == 0 {
        return Err(Other);
      }
      dirty := true;
      return consumed;
    }

    // A write takes all of what it is given, or, while the backlog is not the transport's, nothing. A
    // stream once finished takes no more.
    method PollWrite(buf: seq<byte>) returns (r: Poll<nat>)
      requires Valid()
      modifies this`enc, this`dirty, out, inner`accepted, inner`writeScript
      ensures Holds() && (r != Failed(Other) ==> Valid())
      ensures r.Done? ==> r.value == |buf| && enc.taken == old(enc.taken) + buf && (buf != [] ==> !old(finished))
      ensures r.Pending? ==> enc == old(enc) && out.Waiting() != []
      ensures r.Failed? && r.error != Other ==> enc.taken == old(enc.taken) || enc.taken == old(enc.taken) + buf
      ensures old(finished) ==> enc == old(enc) && (buf != [] ==> r == Failed(BrokenPipe))
      ensures WriteExcused(old(inner.writeScript), inner.writeScript, r)
      ensures r == Failed(Other) ==> codec.CanFail()
      ensures r.Failed? ==> r.error in {WriteZero, IoError.Link, Other} || (r.error == BrokenPipe && old(finished))
      ensures r.Done? && buf != [] ==>
                out.Waiting() == [] || Asked(old(inner.writeScript), inner.writeScript, Stall)
    {
      hide Codec.CanFail, Codec.Lawful, Codec.Going, Codec.Over, Codec.Decoding, Later, Asked;
      LaterStart(inner.writeScript);
      if buf == [] {
        assert enc.taken == old(enc.taken) + buf;
        return Done(0);
      }
      if finished {
        return Failed(BrokenPipe);
      }
      var drained := out.PollDrain(inner);
      ghost var between := inner.writeScript;
      if drained.Pending? {
        return Pending;
      }
      if drained.Failed? {
        return Failed(drained.error);
      }
      var consumed := TakeIn(buf);
      if consumed.Err? {
        return Failed(consumed.error);
      }
      var more := out.PollDrain(inner);
      ExcusedLater(old(inner.writeScript), between, inner.writeScript, more);
      if more.Failed? {
        return Failed(more.error);
      }
      return Done(consumed.value);
    }

    // With nothing new written, the encoder is not called at all.
    method SyncIfDirty() returns (r: Result<(), IoError>)
      requires Valid()
      modifies this`enc, this`dirty, this`settled, out
      ensures Holds() && enc.taken == old(enc.taken) && old(enc.emitted) <= enc.emitted
      ensures r.Ok? ==> Valid() && !dirty
      ensures r.Err? ==> r.error == Other && codec.CanFail()
      ensures !old(dirty) ==> r.Ok? && enc == old(enc)
    {
      hide Codec.CanFail, Codec.Lawful, Codec.Going, Codec.Over, Codec.Decoding;
      if dirty && !finished {
        var flushed := FlushCompress(Sync);
        if flushed.Err? {
          return Err(flushed.error);
        }
        dirty := false;
        settled := |enc.taken|;
      }
      return Ok(());
    }

    // When ready, what the transport has decodes to all that was written.
    method PollFlush() returns (r: Poll<()>)
      requires Valid()
      modifies this`enc, this`dirty, this`settled, out, inner`accepted, inner`writeScript, inner`flushed
      ensures Holds() && (r != Failed(Other) ==> Valid() && !dirty)
      ensures WriteExcused(old(inner.writeScript), inner.writeScript, r)
      ensures r == Failed(Other) ==> codec.CanFail()
      ensures r.Failed? ==> r.error in {WriteZero, IoError.Link, Other}
      ensures r.Done? ==> inner.flushed == |inner.accepted|
      ensures enc.taken == old(enc.taken)
      ensures !old(dirty) ==> enc == old(enc)
      ensures r.Done? ==> inner.accepted == enc.emitted && codec.Plain(inner.accepted) == enc.taken
    {
      hide Codec.CanFail, Codec.Lawful, Codec.Going, Codec.Over, Codec.Decoding, Later, Asked;
      LaterStart(inner.writeScript);
      var synced := SyncIfDirty();
      if synced.Err? {
        return Failed(synced.error);
      }
      r := out.PollDrain(inner);
      if r.Done? {
        ghost var between := inner.writeScript;
        AskedOnce(between);
        r := inner.PollFlush();
        ExcusedLater(old(inner.writeScript), between, inner.writeScript, r);
      }
    }

    // A stream is finished once, and only where the encoder ended it.
    method FinishOnce() returns (r: Result<(), IoError>)
      requires Valid()
      modifies this`enc, this`dirty, this`finished, this`settled, out
      ensures Holds() && enc.taken == old(enc.taken) && old(enc.emitted) <= enc.emitted
      ensures r.Ok? ==> Valid() && finished && codec.Over(enc)
      ensures r.Err? ==> r.error == Other && codec.CanFail() && !finished
      ensures old(finished) ==> r.Ok? && enc == old(enc)
    {
      hide Codec.CanFail, Codec.Lawful, Codec.Going, Codec.Decoding, Codec.EndsOnlyWhole;
      if !finished {
        var ended := FlushCompress(Finish);
        if ended.Err? || !ended.value {
          return Err(Other);
        }
        finished := true;
        dirty := false;
        settled := |enc.taken|;
      }
      return Ok(());
    }

    // A close that is ready has handed the transport the whole stream and its end.
    method PollClose() returns (r: Poll<()>)
      requires Valid()
      modifies this`enc, this`dirty, this`finished, this`settled, out
      modifies inner`accepted, inner`writeScript, inner`flushed, inner`closed
      ensures Holds() && (r != Failed(Other) ==> Valid() && finished)
      ensures WriteExcused(old(inner.writeScript), inner.writeScript, r)
      ensures r == Failed(Other) ==> codec.CanFail()
      ensures r.Failed? ==> r.error in {WriteZero, IoError.Link, Other}
      ensures r.Done? ==> inner.flushed == |inner.accepted| && inner.closed
      ensures enc.taken == old(enc.taken)
      ensures old(finished) ==> enc == old(enc)
      ensures r == Failed(Other) ==> !finished
      ensures r.Done? ==> inner.accepted == enc.emitted && codec.Over(enc)
    {
      hide Codec.CanFail, Codec.Lawful, Codec.Going, Codec.Over, Codec.Decoding, Codec.EndsOnlyWhole, Later, Asked;
      LaterStart(inner.writeScript);
      var ended := FinishOnce();
      if ended.Err? {
        return Failed(ended.error);
      }
      r := out.PollDrain(inner);
      if r.Done? {
        ghost var between := inner.writeScript;
        AskedOnce(between);
        r := inner.PollClose();
        ExcusedLater(old(inner.writeScript), between, inner.writeScript, r);
      }
    }

    // ---- The read direction ----------------------------------------------------------------------

    // Takes one call of the decoder, which is given whatever is buffered, even nothing.
    method Inflate(room: nat) returns (r: Result<Step, IoError>)
      requires Valid() && !streamEnd && room > 0
      modifies this`dec, this`inBuf, this`inStart, this`streamEnd
      ensures Valid()
      ensures r.Err? ==> r.error == InvalidData && dec == old(dec) && !codec.Readable(inner.received) && !streamEnd
      ensures r.Ok? ==>
                && dec == r.value.state && streamEnd == r.value.ended
                && |r.value.out| <= room && dec.emitted == old(dec.emitted) + r.value.out
                && (r.value.read > 0 ==> |dec.taken| > |old(dec.taken)|)
                && (r.value.read == 0 && r.value.out == [] && !streamEnd ==> Dry() && dec.taken == old(dec.taken))
    {
      hide Codec.CanFail, Codec.Lawful, Codec.Going, Codec.Over, Codec.Decoding, Codec.InflateLaw;
      ghost var input := inBuf[inStart..];
      Inflates(codec, dec, input, room);
      var step := codec.Inflate(dec, inBuf[inStart..], room);
      if step.None? {
        Refuses(codec, dec, input, room);
        return Err(InvalidData);
      }
      var t := step.value;
      Advances(codec, dec, input, room, t);
      assert input[t.read..] == inBuf[inStart + t.read..];
      dec := t.state;
      inStart := inStart + t.read;
      if inStart == |inBuf| {
        inBuf, inStart := [], 0;
      }
      if t.ended {
        streamEnd := true;
      }
      return Ok(t);
    }

    // What the transport brought is kept to be decoded, and bringing nothing is its end.
    method Keep(got: seq<byte>)
      requires codec.Lawful() && Writing() && codec.Decoding(dec) && inStart <= |inBuf| && !readEof && !streamEnd
      requires inner.received == dec.taken + inBuf[inStart..] + got
      requires got == [] ==> inner.ended && inner.incoming == []
      modifies this`inBuf, this`readEof
      ensures Valid() && (readEof <==> got == [])
    {
      hide Codec.CanFail, Codec.Lawful, Codec.Going, Codec.Over, Codec.Decoding;
      if got == [] {
        readEof := true;
      } else {
        ghost var front := inBuf[inStart..];
        assert (inBuf + got)[inStart..] == front + got;
        assert dec.taken + (front + got) == inner.received;
        inBuf := inBuf + got;
      }
    }

    // Everything received has gone to the decoder.
    lemma DryIsEmpty()
      requires Valid() && Dry()
      ensures inBuf[inStart..] == [] && dec.taken == inner.received
    {
      hide Codec.CanFail, Codec.Lawful, Codec.Going, Codec.Over, Codec.Decoding;
      assert |inner.received| == |dec.taken| + |inBuf[inStart..]|;
    }

    // The transport is pulled on only where nothing more can come of what it has already handed up, and
    // never again after its end or the stream's.
    method Pull() returns (r: Poll<()>)
      requires Valid() && Dry() && !readEof && !streamEnd
      modifies this`inBuf, this`readEof, inner`received, inner`incoming, inner`readScript
      ensures Valid() && old(inner.received) <= inner.received
      ensures r.Done? && !readEof ==> |inner.incoming| < |old(inner.incoming)|
      ensures r.Done? && readEof ==> Dry()
      ensures !r.Done? ==> Dry() && !readEof
      ensures r.Failed? ==> r.error == IoError.Link
      ensures ReadExcused(old(inner.readScript), inner.readScript, inner.incoming, inner.ended, r)
      ensures inner.received + inner.incoming == old(inner.received) + old(inner.incoming)
      ensures Thrifty(old(inner.readScript), inner.readScript, old(inner.incoming), inner.incoming,
                      !r.Done? || readEof)
    {
      hide Codec.CanFail, Codec.Lawful, Codec.Going, Codec.Over, Codec.Decoding, Later, Asked, Moved;
      AskedOnce(inner.readScript);
      DryIsEmpty();
      var got := inner.PollRead(CHUNK);
      if got.Pending? {
        return Pending;
      }
      if got.Failed? {
        return Failed(got.error);
      }
      assert dec.taken + [] + got.value == dec.taken + got.value;
      Keep(got.value);
      assert got.value == [] ==> inner.received == old(inner.received);
      return Done(());
    }

    // What is decoded is handed up before the transport is pulled on: the answer, or none where only more from
    // the transport could bring one.
    method Advance(room: nat) returns (r: Option<Poll<seq<byte>>>)
      requires Valid() && room > 0
      modifies this`dec, this`inBuf, this`inStart, this`streamEnd
      ensures Valid() && (old(streamEnd) ==> streamEnd)
      ensures r.None? ==> Dry() && !readEof && !streamEnd && dec.emitted == old(dec.emitted)
      ensures r.Some? ==> !r.value.Pending?
      ensures r.Some? && r.value.Done? ==>
                && |r.value.value| <= room && dec.emitted == old(dec.emitted) + r.value.value
                && (r.value.value == [] ==> streamEnd || (readEof && inner.received == []))
      ensures r.Some? && r.value.Failed? ==> dec.emitted == old(dec.emitted)
      ensures r == Some(Failed(UnexpectedEof)) ==> readEof && Dry() && inner.received != []
      ensures r == Some(Failed(InvalidData)) ==> !codec.Readable(inner.received)
      ensures r.Some? && r.value.Failed? ==> r.value.error in {UnexpectedEof, InvalidData}
    {
      hide Codec.CanFail, Codec.Lawful, Codec.Going, Codec.Over, Codec.Decoding;
      while true
        invariant Valid() && (old(streamEnd) ==> streamEnd) && dec.emitted == old(dec.emitted)
        decreases |inner.received| - |dec.taken|
      {
        assert dec.emitted == old(dec.emitted) + [];
        if streamEnd {
          return Some(Done([]));
        }
        var step := Inflate(room);
        if step.Err? {
          return Some(Failed(step.error));
        }
        if step.value.out != [] {
          return Some(Done(step.value.out));
        }
        assert dec.emitted == old(dec.emitted) + [];
        if streamEnd {
          return Some(Done([]));
        }
        if step.value.read > 0 {
          continue;
        }
        if readEof {
          if streamEnd || dec.taken == [] {
            return Some(Done([]));
          }
          return Some(Failed(UnexpectedEof));
        }
        return None;
      }
    }

    // Nothing is handed up only at the end of the stream, or where the transport ended having brought no byte
    // of one; a transport that ends anywhere else is a truncation.
    method PollRead(room: nat) returns (r: Poll<seq<byte>>)
      requires Valid()
      modifies this`dec, this`inBuf, this`inStart, this`readEof, this`streamEnd
      modifies inner`received, inner`incoming, inner`readScript
      ensures Valid() && old(inner.received) <= inner.received
      ensures old(streamEnd) || old(readEof) ==> inner.received == old(inner.received)
      ensures r.Done? ==> |r.value| <= room && dec.emitted == old(dec.emitted) + r.value
      ensures !r.Done? ==> dec.emitted == old(dec.emitted)
      ensures r == Done([]) ==> room == 0 || streamEnd || (readEof && inner.received == [])
      ensures room == 0 ==> r == Done([]) && dec == old(dec) && inner.received == old(inner.received)
      ensures r == Failed(UnexpectedEof) ==> readEof && Dry() && inner.received != []
      ensures r.Pending? ==> Dry()
      ensures old(readEof) ==> readEof && !r.Pending? && r != Failed(IoError.Link)
      ensures r == Failed(InvalidData) ==> !codec.Readable(inner.received)
      ensures r.Failed? ==> r.error in {UnexpectedEof, InvalidData, IoError.Link}
      ensures ReadExcused(old(inner.readScript), inner.readScript, inner.incoming, inner.ended, r)
      ensures r == Failed(IoError.Link) ==> Dry()
      ensures inner.received + inner.incoming == old(inner.received) + old(inner.incoming)
      ensures readEof && !old(readEof) ==> inner.ended && inner.incoming == []
      ensures !readEof ==> Thrifty(old(inner.readScript), inner.readScript, old(inner.incoming), inner.incoming,
                                   !r.Done? || r.value == [])
    {
      hide Codec.CanFail, Codec.Lawful, Codec.Going, Codec.Over, Codec.Decoding, Later, Asked, Moved;
      LaterStart(inner.readScript);
      if room == 0 {
        assert dec.emitted == old(dec.emitted) + [];
        return Done([]);
      }
      while true
        invariant Valid() && old(inner.received) <= inner.received
        invariant old(streamEnd) ==> streamEnd
        invariant old(readEof) ==> readEof
        invariant old(streamEnd) || old(readEof) ==> inner.received == old(inner.received)
        invariant dec.emitted == old(dec.emitted)
        invariant inner.received + inner.incoming == old(inner.received) + old(inner.incoming)
        invariant Later(old(inner.readScript), inner.readScript)
        invariant Thrifty(old(inner.readScript), inner.readScript, old(inner.incoming), inner.incoming, readEof)
        decreases |inner.incoming|, !readEof
      {
        var answer := Advance(room);
        if answer.Some? {
          return answer.value;
        }
        ghost var between := inner.readScript;
        var pulled := Pull();
        ReadExcusedLater(old(inner.readScript), between, inner.readScript, inner.incoming, inner.ended, pulled);
        if pulled.Pending? {
          return Pending;
        }
        if pulled.Failed? {
          return Failed(pulled.error);
        }
      }
    }
  }

  // ---- Two ends of one stream ------------------------------------------------------------------------

  /** What a reader handed any front part of a writer's output can know. What it has given out is a front
      part of what was written; it never finds the bytes unreadable; it is at the end of the stream only
      if the writer finished it, and then it has given out everything, in order; and once everything the
      writer put out when it last flushed has been decoded, it has given out everything written by then. */
  lemma EndToEnd(codec: Codec, enc: State, finished: bool, received: seq<byte>, dec: State)
    requires codec.Lawful()
    requires if finished then codec.Over(enc) else codec.Going(enc)
    requires codec.Decoding(dec) && dec.taken <= received <= enc.emitted
    ensures dec.emitted <= enc.taken
    ensures codec.Readable(received)
    ensures codec.Ends(dec.taken) ==> finished && dec.taken == received == enc.emitted
    ensures codec.Ends(dec.taken) && dec.emitted == codec.Plain(dec.taken) ==> dec.emitted == enc.taken
    ensures dec.taken == enc.emitted && dec.emitted == codec.Plain(dec.taken)
            && codec.Plain(enc.emitted) == enc.taken ==>
              dec.emitted == enc.taken
  {
    assert dec.taken <= enc.emitted;
    assert codec.Plain(dec.taken) <= codec.Plain(enc.emitted);
    if codec.Ends(dec.taken) {
      assert !(dec.taken < enc.emitted);
      assert dec.taken == enc.emitted;
    }
  }

  /** The two ends at any moment of any run of polls. A reader that has been handed any bytes at all reads
      a clean end only of a conversation that was finished, all of which it has been given; a transport cut
      short of the finished stream leaves it truncated, never ended. */
  lemma CleanEndIsWhole(writer: CompressStream, reader: CompressStream)
    requires writer.Valid() && reader.Valid() && writer.codec == reader.codec
    requires reader.inner.received <= writer.inner.accepted
    ensures reader.dec.emitted <= writer.enc.taken
    ensures reader.streamEnd ==>
              && writer.finished && writer.inner.accepted == reader.inner.received
              && reader.dec.emitted == writer.enc.taken
    ensures CanRead(reader)
    ensures reader.inner.received < writer.enc.emitted || !writer.finished ==> !reader.streamEnd
    ensures reader.Dry() && reader.inner.received == writer.enc.emitted && !writer.dirty ==>
              !writer.finished && reader.dec.emitted == writer.enc.taken
  {
    assert writer.inner.accepted <= writer.enc.emitted;
    assert reader.dec.taken <= reader.inner.received;
    EndToEnd(writer.codec, writer.enc, writer.finished, reader.inner.received, reader.dec);
  }

  ghost predicate CanRead(reader: CompressStream)
    reads reader, reader.inner
  {
    reader.codec.Readable(reader.inner.received)
  }

  // The transport has ended, on bytes that are readable and are no whole stream.
  ghost predicate CutShort(reader: CompressStream)
    reads reader, reader.inner
  {
    reader.readEof && reader.inner.received != []
    && reader.codec.Readable(reader.inner.received) && reader.codec.Unended(reader.inner.received)
  }

  /** A transport that ends on anything but the whole of a finished stream, having brought some of it, has cut
      the stream short. */
  lemma AnyCutIsShort(writer: CompressStream, reader: CompressStream)
    requires writer.Valid() && reader.Valid() && writer.codec == reader.codec
    requires reader.readEof && reader.inner.received != [] && reader.inner.received <= writer.inner.accepted
    requires !writer.finished || reader.inner.received != writer.enc.emitted
    ensures CutShort(reader)
  {
    var codec, received, emitted := reader.codec, reader.inner.received, writer.enc.emitted;
    assert received <= emitted;
    forall p | p <= received ensures !codec.Ends(p) {
      if writer.finished {
        assert p < emitted;
      } else {
        assert p <= emitted;
      }
    }
  }

  /** Reading on from there gives the rest of what the bytes say and then, always and only then, the error of a
      stream that stopped short: never a clean end, and nothing held back. */
  method ReadOut(reader: CompressStream, room: nat) returns (rest: seq<byte>, end: Poll<seq<byte>>)
    requires reader.Valid() && CutShort(reader) && room > 0
    modifies reader`dec, reader`inBuf, reader`inStart, reader`readEof, reader`streamEnd
    modifies reader.inner`received, reader.inner`incoming, reader.inner`readScript
    ensures reader.Valid() && CutShort(reader) && reader.inner.received == old(reader.inner.received)
    ensures end == Failed(UnexpectedEof)
    ensures old(reader.dec.emitted) + rest == reader.codec.Plain(reader.inner.received)
  {
    rest := [];
    hide Codec.Lawful, Codec.Going, Codec.Over;
    while true
      invariant reader.Valid() && CutShort(reader) && reader.inner.received == old(reader.inner.received)
      invariant reader.dec.emitted == old(reader.dec.emitted) + rest
      decreases |reader.codec.Plain(reader.inner.received)| - |reader.dec.emitted|
    {
      Unfinished(reader);
      end := reader.PollRead(room);
      Unfinished(reader);
      if !end.Done? {
        return;
      }
      rest := rest + end.value;
    }
  }

  // A reader cut short is never at the end of its stream, and has given out no more than its bytes say.
  lemma Unfinished(reader: CompressStream)
    requires reader.Valid() && CutShort(reader)
    ensures !reader.streamEnd && reader.dec.emitted <= reader.codec.Plain(reader.inner.received)
  {
    assert reader.dec.taken <= reader.inner.received;
    assert reader.codec.Plain(reader.dec.taken) <= reader.codec.Plain(reader.inner.received);
  }
}
