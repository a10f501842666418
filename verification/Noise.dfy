/** The encrypted byte stream: each write sealed into one framed message, reads reassembled and opened.

    The cipher is abstract: a pair of functions of a message counter, lawful when opening under the
    counter a message was sealed with gives the message back. */
module Noise {
  import opened Wrappers
  import opened Bytes
  import opened Framing
  import opened Transport

  const MAX_NOISE_MESSAGE: nat := 65535
  const TAG_LEN: nat := 16
  const MAX_PLAINTEXT: nat := MAX_NOISE_MESSAGE - TAG_LEN

  datatype Aead = Aead(seal: (nat, seq<byte>) -> Option<seq<byte>>, open: (nat, seq<byte>) -> Option<seq<byte>>)
  {
    // Sealing may fail, as a cipher out of counters does, and what it seals is longer by the tag.
    ghost predicate Lawful()
    {
      forall n: nat, p: seq<byte> :: seal(n, p).Some? ==>
        |seal(n, p).value| == |p| + TAG_LEN && open(n, seal(n, p).value) == Some(p)
    }

    // Whether there is any plaintext it refuses to seal.
    ghost predicate CanRefuse()
    {
      exists n: nat, p :: |p| <= MAX_PLAINTEXT && seal(n, p).None?
    }
  }

  // ---- What each direction has done, as pure histories -----------------------------------------------

  // The plaintexts of a run, each sealed under its place in the run.
  ghost predicate Sealable(aead: Aead, chunks: seq<seq<byte>>)
  {
    forall i | 0 <= i < |chunks| :: |chunks[i]| <= MAX_PLAINTEXT && aead.seal(i, chunks[i]).Some?
  }

  ghost function Sealed(aead: Aead, chunks: seq<seq<byte>>): (r: seq<seq<byte>>)
    requires Sealable(aead, chunks)
    ensures |r| == |chunks|
  {
    seq(|chunks|, i requires 0 <= i < |chunks| => aead.seal(i, chunks[i]).value)
  }

  ghost predicate Openable(aead: Aead, frames: seq<seq<byte>>)
  {
    forall i | 0 <= i < |frames| :: aead.open(i, frames[i]).Some?
  }

  ghost function Opened(aead: Aead, frames: seq<seq<byte>>): (r: seq<seq<byte>>)
    requires Openable(aead, frames)
    ensures |r| == |frames|
  {
    seq(|frames|, i requires 0 <= i < |frames| => aead.open(i, frames[i]).value)
  }

  // A message is never wider than its prefix: the largest plaintext and its tag are exactly what two
  // bytes of length can say.
  lemma SealedFits(aead: Aead, chunks: seq<seq<byte>>)
    requires aead.Lawful() && Sealable(aead, chunks)
    ensures Fit(TRANSPORT_PREFIX, Sealed(aead, chunks))
    ensures MAX_PLAINTEXT + TAG_LEN + 1 == Pow256(TRANSPORT_PREFIX)
  {
    PowersOf256(TRANSPORT_PREFIX);
    hide Pow256;
    forall i | 0 <= i < |chunks| ensures |Sealed(aead, chunks)[i]| < Pow256(TRANSPORT_PREFIX) {
      assert |aead.seal(i, chunks[i]).value| == |chunks[i]| + TAG_LEN;
    }
  }

  // The sending history: what the transport has accepted and what waits are the chunks, sealed in turn.
  ghost predicate Sent(aead: Aead, chunks: seq<seq<byte>>, accepted: seq<byte>, waiting: seq<byte>)
  {
    && Sealable(aead, chunks)
    && Fit(TRANSPORT_PREFIX, Sealed(aead, chunks))
    && accepted + waiting == Frames(TRANSPORT_PREFIX, Sealed(aead, chunks))
  }

  // The receiving history: what the transport handed up is the frames opened so far and an unparsed
  // rest, and what was opened is what was delivered and what is still held.
  ghost predicate Received(aead: Aead, frames: seq<seq<byte>>, received: seq<byte>, unparsed: seq<byte>,
                           delivered: seq<byte>, held: seq<byte>)
  {
    && Openable(aead, frames)
    && Fit(TRANSPORT_PREFIX, frames)
    && received == Frames(TRANSPORT_PREFIX, frames) + unparsed
    && delivered + held == Flatten(Opened(aead, frames))
  }

  lemma SealedSnoc(aead: Aead, chunks: seq<seq<byte>>, chunk: seq<byte>)
    requires aead.Lawful() && Sealable(aead, chunks)
    requires |chunk| <= MAX_PLAINTEXT && aead.seal(|chunks|, chunk).Some?
    ensures Sealable(aead, chunks + [chunk])
    ensures Sealed(aead, chunks + [chunk]) == Sealed(aead, chunks) + [aead.seal(|chunks|, chunk).value]
    ensures |aead.seal(|chunks|, chunk).value| < Pow256(TRANSPORT_PREFIX)
  {
    SealedFits(aead, chunks);
    hide Pow256;
    assert |aead.seal(|chunks|, chunk).value| == |chunk| + TAG_LEN;
  }

  // One more chunk sealed onto what waits.
  lemma SentOne(aead: Aead, chunks: seq<seq<byte>>, accepted: seq<byte>, waiting: seq<byte>, chunk: seq<byte>)
    requires aead.Lawful() && Sent(aead, chunks, accepted, waiting)
    requires |chunk| <= MAX_PLAINTEXT && aead.seal(|chunks|, chunk).Some?
    ensures var sealed := aead.seal(|chunks|, chunk).value;
            && |sealed| < Pow256(TRANSPORT_PREFIX)
            && Sent(aead, chunks + [chunk], accepted, waiting + Frame(TRANSPORT_PREFIX, sealed))
  {
    hide Pow256, Frame, Frames, Sealed;
    SealedSnoc(aead, chunks, chunk);
    var sealed := aead.seal(|chunks|, chunk).value;
    FramesSnoc(TRANSPORT_PREFIX, Sealed(aead, chunks), sealed);
    assert accepted + (waiting + Frame(TRANSPORT_PREFIX, sealed))
        == (accepted + waiting) + Frame(TRANSPORT_PREFIX, sealed);
  }

  lemma OpenedSnoc(aead: Aead, frames: seq<seq<byte>>, frame: seq<byte>)
    requires Openable(aead, frames) && aead.open(|frames|, frame).Some?
    ensures Openable(aead, frames + [frame])
    ensures Flatten(Opened(aead, frames + [frame])) == Flatten(Opened(aead, frames)) + aead.open(|frames|, frame).value
  {
    var p := aead.open(|frames|, frame).value;
    assert Opened(aead, frames + [frame]) == Opened(aead, frames) + [p];
    FlattenSnoc(Opened(aead, frames), p);
  }

  // One more frame taken off the unparsed bytes and opened into what is held.
  lemma ReceivedOne(aead: Aead, frames: seq<seq<byte>>, received: seq<byte>, unparsed: seq<byte>,
                    delivered: seq<byte>)
    requires Received(aead, frames, received, unparsed, delivered, [])
    requires Complete(TRANSPORT_PREFIX, unparsed)
    requires aead.open(|frames|, First(TRANSPORT_PREFIX, unparsed).0).Some?
    ensures var (frame, rest) := First(TRANSPORT_PREFIX, unparsed);
            Received(aead, frames + [frame], received, rest, delivered, aead.open(|frames|, frame).value)
  {
    hide Pow256, Frame, Frames, First, Complete, Opened, Openable, Flatten;
    var frame, rest := First(TRANSPORT_PREFIX, unparsed).0, First(TRANSPORT_PREFIX, unparsed).1;
    FirstIsFrame(TRANSPORT_PREFIX, unparsed);
    FramesSnoc(TRANSPORT_PREFIX, frames, frame);
    OpenedSnoc(aead, frames, frame);
    assert Frames(TRANSPORT_PREFIX, frames) + (Frame(TRANSPORT_PREFIX, frame) + rest)
        == Frames(TRANSPORT_PREFIX, frames + [frame]) + rest;
    assert delivered + [] == delivered;
  }

  // Some of what was held has been handed on.
  lemma ReceivedServed(aead: Aead, frames: seq<seq<byte>>, received: seq<byte>, unparsed: seq<byte>,
                       delivered: seq<byte>, held: seq<byte>, n: nat)
    requires Received(aead, frames, received, unparsed, delivered, held) && n <= |held|
    ensures Received(aead, frames, received, unparsed, delivered + held[..n], held[n..])
  {
    hide Frames, Opened, Flatten;
    assert delivered + held[..n] + held[n..] == delivered + held;
  }

  // More has come, none of it parsed.
  lemma ReceivedMore(aead: Aead, frames: seq<seq<byte>>, received: seq<byte>, unparsed: seq<byte>,
                     delivered: seq<byte>, held: seq<byte>, more: seq<byte>)
    requires Received(aead, frames, received, unparsed, delivered, held)
    ensures Received(aead, frames, received + more, unparsed + more, delivered, held)
  {
    hide Frames, Opened, Flatten;
    assert Frames(TRANSPORT_PREFIX, frames) + (unparsed + more) == received + more;
  }

  /** Nothing lost, repeated or reordered. Where a receiver has been handed some front part of what a
      sender's transport accepted, the frames it opened are the first the sender sealed, each under the
      counter it was sealed with; the plaintext it delivered is a prefix of what the sender took; the
      next whole frame, if there is one, opens; and once nothing is on its way, all of it is delivered. */
  lemma EndToEnd(aead: Aead, chunks: seq<seq<byte>>, accepted: seq<byte>, waiting: seq<byte>,
                 frames: seq<seq<byte>>, received: seq<byte>, unparsed: seq<byte>,
                 delivered: seq<byte>, held: seq<byte>)
    requires aead.Lawful()
    requires Sent(aead, chunks, accepted, waiting)
    requires Received(aead, frames, received, unparsed, delivered, held)
    requires received <= accepted
    ensures |frames| <= |chunks| && frames == Sealed(aead, chunks)[..|frames|]
    ensures Opened(aead, frames) == chunks[..|frames|]
    ensures delivered <= Flatten(chunks)
    ensures Complete(TRANSPORT_PREFIX, unparsed) ==>
              aead.open(|frames|, First(TRANSPORT_PREFIX, unparsed).0).Some?
    ensures received == accepted && waiting == [] && !Complete(TRANSPORT_PREFIX, unparsed) && held == [] ==>
              delivered == Flatten(chunks)
  {
    hide Pow256, Frame, Frames, Complete, First, Sealed, Opened, Fit, Flatten, Sealable, Openable, Aead.Lawful;
    var sealed := Sealed(aead, chunks);
    FramesAhead(sealed, accepted, waiting, frames, received, unparsed);
    OpenedAreChunks(aead, chunks, frames);
    DeliveredAhead(chunks, |frames|, delivered, held);
    if Complete(TRANSPORT_PREFIX, unparsed) {
      OpensNext(aead, chunks, |frames|);
    }
  }

  // What the first of the chunks hold, some of it delivered.
  lemma DeliveredAhead(chunks: seq<seq<byte>>, n: nat, delivered: seq<byte>, held: seq<byte>)
    requires n <= |chunks| && delivered + held == Flatten(chunks[..n])
    ensures delivered <= Flatten(chunks)
    ensures n == |chunks| && held == [] ==> delivered == Flatten(chunks)
  {
    FlattenPrefix(chunks[..n], chunks);
    assert delivered <= delivered + held;
    assert chunks[..|chunks|] == chunks;
  }

  // The frames a receiver has taken off a front part of a run of frames are the first of that run.
  lemma FramesAhead(sealed: seq<seq<byte>>, accepted: seq<byte>, waiting: seq<byte>,
                    frames: seq<seq<byte>>, received: seq<byte>, unparsed: seq<byte>)
    requires Fit(TRANSPORT_PREFIX, sealed) && Fit(TRANSPORT_PREFIX, frames)
    requires accepted + waiting == Frames(TRANSPORT_PREFIX, sealed)
    requires received == Frames(TRANSPORT_PREFIX, frames) + unparsed
    requires received <= accepted
    ensures frames <= sealed
    ensures Complete(TRANSPORT_PREFIX, unparsed) ==>
              |frames| < |sealed| && sealed[|frames|] == First(TRANSPORT_PREFIX, unparsed).0
    ensures received == accepted && waiting == [] && !Complete(TRANSPORT_PREFIX, unparsed) ==> frames == sealed
  {
    hide Pow256, Frame, Frames, Complete, First;
    var beyond := accepted[|received|..] + waiting;
    Regroup(accepted, waiting, Frames(TRANSPORT_PREFIX, frames), unparsed);
    FramesDetermine(TRANSPORT_PREFIX, sealed, frames, unparsed + beyond);
    if Complete(TRANSPORT_PREFIX, unparsed) {
      CompleteExtends(TRANSPORT_PREFIX, unparsed, beyond);
      ParseStep(TRANSPORT_PREFIX, unparsed + beyond);
    } else if received == accepted && waiting == [] {
      assert unparsed + beyond == unparsed;
      assert Parse(TRANSPORT_PREFIX, unparsed).0 == [];
    }
  }

  lemma Regroup(accepted: seq<byte>, waiting: seq<byte>, front: seq<byte>, unparsed: seq<byte>)
    requires front + unparsed <= accepted
    ensures accepted + waiting == front + (unparsed + (accepted[|front + unparsed|..] + waiting))
  {
    assert accepted == (front + unparsed) + accepted[|front + unparsed|..];
  }

  lemma OpensNext(aead: Aead, chunks: seq<seq<byte>>, i: nat)
    requires aead.Lawful() && Sealable(aead, chunks) && i < |chunks|
    ensures aead.open(i, Sealed(aead, chunks)[i]) == Some(chunks[i])
  {
  }

  lemma OpenedAreChunks(aead: Aead, chunks: seq<seq<byte>>, frames: seq<seq<byte>>)
    requires aead.Lawful() && Sealable(aead, chunks) && Openable(aead, frames)
    requires frames <= Sealed(aead, chunks)
    ensures Opened(aead, frames) == chunks[..|frames|]
  {
    forall i | 0 <= i < |frames| ensures Opened(aead, frames)[i] == chunks[i] {
      assert frames[i] == aead.seal(i, chunks[i]).value;
    }
  }

  // ---- The stream ------------------------------------------------------------------------------------

  class NoiseStream {
    const aead: Aead
    const inner: Link
    const reassembler: Reassembler
    const write: WriteBacklog
    var sealing: nat
    var opening: nat
    var readPlain: seq<byte>
    var readConsumed: nat
    // The run so far: every plaintext sealed, every frame opened, every byte handed to the reader.
    ghost var chunks: seq<seq<byte>>
    ghost var frames: seq<seq<byte>>
    ghost var delivered: seq<byte>

    ghost predicate Valid()
      reads this, inner, reassembler, write
    {
      && aead.Lawful()
      && write.Valid()
      && readConsumed <= |readPlain|
      && sealing == |chunks|
      && opening == |frames|
      && Sent(aead, chunks, inner.accepted, write.Waiting())
      && Received(aead, frames, inner.received, reassembler.buf, delivered, Held())
    }

    // Plaintext opened and not yet handed to the reader.
    ghost function Held(): seq<byte>
      requires readConsumed <= |readPlain|
      reads this
    {
      readPlain[readConsumed..]
    }

    // Nothing is left to give, and nothing more will come.
    ghost predicate Spent()
      reads this, inner, reassembler
    {
      readConsumed == |readPlain| && !Complete(TRANSPORT_PREFIX, reassembler.buf) && inner.ended && inner.incoming == []
    }

    // How much there is still to read: on its way, not yet parsed, and opened.
    ghost function Left(): (nat, nat, nat)
      reads this, inner, reassembler
    {
      (|inner.incoming|, |reassembler.buf|, if readConsumed <= |readPlain| then |Held()| else 0)
    }

    static ghost predicate Fewer(a: (nat, nat, nat), b: (nat, nat, nat))
    {
      a.0 < b.0 || (a.0 == b.0 && (a.1 < b.1 || (a.1 == b.1 && a.2 < b.2)))
    }

    // Takes over a transport with nothing buffered in either direction, as the handshake leaves it.
    constructor (aead: Aead, inner: Link)
      requires aead.Lawful() && inner.accepted == [] && inner.received == []
      ensures Valid() && this.aead == aead && this.inner == inner
      ensures fresh(reassembler) && fresh(write)
      ensures chunks == [] && frames == [] && delivered == []
    {
      this.aead, this.inner := aead, inner;
      reassembler := new Reassembler();
      write := new WriteBacklog();
      sealing, opening, readPlain, readConsumed := 0, 0, [], 0;
      chunks, frames, delivered := [], [], [];
      new;
      assert Sealed(aead, []) == [] && Opened(aead, []) == [];
    }

    // Seals only over an empty backlog, so at most one frame is ever part sent.
    method PollWrite(buf: seq<byte>) returns (r: Poll<nat>)
      requires Valid()
      modifies this`sealing, this`chunks, write, inner`accepted, inner`writeScript
      ensures Valid()
      ensures old(inner.accepted) <= inner.accepted
      ensures r.Done? ==> r.value == |Chunk(buf)|
      ensures r.Done? && buf != [] ==> r.value > 0 && chunks == old(chunks) + [Chunk(buf)]
      ensures r.Done? && buf == [] ==> chunks == old(chunks)
      ensures r.Pending? ==> chunks == old(chunks) && write.Waiting() != []
      ensures r.Failed? ==> chunks == old(chunks) || chunks == old(chunks) + [Chunk(buf)]
      ensures r.Failed? ==> r.error in {WriteZero, IoError.Link, InvalidData}
      ensures WriteExcused(old(inner.writeScript), inner.writeScript, r)
      ensures r == Failed(InvalidData) ==> aead.seal(old(sealing), Chunk(buf)).None? && aead.CanRefuse()
      ensures r.Done? && buf != [] ==>
                write.Waiting() == [] || Asked(old(inner.writeScript), inner.writeScript, Stall)
    {
      hide Later, Asked, Sealed, Received, Frames, Aead.Lawful;
      AskedOnce(inner.writeScript);
      if buf == [] {
        return Done(0);
      }
      var drained := write.PollDrain(inner);
      ghost var between := inner.writeScript;
      if drained.Pending? {
        return Pending;
      }
      if drained.Failed? {
        return Failed(drained.error);
      }
      var ok := SealOne(Chunk(buf));
      if !ok {
        return Failed(InvalidData);
      }
      var more := write.PollDrain(inner);
      ExcusedLater(old(inner.writeScript), between, inner.writeScript, more);
      if more.Failed? {
        return Failed(more.error);
      }
      return Done(|Chunk(buf)|);
    }

    // The part of a write one message carries.
    static function Chunk(buf: seq<byte>): (r: seq<byte>)
      ensures r <= buf && |r| <= MAX_PLAINTEXT
    {
      if |buf| < MAX_PLAINTEXT then buf else buf[..MAX_PLAINTEXT]
    }

    // Seals a chunk and frames it onto the backlog. Only sealing can fail: the prefix always fits.
    method SealOne(chunk: seq<byte>) returns (ok: bool)
      requires Valid() && |chunk| <= MAX_PLAINTEXT
      modifies this`sealing, this`chunks, write
      ensures Valid()
      ensures ok <==> aead.seal(old(sealing), chunk).Some?
      ensures chunks == if ok then old(chunks) + [chunk] else old(chunks)
    {
      hide Pow256, BigEndian, Frames, Sealed, Opened;
      var ciphertext := aead.seal(sealing, chunk);
      if ciphertext.None? {
        return false;
      }
      SentOne(aead, chunks, inner.accepted, write.Waiting(), chunk);
      PowersOf256(TRANSPORT_PREFIX);
      EncodePrefixExact(TRANSPORT_PREFIX, |ciphertext.value|);
      var prefix := EncodePrefix(TRANSPORT_PREFIX, |ciphertext.value|);
      ghost var waiting := write.Waiting();
      write.Extend(prefix.value);
      write.Extend(ciphertext.value);
      assert write.Waiting() == waiting + Frame(TRANSPORT_PREFIX, ciphertext.value);
      sealing := sealing + 1;
      chunks := chunks + [chunk];
      return true;
    }

    // Ready only once everything written is the transport's, and sent on.
    method PollFlush() returns (r: Poll<()>)
      requires Valid()
      modifies write, inner`accepted, inner`writeScript, inner`flushed
      ensures Valid() && write.Valid() && old(inner.accepted) <= inner.accepted
      ensures r.Done? ==> write.Waiting() == [] && inner.flushed == |inner.accepted|
      ensures WriteExcused(old(inner.writeScript), inner.writeScript, r)
      ensures r.Failed? ==> r.error in {WriteZero, IoError.Link}
    {
      hide Later, Asked, Sealed, Received, Frames, Aead.Lawful;
      r := write.PollDrain(inner);
      if r.Done? {
        ghost var between := inner.writeScript;
        AskedOnce(between);
        r := inner.PollFlush();
        ExcusedLater(old(inner.writeScript), between, inner.writeScript, r);
      }
    }

    // And closed.
    method PollClose() returns (r: Poll<()>)
      requires Valid()
      modifies write, inner`accepted, inner`writeScript, inner`flushed, inner`closed
      ensures Valid() && write.Valid() && old(inner.accepted) <= inner.accepted
      ensures r.Done? ==> write.Waiting() == [] && inner.flushed == |inner.accepted| && inner.closed
      ensures WriteExcused(old(inner.writeScript), inner.writeScript, r)
      ensures r.Failed? ==> r.error in {WriteZero, IoError.Link}
    {
      hide Later, Asked, Sealed, Received, Frames, Aead.Lawful;
      r := write.PollDrain(inner);
      if r.Done? {
        ghost var between := inner.writeScript;
        AskedOnce(between);
        r := inner.PollClose();
        ExcusedLater(old(inner.writeScript), between, inner.writeScript, r);
      }
    }

    // Hands up plaintext already opened first, then opens the next whole frame, and only with neither
    // pulls on the transport. A frame that does not open ends the stream.
    method PollRead(room: nat) returns (r: Poll<seq<byte>>)
      requires Valid()
      modifies this`opening, this`readPlain, this`readConsumed, this`frames, this`delivered
      modifies reassembler, inner`received, inner`incoming, inner`readScript
      ensures r != Failed(InvalidData) ==> Valid() && old(inner.received) <= inner.received
      ensures r == Done([]) && room > 0 ==> Spent()
      ensures old(Spent()) ==> Spent() && delivered == old(delivered) && (r.Done? ==> r.value == [])
      ensures r.Done? ==> |r.value| <= room && delivered == old(delivered) + r.value
      ensures !r.Done? ==> delivered == old(delivered)
      ensures r.Pending? || (r == Done([]) && room > 0) ==>
                readConsumed == |readPlain| && !Complete(TRANSPORT_PREFIX, reassembler.buf)
      ensures r == Done([]) && room > 0 ==> inner.ended && inner.incoming == []
      ensures r == Failed(InvalidData) ==> Refused(inner.received)
      ensures r.Failed? ==> r.error in {IoError.Link, InvalidData}
      ensures r.Done? ==> Fewer(Left(), old(Left())) || (r.value == [] && Left() == old(Left())) || room == 0
      ensures inner.received + inner.incoming == old(inner.received) + old(inner.incoming)
      ensures ReadExcused(old(inner.readScript), inner.readScript, inner.incoming, inner.ended, r)
      ensures old(Held()) != [] ==> r == Done(old(Held())[..Least(room, |old(Held())|)])
      ensures r == Failed(IoError.Link) ==> readConsumed == |readPlain| && !Complete(TRANSPORT_PREFIX, reassembler.buf)
      ensures Thrifty(old(inner.readScript), inner.readScript, old(inner.incoming), inner.incoming,
                      !r.Done? || r.value == [])
    {
      hide Complete, First, Sent, Received, Aead.Lawful, Later, Asked, Moved;
      AskedOnce(inner.readScript);
      while true
        invariant Valid() && delivered == old(delivered) && old(inner.received) <= inner.received
        invariant Left() == old(Left()) || Fewer(Left(), old(Left()))
        invariant old(Held()) != [] ==> Held() == old(Held())
        invariant inner.received + inner.incoming == old(inner.received) + old(inner.incoming)
        invariant Later(old(inner.readScript), inner.readScript)
        invariant Thrifty(old(inner.readScript), inner.readScript, old(inner.incoming), inner.incoming, false)
        invariant old(Spent()) ==> Spent()
        decreases |inner.incoming|, |reassembler.buf|
      {
        if readConsumed < |readPlain| {
          r := Serve(room);
          return;
        }
        var next := OpenNext();
        if next.Err? {
          return Failed(InvalidData);
        }
        if next.value {
          continue;
        }
        ghost var between := inner.readScript;
        var more := Pull();
        ReadExcusedLater(old(inner.readScript), between, inner.readScript, inner.incoming, inner.ended, more);
        if more.Pending? {
          return Pending;
        }
        if more.Failed? {
          return Failed(more.error);
        }
        if !more.value {
          assert delivered == old(delivered) + [];
          return Done([]);
        }
      }
    }

    // One read of the transport, onto what is yet to be parsed: whether it brought any more.
    method Pull() returns (r: Poll<bool>)
      requires Valid()
      modifies reassembler, inner`received, inner`incoming, inner`readScript
      ensures Valid() && old(inner.received) <= inner.received
      ensures inner.received + inner.incoming == old(inner.received) + old(inner.incoming)
      ensures r == Done(true) ==> |inner.incoming| < |old(inner.incoming)|
      ensures r != Done(true) ==> reassembler.buf == old(reassembler.buf) && inner.incoming == old(inner.incoming)
      ensures r == Done(false) ==> inner.ended && inner.incoming == []
      ensures r.Failed? ==> r.error == IoError.Link
      ensures ReadExcused(old(inner.readScript), inner.readScript, inner.incoming, inner.ended, r)
      ensures Thrifty(old(inner.readScript), inner.readScript, old(inner.incoming), inner.incoming, r != Done(true))
    {
      hide Sent, Received, Aead.Lawful, Later, Asked, Moved;
      AskedOnce(inner.readScript);
      var got := inner.PollRead(READ_CHUNK);
      if got.Pending? {
        return Pending;
      }
      if got.Failed? {
        return Failed(got.error);
      }
      if got.value == [] {
        assert inner.received == old(inner.received);
        return Done(false);
      }
      ReceivedMore(aead, frames, old(inner.received), reassembler.buf, delivered, Held(), got.value);
      reassembler.Push(got.value);
      return Done(true);
    }

    method Serve(room: nat) returns (r: Poll<seq<byte>>)
      requires Valid() && readConsumed < |readPlain|
      modifies this`readPlain, this`readConsumed, this`delivered
      ensures Valid()
      ensures r.Done? && |r.value| <= room && (room > 0 ==> r.value != [])
      ensures r == Done(old(Held())[..Least(room, |old(Held())|)])
      ensures delivered == old(delivered) + r.value
      ensures r.value != [] ==> |Held()| < |old(Held())|
    {
      hide Sent, Received, Aead.Lawful;
      var available := readPlain[readConsumed..];
      var n := if |available| < room then |available| else room;
      ReceivedServed(aead, frames, inner.received, reassembler.buf, delivered, available, n);
      assert available[n..] == readPlain[readConsumed + n..];
      delivered := delivered + available[..n];
      readConsumed := readConsumed + n;
      if readConsumed == |readPlain| {
        readPlain, readConsumed := [], 0;
      }
      assert Held() == available[n..];
      return Done(available[..n]);
    }

    // Opens the next whole frame, if one has arrived.
    method OpenNext() returns (r: Result<bool, IoError>)
      requires Valid() && readConsumed == |readPlain|
      modifies this`opening, this`readPlain, this`readConsumed, this`frames, reassembler
      ensures r.Ok? ==> Valid()
      ensures r == Ok(true) ==> |reassembler.buf| < |old(reassembler.buf)|
      ensures r == Ok(false) ==>
                && !Complete(TRANSPORT_PREFIX, reassembler.buf)
                && readConsumed == |readPlain| && reassembler.buf == old(reassembler.buf)
      ensures r.Err? ==> Refused(inner.received)
      ensures r != Ok(false) ==> Complete(TRANSPORT_PREFIX, old(reassembler.buf))
    {
      hide Pow256, Frame, Frames, Sealed, Opened;
      assert Held() == [];
      ghost var unparsed := reassembler.buf;
      var message := reassembler.Take();
      if message.None? {
        return Ok(false);
      }
      var plain := aead.open(opening, message.value);
      if plain.None? {
        FirstIsFrame(TRANSPORT_PREFIX, unparsed);
        return Err(InvalidData);
      }
      ReceivedOne(aead, frames, inner.received, unparsed, delivered);
      frames := frames + [message.value];
      opening := opening + 1;
      readPlain, readConsumed := plain.value, 0;
      return Ok(true);
    }

    // What was received goes on, after the frames opened, with one that does not open.
    ghost predicate Refused(received: seq<byte>)
      reads this
    {
      Fit(TRANSPORT_PREFIX, frames) &&
      exists frame, rest :: |frame| < Pow256(TRANSPORT_PREFIX) && aead.open(|frames|, frame).None? &&
        received == Frames(TRANSPORT_PREFIX, frames) + (Frame(TRANSPORT_PREFIX, frame) + rest)
    }
  }

  /** Reading until it waits: over a transport that moves, with answers enough, that is until everything the
      transport had has been read, opened and given. */
  method ReadAll(stream: NoiseStream, room: nat) returns (got: seq<byte>, end: Poll<seq<byte>>)
    requires stream.Valid() && room > 0
    modifies stream`opening, stream`readPlain, stream`readConsumed, stream`frames, stream`delivered
    modifies stream.reassembler, stream.inner`received, stream.inner`incoming, stream.inner`readScript
    ensures stream.delivered == old(stream.delivered) + got
    ensures end.Done? ==> end.value == []
    ensures !end.Failed? ==>
              && stream.Valid() && stream.readConsumed == |stream.readPlain|
              && !Complete(TRANSPORT_PREFIX, stream.reassembler.buf)
    ensures stream.inner.received + stream.inner.incoming == old(stream.inner.received) + old(stream.inner.incoming)
    ensures AllMove(old(stream.inner.readScript)) && |old(stream.inner.readScript)| > |old(stream.inner.incoming)| ==>
              end != Failed(IoError.Link) && (!end.Failed? ==> stream.inner.incoming == [])
  {
    hide NoiseStream.Valid, Complete, Later, Asked, Moved, ReadExcused, AllMove, NoiseStream.Spent;
    got := [];
    LaterStart(stream.inner.readScript);
    while true
      invariant stream.Valid() && stream.delivered == old(stream.delivered) + got
      invariant stream.inner.received + stream.inner.incoming ==
                old(stream.inner.received) + old(stream.inner.incoming)
      invariant Later(old(stream.inner.readScript), stream.inner.readScript)
      invariant Thrifty(old(stream.inner.readScript), stream.inner.readScript, old(stream.inner.incoming),
                        stream.inner.incoming, false)
      decreases stream.Left().0, stream.Left().1, stream.Left().2
    {
      ghost var between := stream.inner.readScript;
      end := stream.PollRead(room);
      ReadExcusedLater(old(stream.inner.readScript), between, stream.inner.readScript, stream.inner.incoming,
                       stream.inner.ended, end);
      if !end.Done? || end.value == [] {
        ReadsAll(old(stream.inner.readScript), stream.inner.readScript, old(stream.inner.incoming),
                 stream.inner.incoming, stream.inner.ended, end);
        return;
      }
      LaterOf(old(stream.inner.readScript), stream.inner.readScript, stream.inner.incoming, stream.inner.ended, end);
      got := got + end.value;
    }
  }

  /** Two ends of one connection, at any moment of any run of polls on either: the counters are in step,
      what the reader has been given is a front part of what the writer took, no whole frame it holds can
      be refused, and when the writer has flushed and everything has arrived and been read, it is all of it. */
  lemma EndsAgree(writer: NoiseStream, reader: NoiseStream)
    requires writer.Valid() && reader.Valid() && writer.aead == reader.aead
    requires reader.inner.received <= writer.inner.accepted
    ensures reader.opening <= writer.sealing
    ensures reader.frames == Sealed(writer.aead, writer.chunks)[..reader.opening]
    ensures reader.delivered <= Flatten(writer.chunks)
    ensures Complete(TRANSPORT_PREFIX, reader.reassembler.buf) ==>
              reader.aead.open(reader.opening, First(TRANSPORT_PREFIX, reader.reassembler.buf).0).Some?
    ensures reader.inner.received == writer.inner.accepted && writer.write.Waiting() == []
            && reader.readConsumed == |reader.readPlain| && !Complete(TRANSPORT_PREFIX, reader.reassembler.buf) ==>
              reader.delivered == Flatten(writer.chunks)
  {
    hide Pow256, Frame, Frames, Complete, First, Sealed, Opened;
    EndToEnd(writer.aead, writer.chunks, writer.inner.accepted, writer.write.Waiting(),
             reader.frames, reader.inner.received, reader.reassembler.buf, reader.delivered, reader.Held());
  }

  // What an honest sender sealed is never refused.
  lemma NoneRefused(writer: NoiseStream, reader: NoiseStream)
    requires writer.Valid() && writer.aead == reader.aead
    requires reader.inner.received <= writer.inner.accepted
    ensures !reader.Refused(reader.inner.received)
  {
    hide Pow256, BigEndian, Frame, Frames, Complete, First, Sealed, Opened;
    if reader.Refused(reader.inner.received) {
      var frame, rest :| |frame| < Pow256(TRANSPORT_PREFIX) && reader.aead.open(|reader.frames|, frame).None? &&
        reader.inner.received == Frames(TRANSPORT_PREFIX, reader.frames) + (Frame(TRANSPORT_PREFIX, frame) + rest);
      var unparsed := Frame(TRANSPORT_PREFIX, frame) + rest;
      FrameIsComplete(TRANSPORT_PREFIX, frame, rest);
      SealedFits(writer.aead, writer.chunks);
      FramesAhead(Sealed(writer.aead, writer.chunks), writer.inner.accepted, writer.write.Waiting(),
                  reader.frames, reader.inner.received, unparsed);
      OpensNext(writer.aead, writer.chunks, |reader.frames|);
      assert false;
    }
  }
}
