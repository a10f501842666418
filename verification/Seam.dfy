/** Where compression meets encryption. Compression was proved over a `Link`, a transport that does as a script
    says; what lies beneath it is a `NoiseStream`. Each poll of the stream that does not fail is the same poll of
    a link with some script, and leaves the two as they were joined. */
module Seam {
  import opened Wrappers
  import opened Bytes
  import opened Framing
  import opened Transport
  import opened Noise

  // The link as the layer above sees it, and the stream that it is: what the one accepted the other sealed, what
  // the one handed up the other delivered, and the one's end is the other's.
  ghost predicate Joined(link: Link, stream: NoiseStream)
    reads link, stream, stream.inner, stream.reassembler, stream.write
  {
    && link != stream.inner
    && stream.Valid()
    && link.accepted == Flatten(stream.chunks)
    && link.received == stream.delivered
    && link.incoming == []
    && (link.ended ==> stream.Spent())
  }

  /** The one way apart: a chunk was sealed, and then the transport failed on the way to sending it. The stream
      has it, and the layer above was told of a failure and not of a chunk taken. */
  ghost predicate SealedUntold(link: Link, stream: NoiseStream, buf: seq<byte>)
    reads link, stream, stream.inner, stream.reassembler, stream.write
  {
    stream.Valid() && Flatten(stream.chunks) == link.accepted + NoiseStream.Chunk(buf)
    && link.received == stream.delivered
  }

  // The answer of a transport that polls as the stream did.
  function Said<T>(r: Poll<T>, most: nat): Answer
  {
    match r
    case Pending => Stall
    case Done(_) => Move(most)
    case Failed(_) => Break
  }

  /** As they begin, with nothing carried either way, the two are joined. */
  method Begin(aead: Aead, inner: Link) returns (link: Link, stream: NoiseStream)
    requires aead.Lawful() && inner.accepted == [] && inner.received == []
    ensures Joined(link, stream) && fresh(link) && fresh(stream) && stream.inner == inner && stream.aead == aead
    ensures fresh(stream.reassembler) && fresh(stream.write)
    ensures link.accepted == [] && link.received == []
  {
    stream := new NoiseStream(aead, inner);
    link := new Link([], false, [], []);
  }

  /** A write: the stream's poll, and the same poll of a link scripted by what the stream said. They say the same
      and stay joined, unless the stream fails, and then at worst as `SealedUntold` says. */
  method WriteAcross(link: Link, stream: NoiseStream, buf: seq<byte>) returns (said: Poll<nat>, r: Poll<nat>)
    requires Joined(link, stream)
    modifies link`accepted, link`writeScript
    modifies stream`sealing, stream`chunks, stream.write, stream.inner`accepted, stream.inner`writeScript
    ensures !said.Failed? ==> r == said && Joined(link, stream)
    ensures said.Failed? ==> r == Failed(IoError.Link) && link.accepted == old(link.accepted)
                             && (Joined(link, stream) || SealedUntold(link, stream, buf))
    ensures said.Failed? ==> said.error in {WriteZero, IoError.Link, InvalidData}
    ensures said.Done? && buf != [] ==> said.value > 0
    ensures WriteExcused(old(stream.inner.writeScript), stream.inner.writeScript, said)
    ensures said == Failed(InvalidData) ==> stream.aead.CanRefuse()
    ensures old(stream.inner.accepted) <= stream.inner.accepted
    ensures r.Done? ==> r.value <= |buf| && link.accepted == old(link.accepted) + buf[..r.value]
    ensures !r.Done? ==> link.accepted == old(link.accepted)
  {
    hide NoiseStream.Valid, Flatten;
    said := stream.PollWrite(buf);
    FlattenSnoc(old(stream.chunks), NoiseStream.Chunk(buf));
    assert NoiseStream.Chunk(buf) == buf[..|NoiseStream.Chunk(buf)|];
    assert old(link.accepted) + [] == old(link.accepted);
    link.writeScript := [Said(said, if said.Done? then said.value else 0)];
    r := link.PollWrite(buf);
  }

  /** A flush. */
  method FlushAcross(link: Link, stream: NoiseStream) returns (said: Poll<()>, r: Poll<()>)
    requires Joined(link, stream)
    modifies link`writeScript, link`flushed
    modifies stream.write, stream.inner`accepted, stream.inner`writeScript, stream.inner`flushed
    ensures Joined(link, stream)
    ensures if said.Failed? then r == Failed(IoError.Link) else r == said
    ensures said.Failed? ==> said.error in {WriteZero, IoError.Link}
    ensures stream.write.Valid() && (said.Done? ==> stream.write.Waiting() == [])
    ensures said.Done? ==> stream.inner.flushed == |stream.inner.accepted|
    ensures old(stream.inner.accepted) <= stream.inner.accepted
    ensures WriteExcused(old(stream.inner.writeScript), stream.inner.writeScript, said)
  {
    hide NoiseStream.Valid, Flatten, WriteExcused;
    said := stream.PollFlush();
    link.writeScript := [Said(said, 0)];
    r := link.PollFlush();
    if said.Done? {
      assert said.value == ();
    }
  }

  /** A close. */
  method CloseAcross(link: Link, stream: NoiseStream) returns (said: Poll<()>, r: Poll<()>)
    requires Joined(link, stream)
    modifies link`writeScript, link`flushed, link`closed
    modifies stream.write, stream.inner`accepted, stream.inner`writeScript, stream.inner`flushed, stream.inner`closed
    ensures Joined(link, stream)
    ensures if said.Failed? then r == Failed(IoError.Link) else r == said
    ensures said.Failed? ==> said.error in {WriteZero, IoError.Link}
    ensures stream.write.Valid() && (said.Done? ==> stream.write.Waiting() == [])
    ensures said.Done? ==> stream.inner.flushed == |stream.inner.accepted| && stream.inner.closed
    ensures old(stream.inner.accepted) <= stream.inner.accepted
    ensures WriteExcused(old(stream.inner.writeScript), stream.inner.writeScript, said)
  {
    hide NoiseStream.Valid, Flatten, WriteExcused;
    said := stream.PollClose();
    link.writeScript := [Said(said, 0)];
    r := link.PollClose();
    if said.Done? {
      assert said.value == ();
    }
  }

  /** A read: what the stream delivers is what reaches the link between polls, and the link hands it all up. */
  method ReadAcross(link: Link, stream: NoiseStream, room: nat) returns (said: Poll<seq<byte>>, r: Poll<seq<byte>>)
    requires Joined(link, stream) && room > 0
    modifies link`received, link`incoming, link`ended, link`readScript
    modifies stream`opening, stream`readPlain, stream`readConsumed, stream`frames, stream`delivered
    modifies stream.reassembler, stream.inner`received, stream.inner`incoming, stream.inner`readScript
    ensures !said.Failed? ==> r == said && Joined(link, stream)
    ensures said.Failed? ==> r == Failed(IoError.Link) && (said.error != InvalidData ==> Joined(link, stream))
    ensures said.Failed? ==> said.error in {IoError.Link, InvalidData} && link.ended == old(link.ended)
    ensures said == Failed(InvalidData) ==> stream.Refused(stream.inner.received)
    ensures said.Done? ==> NoiseStream.Fewer(stream.Left(), old(stream.Left()))
                           || (said.value == [] && stream.Left() == old(stream.Left()))
    ensures said.Pending? || said == Done([]) ==>
              stream.readConsumed == |stream.readPlain| && !Complete(TRANSPORT_PREFIX, stream.reassembler.buf)
    ensures stream.inner.received + stream.inner.incoming == old(stream.inner.received) + old(stream.inner.incoming)
    ensures ReadExcused(old(stream.inner.readScript), stream.inner.readScript, stream.inner.incoming,
                        stream.inner.ended, said)
    ensures said == Failed(IoError.Link) ==>
              stream.readConsumed == |stream.readPlain| && !Complete(TRANSPORT_PREFIX, stream.reassembler.buf)
    ensures Thrifty(old(stream.inner.readScript), stream.inner.readScript, old(stream.inner.incoming),
                    stream.inner.incoming, !said.Done? || said.value == [])
    ensures r.Done? ==> |r.value| <= room && link.received == old(link.received) + r.value
    ensures link.incoming == [] && (r == Done([]) ==> link.ended)
    ensures !r.Done? ==> link.received == old(link.received)
  {
    hide NoiseStream.Valid, Flatten, Complete, First;
    said := stream.PollRead(room);
    if said.Done? && !link.ended {
      link.Arrive(said.value, said.value == []);
    }
    ghost var came := link.incoming;
    assert said.Done? ==> came == said.value && came[..|came|] == came;
    link.readScript := [Said(said, room)];
    r := link.PollRead(room);
  }

  /** What waits above, written to the stream: the loop of `PollDrain`, over `WriteAcross`. Whatever the stream takes
      comes off the front, and it is still joined, unless a write failed. */
  method DrainAcross(out: WriteBacklog, link: Link, stream: NoiseStream) returns (r: Poll<()>)
    requires out.Valid() && Joined(link, stream) && out != stream.write
    modifies out, link`accepted, link`writeScript
    modifies stream`sealing, stream`chunks, stream.write, stream.inner`accepted, stream.inner`writeScript
    ensures out.Valid()
    ensures link.accepted + out.Waiting() == old(link.accepted) + old(out.Waiting())
    ensures old(link.accepted) <= link.accepted && old(stream.inner.accepted) <= stream.inner.accepted
    ensures r.Done? ==> out.Waiting() == []
    ensures r.Pending? ==> out.Waiting() != []
    ensures r.Failed? ==> out.Waiting() != [] && r.error in {WriteZero, IoError.Link, InvalidData}
    ensures Joined(link, stream) || (r.Failed? && SealedUntold(link, stream, out.Waiting()))
    ensures r == Failed(InvalidData) ==> stream.aead.CanRefuse()
    ensures WriteExcused(old(stream.inner.writeScript), stream.inner.writeScript, r)
  {
    hide Joined, SealedUntold, Later, Asked;
    LaterStart(stream.inner.writeScript);
    ghost var all := link.accepted + out.Waiting();
    while out.sent < |out.buf|
      invariant out.Valid() && out.buf == old(out.buf) && Joined(link, stream)
      invariant link.accepted + out.Waiting() == all
      invariant old(link.accepted) <= link.accepted && old(stream.inner.accepted) <= stream.inner.accepted
      invariant Later(old(stream.inner.writeScript), stream.inner.writeScript)
      decreases |out.buf| - out.sent
    {
      ghost var waiting, between := out.Waiting(), stream.inner.writeScript;
      var n, _ := WriteAcross(link, stream, out.buf[out.sent..]);
      ExcusedLater(old(stream.inner.writeScript), between, stream.inner.writeScript, n);
      if n.Pending? {
        return Pending;
      }
      if n.Failed? {
        return Failed(n.error);
      }
      if n.value == 0 {
        return Failed(WriteZero);
      }
      assert waiting == waiting[..n.value] + out.buf[out.sent + n.value..];
      out.sent := out.sent + n.value;
    }
    out.buf, out.sent := [], 0;
    return Done(());
  }

  // ---- Any conversation --------------------------------------------------------------------------------

  datatype Call = Write(buf: seq<byte>) | Flush | Close | Read(room: nat)

  datatype Reply = Wrote(w: Poll<nat>) | Settled(s: Poll<()>) | Got(g: Poll<seq<byte>>)
  {
    predicate Fails()
    {
      match this
      case Wrote(w) => w.Failed?
      case Settled(s) => s.Failed?
      case Got(g) => g.Failed?
    }
  }

  /** Whatever the layer above calls, and for as long as the stream does not fail, the stream and a link answer
      alike, call for call, and end as they were joined. */
  method Converse(link: Link, stream: NoiseStream, calls: seq<Call>) returns (said: seq<Reply>, heard: seq<Reply>)
    requires Joined(link, stream) && forall i | 0 <= i < |calls| :: calls[i].Read? ==> calls[i].room > 0
    modifies link, stream, stream.write, stream.reassembler, stream.inner
    ensures |said| == |heard| <= |calls|
    ensures |said| < |calls| ==> said != [] && said[|said| - 1].Fails()
    ensures forall i | 0 <= i < |said| :: !said[i].Fails() ==> heard[i] == said[i]
    ensures (forall i | 0 <= i < |said| :: !said[i].Fails()) ==> |said| == |calls| && Joined(link, stream)
  {
    hide Joined;
    said, heard := [], [];
    for i := 0 to |calls|
      invariant Joined(link, stream) && |said| == |heard| == i
      invariant forall j | 0 <= j < i :: !said[j].Fails() && heard[j] == said[j]
    {
      var mine, other;
      match calls[i] {
        case Write(buf) =>
          var a, b := WriteAcross(link, stream, buf);
          mine, other := Wrote(a), Wrote(b);
        case Flush =>
          var a, b := FlushAcross(link, stream);
          mine, other := Settled(a), Settled(b);
        case Close =>
          var a, b := CloseAcross(link, stream);
          mine, other := Settled(a), Settled(b);
        case Read(room) =>
          var a, b := ReadAcross(link, stream, room);
          mine, other := Got(a), Got(b);
      }
      said, heard := said + [mine], heard + [other];
      if mine.Fails() {
        assert said[i].Fails();
        return;
      }
    }
  }
}
