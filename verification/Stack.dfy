/** The layers assembled: compression over encryption over a transport, end to end. */
module Stack {
  import opened Wrappers
  import opened Bytes
  import opened Framing
  import opened Transport
  import opened Noise
  import opened Compress
  import opened Seam

  // One end of a connection, as its two layers. A poll of it is the poll of the layer above, whose transport is
  // the layer below.
  class Connection {
    const top: CompressStream
    const bottom: NoiseStream

    ghost function Footprint(): set<object>
    {
      {top, top.inner, top.out, bottom, bottom.inner, bottom.reassembler, bottom.write}
    }

    // Nothing has failed.
    ghost predicate Assembled()
      reads Footprint()
    {
      top.Valid() && Joined(top.inner, bottom) && top.inner != bottom.inner && top.out != bottom.write
    }

    // Something may have: what was sealed is between what the layer above was told of and what it had to send.
    ghost predicate Carried()
      reads Footprint()
    {
      && top.Holds() && bottom.Valid()
      && top.inner.accepted <= Flatten(bottom.chunks) <= top.enc.emitted
      && top.inner.received == bottom.delivered
    }

    // Nothing written is still on this end.
    ghost predicate Flushed()
      reads Footprint()
    {
      top.Valid() && !top.dirty && top.out.Waiting() == [] && bottom.write.Valid() && bottom.write.Waiting() == []
    }

    // Nothing received can yet be read from this end.
    ghost predicate Idle()
      reads Footprint()
    {
      && bottom.readConsumed == |bottom.readPlain| && !Complete(TRANSPORT_PREFIX, bottom.reassembler.buf)
      && top.Dry()
    }

    // A frame was received that no honest end sealed.
    ghost predicate Refused()
      reads Footprint()
    {
      bottom.Refused(bottom.inner.received)
    }

    // How a write, a flush or a close can fail: as the transport does, or by an encoder or a cipher that can.
    ghost predicate MayFail(error: IoError)
    {
      || error == IoError.Link || error == WriteZero
      || (error == Other && top.codec.CanFail())
      || (error == InvalidData && bottom.aead.CanRefuse())
    }

    // Built over a transport with nothing carried, as the handshake leaves it.
    constructor (codec: Codec, aead: Aead, inner: Link)
      requires codec.Lawful() && aead.Lawful() && inner.accepted == [] && inner.received == []
      ensures Assembled() && bottom.inner == inner && top.codec == codec && bottom.aead == aead
      ensures fresh(Footprint() - {inner})
      ensures top.enc.taken == [] && top.dec.emitted == []
    {
      hide Codec.Lawful, Codec.Going, Codec.Over, Codec.Decoding, Joined, NoiseStream.Valid;
      var link, stream := Begin(aead, inner);
      top := new CompressStream(codec, link);
      bottom := stream;
    }

    lemma AssembledIsCarried()
      requires Assembled()
      ensures Carried()
    {
      hide Codec.Lawful, Codec.Going, Codec.Over, Codec.Decoding;
      assert top.inner.accepted <= top.inner.accepted + top.out.Waiting();
    }

    // A write that failed with its chunk sealed leaves no more sealed than there was to send.
    lemma FailedIsCarried()
      requires top.Holds() && (Joined(top.inner, bottom) || SealedUntold(top.inner, bottom, top.out.Waiting()))
      ensures Carried()
    {
      hide Codec.Lawful, Codec.Going, Codec.Over, Codec.Decoding;
      if Joined(top.inner, bottom) {
        assert top.inner.accepted <= top.inner.accepted + top.out.Waiting();
      } else {
        var chunk, waiting := NoiseStream.Chunk(top.out.Waiting()), top.out.Waiting();
        assert waiting == chunk + waiting[|chunk|..];
        assert top.enc.emitted == (top.inner.accepted + chunk) + waiting[|chunk|..];
      }
    }

    // ---- The transport -----------------------------------------------------------------------------

    // What the transport is to answer next.
    method Schedule(answers: seq<Answer>)
      modifies bottom.inner`writeScript, bottom.inner`readScript
      ensures bottom.inner.writeScript == bottom.inner.readScript == answers
      ensures old(Assembled()) ==> Assembled()
      ensures old(Carried()) ==> Carried()
    {
      hide Codec.Lawful, Codec.Going, Codec.Over, Codec.Decoding, Sent, Received, Flatten;
      bottom.inner.writeScript, bottom.inner.readScript := answers, answers;
    }

    // Nothing above has seen an end that has not come.
    lemma NotEnded()
      requires Assembled() && !bottom.inner.ended
      ensures !top.readEof
    {
      hide Codec.Lawful, Codec.Going, Codec.Over, Codec.Decoding, Sent, Received, Flatten;
    }

    // More reaches it, or its end.
    method Arrive(bytes: seq<byte>, end: bool)
      requires !bottom.inner.ended
      modifies bottom.inner`incoming, bottom.inner`ended
      ensures bottom.inner.incoming == old(bottom.inner.incoming) + bytes && bottom.inner.ended == end
      ensures old(Assembled()) ==> Assembled()
      ensures old(Carried()) ==> Carried()
    {
      hide Codec.Lawful, Codec.Going, Codec.Over, Codec.Decoding, Sent, Received, Flatten;
      bottom.inner.Arrive(bytes, end);
    }

    // ---- Polls -------------------------------------------------------------------------------------

    method PollWrite(buf: seq<byte>) returns (r: Poll<nat>)
      requires Assembled()
      modifies top`enc, top`dirty, top.out, top.inner`accepted, top.inner`writeScript
      modifies bottom`sealing, bottom`chunks, bottom.write, bottom.inner`accepted, bottom.inner`writeScript
      ensures Carried() && (!r.Failed? ==> Assembled())
      ensures old(bottom.inner.accepted) <= bottom.inner.accepted
      ensures r.Done? ==> r.value == |buf| && top.enc.taken == old(top.enc.taken) + buf
      ensures r.Pending? ==> top.enc == old(top.enc) && top.out.Waiting() != []
      ensures top.enc.taken <= old(top.enc.taken) + buf
      ensures old(top.finished) ==> top.enc == old(top.enc) && (buf != [] ==> r == Failed(BrokenPipe) && Assembled())
      ensures WriteExcused(old(bottom.inner.writeScript), bottom.inner.writeScript, r)
      ensures r.Failed? ==> MayFail(r.error) || (r.error == BrokenPipe && old(top.finished))
      ensures r.Done? && buf != [] ==>
                top.out.Waiting() == [] || Asked(old(bottom.inner.writeScript), bottom.inner.writeScript, Stall)
    {
      hide Codec.Lawful, Codec.Going, Codec.Over, Codec.Decoding, Joined, SealedUntold, Carried, Later, Asked;
      LaterStart(bottom.inner.writeScript);
      AssembledIsCarried();
      if buf == [] {
        assert top.enc.taken == old(top.enc.taken) + buf;
        return Done(0);
      }
      if top.finished {
        return Failed(BrokenPipe);
      }
      var drained := DrainAcross(top.out, top.inner, bottom);
      ghost var between := bottom.inner.writeScript;
      FailedIsCarried();
      if drained.Pending? {
        return Pending;
      }
      if drained.Failed? {
        return Failed(drained.error);
      }
      var consumed := top.TakeIn(buf);
      FailedIsCarried();
      if consumed.Err? {
        return Failed(consumed.error);
      }
      var more := DrainAcross(top.out, top.inner, bottom);
      ExcusedLater(old(bottom.inner.writeScript), between, bottom.inner.writeScript, more);
      FailedIsCarried();
      if more.Failed? {
        return Failed(more.error);
      }
      return Done(consumed.value);
    }

    // Ready only with everything written on its way.
    method PollFlush() returns (r: Poll<()>)
      requires Assembled()
      modifies top`enc, top`dirty, top`settled, top.out, top.inner`accepted, top.inner`writeScript, top.inner`flushed
      modifies bottom`sealing, bottom`chunks, bottom.write
      modifies bottom.inner`accepted, bottom.inner`writeScript, bottom.inner`flushed
      ensures Carried() && (!r.Failed? ==> Assembled())
      ensures old(bottom.inner.accepted) <= bottom.inner.accepted
      ensures top.enc.taken == old(top.enc.taken)
      ensures r.Done? ==> Flushed() && bottom.inner.flushed == |bottom.inner.accepted|
      ensures WriteExcused(old(bottom.inner.writeScript), bottom.inner.writeScript, r)
      ensures r.Failed? ==> MayFail(r.error)
    {
      hide Codec.Lawful, Codec.Going, Codec.Over, Codec.Decoding, Joined, SealedUntold, Carried, Later, Asked;
      LaterStart(bottom.inner.writeScript);
      var synced := top.SyncIfDirty();
      FailedIsCarried();
      if synced.Err? {
        return Failed(synced.error);
      }
      r := DrainAcross(top.out, top.inner, bottom);
      FailedIsCarried();
      if r.Done? {
        ghost var between := bottom.inner.writeScript;
        var settled, _ := FlushAcross(top.inner, bottom);
        r := settled;
        ExcusedLater(old(bottom.inner.writeScript), between, bottom.inner.writeScript, r);
        FailedIsCarried();
      }
    }

    // Ready only with the whole stream and its end on their way.
    method PollClose() returns (r: Poll<()>)
      requires Assembled()
      modifies top`enc, top`dirty, top`finished, top`settled, top.out
      modifies top.inner`accepted, top.inner`writeScript, top.inner`flushed, top.inner`closed
      modifies bottom`sealing, bottom`chunks, bottom.write
      modifies bottom.inner`accepted, bottom.inner`writeScript, bottom.inner`flushed, bottom.inner`closed
      ensures Carried() && (!r.Failed? ==> Assembled())
      ensures old(bottom.inner.accepted) <= bottom.inner.accepted
      ensures top.enc.taken == old(top.enc.taken)
      ensures r.Done? ==> Flushed() && top.finished
      ensures r.Done? ==> bottom.inner.flushed == |bottom.inner.accepted| && bottom.inner.closed
      ensures WriteExcused(old(bottom.inner.writeScript), bottom.inner.writeScript, r)
      ensures r.Failed? ==> MayFail(r.error)
    {
      hide Codec.Lawful, Codec.Going, Codec.Over, Codec.Decoding, Joined, SealedUntold, Carried, Later, Asked;
      LaterStart(bottom.inner.writeScript);
      var ended := top.FinishOnce();
      FailedIsCarried();
      if ended.Err? {
        return Failed(ended.error);
      }
      r := DrainAcross(top.out, top.inner, bottom);
      FailedIsCarried();
      if r.Done? {
        ghost var between := bottom.inner.writeScript;
        var settled, _ := CloseAcross(top.inner, bottom);
        r := settled;
        ExcusedLater(old(bottom.inner.writeScript), between, bottom.inner.writeScript, r);
        FailedIsCarried();
      }
    }

    // Waits only with nothing left to read. Short of a frame no honest end sealed, it fails with all as it was.
    method PollRead(room: nat) returns (r: Poll<seq<byte>>)
      requires Assembled()
      modifies top`dec, top`inBuf, top`inStart, top`readEof, top`streamEnd
      modifies top.inner`received, top.inner`incoming, top.inner`ended, top.inner`readScript
      modifies bottom`opening, bottom`readPlain, bottom`readConsumed, bottom`frames, bottom`delivered
      modifies bottom.reassembler, bottom.inner`received, bottom.inner`incoming, bottom.inner`readScript
      ensures Assembled() || (r == Failed(InvalidData) && Refused())
      ensures bottom.inner.received + bottom.inner.incoming == old(bottom.inner.received) + old(bottom.inner.incoming)
      ensures bottom.inner.ended == old(bottom.inner.ended)
      ensures r.Done? ==> |r.value| <= room && top.dec.emitted == old(top.dec.emitted) + r.value
      ensures !r.Done? ==> top.dec.emitted == old(top.dec.emitted)
      ensures r == Done([]) ==> room == 0 || top.streamEnd || (top.readEof && top.inner.received == [])
      ensures r.Pending? ==> Idle()
      ensures r == Failed(InvalidData) ==> Refused() || !top.codec.Readable(top.inner.received)
      ensures r == Failed(UnexpectedEof) ==> top.readEof && Idle() && top.inner.received != []
      ensures r.Failed? ==> r.error in {UnexpectedEof, InvalidData, IoError.Link}
      ensures ReadExcused(old(bottom.inner.readScript), bottom.inner.readScript, bottom.inner.incoming,
                          bottom.inner.ended, r)
      ensures r == Failed(IoError.Link) ==> Idle()
      ensures Thrifty(old(bottom.inner.readScript), bottom.inner.readScript, old(bottom.inner.incoming),
                      bottom.inner.incoming, Idled(r, old(top.readEof), top.readEof))
      ensures (old(top.readEof) ==> top.readEof) && (r.Pending? || r == Failed(IoError.Link) ==> !top.readEof)
    {
      hide Codec.Lawful, Codec.Going, Codec.Over, Codec.Decoding, Joined, NoiseStream.Valid, Complete, Later,
           Asked, Moved, Idle, Refused, CompressStream.Valid, CompressStream.Dry;
      LaterStart(bottom.inner.readScript);
      if room == 0 {
        assert top.dec.emitted == old(top.dec.emitted) + [];
        return Done([]);
      }
      while true
        invariant Assembled() && top.dec.emitted == old(top.dec.emitted)
        invariant bottom.inner.received + bottom.inner.incoming ==
                  old(bottom.inner.received) + old(bottom.inner.incoming)
        invariant Later(old(bottom.inner.readScript), bottom.inner.readScript)
        invariant (old(top.readEof) ==> top.readEof) && bottom.inner.ended == old(bottom.inner.ended)
        invariant Thrifty(old(bottom.inner.readScript), bottom.inner.readScript, old(bottom.inner.incoming),
                          bottom.inner.incoming, !old(top.readEof) && top.readEof)
        decreases bottom.Left().0, bottom.Left().1, bottom.Left().2, !top.readEof
      {
        var answer := top.Advance(room);
        if answer.Some? {
          if answer == Some(Failed(UnexpectedEof)) {
            EndIsIdle();
          }
          return answer.value;
        }
        ghost var between := bottom.inner.readScript;
        var pulled := Pull();
        ReadExcusedLater(old(bottom.inner.readScript), between, bottom.inner.readScript, bottom.inner.incoming,
                         bottom.inner.ended, pulled);
        if pulled.Pending? {
          return Pending;
        }
        if pulled.Failed? {
          return Failed(pulled.error);
        }
      }
    }

    // Whether a read spent an answer of the transport on no byte: its last, or the one that was its end.
    static predicate Idled(r: Poll<seq<byte>>, hadEnded: bool, ended: bool)
    {
      !hadEnded && (ended || r.Pending? || r.Failed?)
    }

    // The end of what is beneath leaves nothing to read.
    lemma EndIsIdle()
      requires Assembled() && top.readEof && top.Dry()
      ensures Idle()
    {
      hide Codec.Lawful, Codec.Going, Codec.Over, Codec.Decoding, Complete;
    }

    method Pull() returns (r: Poll<()>)
      requires Assembled() && top.Dry() && !top.readEof && !top.streamEnd
      modifies top`inBuf, top`readEof
      modifies top.inner`received, top.inner`incoming, top.inner`ended, top.inner`readScript
      modifies bottom`opening, bottom`readPlain, bottom`readConsumed, bottom`frames, bottom`delivered
      modifies bottom.reassembler, bottom.inner`received, bottom.inner`incoming, bottom.inner`readScript
      ensures Assembled() || (r == Failed(InvalidData) && Refused())
      ensures !r.Done? ==> !top.readEof
      ensures bottom.inner.received + bottom.inner.incoming == old(bottom.inner.received) + old(bottom.inner.incoming)
      ensures bottom.inner.ended == old(bottom.inner.ended)
      ensures r.Done? ==> NoiseStream.Fewer(bottom.Left(), old(bottom.Left()))
                          || (top.readEof && bottom.Left() == old(bottom.Left()))
      ensures r.Pending? ==> Idle()
      ensures r.Failed? ==> (r.error == IoError.Link && Idle()) || (r.error == InvalidData && Refused())
      ensures ReadExcused(old(bottom.inner.readScript), bottom.inner.readScript, bottom.inner.incoming,
                          bottom.inner.ended, r)
      ensures Thrifty(old(bottom.inner.readScript), bottom.inner.readScript, old(bottom.inner.incoming),
                      bottom.inner.incoming, !r.Done? || top.readEof)
    {
      hide Codec.Lawful, Codec.Going, Codec.Over, Codec.Decoding, Joined, NoiseStream.Valid, Complete, Later,
           Asked, Moved;
      top.DryIsEmpty();
      var got, _ := ReadAcross(top.inner, bottom, Compress.CHUNK);
      if got.Pending? {
        return Pending;
      }
      if got.Failed? {
        return Failed(got.error);
      }
      top.Keep(got.value);
      return Done(());
    }
  }

  // ---- Two ends --------------------------------------------------------------------------------------

  // What has been read at one end, and not only read, of what was written at the other.
  ghost predicate Conveyed(writer: Connection, reader: Connection)
    reads writer.Footprint(), reader.Footprint()
  {
    && reader.top.dec.emitted <= writer.top.enc.taken
    && reader.top.codec.Readable(reader.top.inner.received)
    && !reader.Refused()
    && (reader.top.streamEnd ==> writer.top.finished && reader.top.dec.emitted == writer.top.enc.taken)
    && (reader.bottom.inner.received == writer.bottom.inner.accepted && writer.Flushed() && reader.Idle() ==>
          reader.top.dec.emitted == writer.top.enc.taken)
  }

  // The transport has ended, short of the whole of a finished stream.
  ghost predicate CutOff(writer: Connection, reader: Connection)
    reads writer.Footprint(), reader.Footprint()
  {
    reader.bottom.inner.ended && (writer.top.finished ==> reader.top.inner.received < writer.top.enc.emitted)
  }

  // Two ends with a transport between them that carries, in order, a front part of what each gives it.
  ghost predicate Talking(a: Connection, b: Connection)
    reads a.Footprint(), b.Footprint()
  {
    && a.Footprint() !! b.Footprint()
    && a.top.codec == b.top.codec && a.bottom.aead == b.bottom.aead
    && a.Carried() && b.Carried() && Reaches(a, b) && Reaches(b, a)
  }

  ghost predicate Reaches(writer: Connection, reader: Connection)
    reads writer.bottom.inner, reader.bottom.inner
  {
    reader.bottom.inner.received + reader.bottom.inner.incoming <= writer.bottom.inner.accepted
  }

  /** Whatever has been carried so far, and wherever it is cut: what is read is a front part of what was written;
      neither layer of the reader faults; the reader reads a clean end only of a connection whose writer closed
      it, having been given everything; and a flush that reached a reader which has read all it can has carried
      everything written, so no message waits on a later one. A writer whose transport failed part way through a
      write is no exception. */
  lemma ConnectionEndToEnd(writer: Connection, reader: Connection)
    requires writer.Carried() && reader.Carried()
    requires writer.top.codec == reader.top.codec && writer.bottom.aead == reader.bottom.aead
    requires reader.bottom.inner.received <= writer.bottom.inner.accepted
    ensures Conveyed(writer, reader)
  {
    hide Codec.Lawful, Codec.Going, Codec.Over, Codec.Decoding, NoiseStream.Valid, NoiseStream.Refused, Complete;
    Delivered(writer, reader);
    NoneRefused(writer.bottom, reader.bottom);
    Compress.EndToEnd(writer.top.codec, writer.top.enc, writer.top.finished, reader.top.inner.received, reader.top.dec);
    if reader.bottom.inner.received == writer.bottom.inner.accepted && writer.Flushed() && reader.Idle() {
      assert writer.top.inner.accepted + [] == writer.top.inner.accepted;
    }
  }

  // What the layer above has been handed is of what the other's had to send.
  lemma Delivered(writer: Connection, reader: Connection)
    requires writer.Carried() && reader.Carried()
    requires writer.top.codec == reader.top.codec && writer.bottom.aead == reader.bottom.aead
    requires reader.bottom.inner.received <= writer.bottom.inner.accepted
    ensures reader.top.dec.taken <= reader.top.inner.received <= writer.top.enc.emitted
    ensures reader.bottom.inner.received == writer.bottom.inner.accepted && writer.Flushed() && reader.Idle() ==>
              reader.top.inner.received == Flatten(writer.bottom.chunks)
  {
    hide Codec.Lawful, Codec.Going, Codec.Over, Codec.Decoding, NoiseStream.Valid, Complete;
    EndsAgree(writer.bottom, reader.bottom);
  }

  // A truncation is reported only of a transport that was cut.
  lemma TruncationIsReal(writer: Connection, reader: Connection)
    requires Talking(writer, reader) && reader.Assembled() && reader.top.readEof && reader.top.Dry()
    ensures CutOff(writer, reader)
  {
    hide Codec.Lawful, Codec.Going, Codec.Decoding, NoiseStream.Valid, Complete;
    Delivered(writer, reader);
    assert reader.bottom.inner.ended;
    if writer.top.finished {
      assert writer.top.codec.Ends(writer.top.enc.emitted);
      assert reader.top.dec.taken == reader.top.inner.received;
      assert reader.top.inner.received != writer.top.enc.emitted;
    }
  }

  // ---- Every run of two ends ---------------------------------------------------------------------------

  // What is done at one end, by the layer above, with whatever its transport does meanwhile, or by the
  // transport, which brings it more of what the other end gave, or its end.
  datatype Move =
    | Write(buf: seq<byte>, script: seq<Answer>)
    | Flush(script: seq<Answer>)
    | Close(script: seq<Answer>)
    | Read(room: nat, script: seq<Answer>)
    | Carry(n: nat, end: bool)

  lemma NotRefused(c: Connection, other: Connection)
    requires other.Carried() && other.bottom.aead == c.bottom.aead && Reaches(other, c)
    ensures !c.Refused()
  {
    hide NoiseStream.Valid, NoiseStream.Refused;
    NoneRefused(other.bottom, c.bottom);
  }

  method Read(c: Connection, other: Connection, room: nat) returns (r: Poll<seq<byte>>)
    requires Talking(other, c) && c.Assembled()
    modifies c.Footprint()
    ensures Talking(other, c) && c.Assembled() && c.top.enc == old(c.top.enc)
    ensures r.Pending? ==> c.Idle()
    ensures c.top.dec.emitted == old(c.top.dec.emitted) + (if r.Done? then r.value else [])
    ensures r == Done([]) ==> room == 0 || c.top.streamEnd || (c.top.readEof && c.top.inner.received == [])
    ensures r.Failed? ==> r.error == IoError.Link || (r.error == UnexpectedEof && CutOff(other, c))
    ensures r == Failed(IoError.Link) ==> c.Idle()
    ensures ReadExcused(old(c.bottom.inner.readScript), c.bottom.inner.readScript, c.bottom.inner.incoming,
                        c.bottom.inner.ended, r)
    ensures Thrifty(old(c.bottom.inner.readScript), c.bottom.inner.readScript, old(c.bottom.inner.incoming),
                    c.bottom.inner.incoming, Connection.Idled(r, old(c.top.readEof), c.top.readEof))
    ensures c.bottom.inner.received + c.bottom.inner.incoming ==
            old(c.bottom.inner.received) + old(c.bottom.inner.incoming)
    ensures (old(c.top.readEof) ==> c.top.readEof) && (r.Pending? || r == Failed(IoError.Link) ==> !c.top.readEof)
    ensures c.bottom.inner.ended == old(c.bottom.inner.ended)
  {
    hide Connection.Carried, Connection.Assembled, Connection.Refused, CutOff, Codec.Ends, Later, Asked, Moved;
    r := c.PollRead(room);
    assert other.Carried() && Reaches(other, c) && Reaches(c, other);
    NotRefused(c, other);
    c.AssembledIsCarried();
    ConnectionEndToEnd(other, c);
    if r == Failed(UnexpectedEof) {
      TruncationIsReal(other, c);
    }
  }

  /** Reading until there is no more to be had: over a transport that moves, with answers enough, that is until all
      the transport had has been read. */
  method ReadAll(c: Connection, other: Connection, room: nat) returns (got: seq<byte>, end: Poll<seq<byte>>)
    requires Talking(other, c) && c.Assembled() && room > 0
    modifies c.Footprint()
    ensures Talking(other, c) && c.Assembled() && c.top.enc == old(c.top.enc)
    ensures c.top.dec.emitted == old(c.top.dec.emitted) + got
    ensures end.Done? ==> end.value == [] && (c.top.streamEnd || (c.top.readEof && c.top.inner.received == []))
    ensures end.Pending? ==> c.Idle()
    ensures end.Failed? ==> end.error == IoError.Link || (end.error == UnexpectedEof && CutOff(other, c))
    ensures c.bottom.inner.received + c.bottom.inner.incoming ==
            old(c.bottom.inner.received) + old(c.bottom.inner.incoming)
    ensures c.bottom.inner.ended == old(c.bottom.inner.ended)
    ensures AllMove(old(c.bottom.inner.readScript))
            && |old(c.bottom.inner.readScript)| > |old(c.bottom.inner.incoming)| ==>
              end != Failed(IoError.Link) && (end.Pending? ==> c.bottom.inner.incoming == [])
  {
    hide Connection.Carried, Connection.Assembled, Connection.Idle, CutOff, Later, Asked, Moved, AllMove, ReadExcused;
    got := [];
    LaterStart(c.bottom.inner.readScript);
    Bounded(other, c);
    while true
      invariant Talking(other, c) && c.Assembled() && c.top.enc == old(c.top.enc)
      invariant c.top.dec.emitted == old(c.top.dec.emitted) + got
      invariant |c.top.dec.emitted| <= |other.top.enc.taken|
      invariant c.bottom.inner.received + c.bottom.inner.incoming ==
                old(c.bottom.inner.received) + old(c.bottom.inner.incoming)
      invariant c.bottom.inner.ended == old(c.bottom.inner.ended) && (old(c.top.readEof) ==> c.top.readEof)
      invariant Later(old(c.bottom.inner.readScript), c.bottom.inner.readScript)
      invariant Thrifty(old(c.bottom.inner.readScript), c.bottom.inner.readScript, old(c.bottom.inner.incoming),
                        c.bottom.inner.incoming, !old(c.top.readEof) && c.top.readEof)
      decreases |other.top.enc.taken| - |c.top.dec.emitted|
    {
      ghost var between := c.bottom.inner.readScript;
      end := Read(c, other, room);
      Bounded(other, c);
      ReadExcusedLater(old(c.bottom.inner.readScript), between, c.bottom.inner.readScript, c.bottom.inner.incoming,
                       c.bottom.inner.ended, end);
      if !end.Done? || end.value == [] {
        if end.Pending? || end == Failed(IoError.Link) {
          ReadsAll(old(c.bottom.inner.readScript), c.bottom.inner.readScript, old(c.bottom.inner.incoming),
                   c.bottom.inner.incoming, c.bottom.inner.ended, end);
        }
        return;
      }
      LaterOf(old(c.bottom.inner.readScript), c.bottom.inner.readScript, c.bottom.inner.incoming,
              c.bottom.inner.ended, end);
      got := got + end.value;
    }
  }

  lemma Bounded(writer: Connection, reader: Connection)
    requires Talking(writer, reader)
    ensures |reader.top.dec.emitted| <= |writer.top.enc.taken|
  {
    hide Connection.Carried;
    ConnectionEndToEnd(writer, reader);
  }

  /** One call at one end. It keeps the two as they talk, and fails only as the transport or the encoder fails, by
      a write after a close, or, reading, where the transport was cut. */
  method Act(c: Connection, other: Connection, move: Move) returns (reply: Reply)
    requires Talking(other, c) && c.Assembled() && !move.Carry?
    modifies c.Footprint()
    ensures Talking(other, c) && (!reply.Fails() ==> c.Assembled())
    ensures Answers(other, c, move, reply)
    ensures c.top.enc.taken <= old(c.top.enc.taken) + Given(move, reply)
    ensures !reply.Fails() ==> c.top.enc.taken == old(c.top.enc.taken) + Given(move, reply)
    ensures c.top.dec.emitted == old(c.top.dec.emitted) + Taken(reply)
  {
    hide Connection.Carried, Connection.Assembled, Connection.Idle, Connection.Flushed, CutOff, WriteExcused,
         ReadExcused, Thrifty, Connection.MayFail, Asked;
    c.Schedule(move.script);
    match move {
      case Write(buf, _) =>
        var w := c.PollWrite(buf);
        reply := Wrote(w);
      case Flush(_) =>
        var s := c.PollFlush();
        reply := Settled(s);
      case Close(_) =>
        var s := c.PollClose();
        reply := Settled(s);
      case Read(room, _) =>
        var g := Read(c, other, room);
        reply := Got(g);
    }
  }

  // What a call may have written, and what it read.
  function Given(move: Move, reply: Reply): seq<byte>
  {
    if move.Write? && reply.Wrote? && !reply.w.Pending? then move.buf else []
  }

  function Taken(reply: Reply): seq<byte>
  {
    if reply.Got? && reply.g.Done? then reply.g.value else []
  }

  // What an answer says of the end that gave it.
  ghost predicate Answers(other: Connection, c: Connection, move: Move, reply: Reply)
    reads other.Footprint(), c.Footprint()
  {
    match move
    case Write(buf, script) =>
      && reply.Wrote? && (reply.w.Done? ==> reply.w.value == |buf|)
      && WriteExcused(script, c.bottom.inner.writeScript, reply.w)
    case Flush(script) =>
      && reply.Settled? && (reply.s.Done? ==> c.Flushed())
      && WriteExcused(script, c.bottom.inner.writeScript, reply.s)
    case Close(script) =>
      && reply.Settled? && (reply.s.Done? ==> c.Flushed() && c.top.finished)
      && WriteExcused(script, c.bottom.inner.writeScript, reply.s)
    case Read(room, script) =>
      && reply.Got? && ReadExcused(script, c.bottom.inner.readScript, c.bottom.inner.incoming, c.bottom.inner.ended,
                                   reply.g)
      && (reply.g.Pending? ==> c.Idle())
      && (reply.g == Done([]) ==> room == 0 || c.top.streamEnd || (c.top.readEof && c.top.inner.received == []))
      && (reply.g.Failed? ==>
            reply.g.error == IoError.Link || (reply.g.error == UnexpectedEof && CutOff(other, c)))
    case Carry(_, _) => false
  }

  /** The transport brings one end more of what the other gave it, in order, or its end. */
  method Bring(c: Connection, other: Connection, n: nat, end: bool)
    requires Talking(other, c)
    modifies c.bottom.inner`incoming, c.bottom.inner`ended
    ensures Talking(other, c) && (old(c.Assembled()) ==> c.Assembled())
    ensures old(c.bottom.inner.ended) ==> c.bottom.inner.incoming == old(c.bottom.inner.incoming)
    ensures !old(c.bottom.inner.ended) ==>
              var held, sent := |old(c.bottom.inner.received + c.bottom.inner.incoming)|, other.bottom.inner.accepted;
              && c.bottom.inner.received + c.bottom.inner.incoming == sent[..Least(held + n, |sent|)]
              && c.bottom.inner.ended == end
  {
    hide Connection.Carried, Connection.Assembled;
    var link, sent := c.bottom.inner, other.bottom.inner.accepted;
    if !link.ended {
      var came := |link.received + link.incoming|;
      var upTo := if came + n < |sent| then came + n else |sent|;
      assert link.received + (link.incoming + sent[came..upTo]) == (link.received + link.incoming) + sent[came..upTo];
      c.Arrive(sent[came..upTo], end);
    }
  }

  /** What is written, flushed and carried is read. Where one end is flushed, its transport has carried on all it
      gave and the other's moves, with answers enough, reading till there is no more reads everything written. */
  method Deliver(writer: Connection, reader: Connection, room: nat, answers: seq<Answer>)
    returns (got: seq<byte>, end: Poll<seq<byte>>)
    requires Talking(writer, reader) && reader.Assembled() && writer.Flushed() && room > 0
    requires !reader.bottom.inner.ended && AllMove(answers) && |answers| > |writer.bottom.inner.accepted|
    modifies reader.Footprint()
    ensures Talking(writer, reader) && reader.Assembled()
    ensures reader.top.dec.emitted == old(reader.top.dec.emitted) + got == writer.top.enc.taken
    ensures !end.Failed?
  {
    hide Connection.Carried, Connection.Assembled, Connection.Idle, Connection.Flushed, AllMove;
    Bring(reader, writer, |writer.bottom.inner.accepted|, false);
    reader.Schedule(answers);
    assert reader.bottom.inner.received + reader.bottom.inner.incoming == writer.bottom.inner.accepted;
    got, end := ReadAll(reader, writer, room);
    ConnectionEndToEnd(writer, reader);
    reader.NotEnded();
    assert end.Pending? ==> reader.bottom.inner.received + [] == writer.bottom.inner.accepted;
  }

  datatype Turn = Turn(left: bool, move: Move)

  // What one end was given to write over some turns, and what was read at it. A turn at an end that has failed
  // is not answered.
  function WrittenAt(turns: seq<Turn>, replies: seq<Option<Reply>>, left: bool): seq<byte>
    requires |turns| == |replies|
  {
    if turns == [] then []
    else
      var turn, reply := turns[|turns| - 1], replies[|turns| - 1];
      WrittenAt(turns[..|turns| - 1], replies[..|turns| - 1], left)
      + if turn.left == left && reply.Some? then Given(turn.move, reply.value) else []
  }

  function ReadAt(turns: seq<Turn>, replies: seq<Option<Reply>>, left: bool): seq<byte>
    requires |turns| == |replies|
  {
    if turns == [] then []
    else
      var turn, reply := turns[|turns| - 1], replies[|turns| - 1];
      ReadAt(turns[..|turns| - 1], replies[..|turns| - 1], left)
      + if turn.left == left && reply.Some? then Taken(reply.value) else []
  }

  // What an end has done so far is what the turns say of it.
  ghost predicate Tells(c: Connection, up: bool, turns: seq<Turn>, replies: seq<Option<Reply>>, left: bool)
    requires |turns| == |replies|
    reads c.Footprint()
  {
    && c.top.enc.taken <= WrittenAt(turns, replies, left)
    && (up ==> c.top.enc.taken == WrittenAt(turns, replies, left))
    && c.top.dec.emitted == ReadAt(turns, replies, left)
  }

  // A turn at the other end is nothing to this one.
  lemma TellsOn(c: Connection, up: bool, turns: seq<Turn>, replies: seq<Option<Reply>>, turn: Turn,
                reply: Option<Reply>, left: bool)
    requires |turns| == |replies| && turn.left != left && Tells(c, up, turns, replies, left)
    ensures Tells(c, up, turns + [turn], replies + [reply], left)
  {
    OneMoreTurn(turns, replies, turn, reply, left);
  }

  lemma OneMoreTurn(turns: seq<Turn>, replies: seq<Option<Reply>>, turn: Turn, reply: Option<Reply>, left: bool)
    requires |turns| == |replies|
    ensures var mine := turn.left == left && reply.Some?;
            && WrittenAt(turns + [turn], replies + [reply], left) ==
               WrittenAt(turns, replies, left) + (if mine then Given(turn.move, reply.value) else [])
            && ReadAt(turns + [turn], replies + [reply], left) ==
               ReadAt(turns, replies, left) + (if mine then Taken(reply.value) else [])
  {
    assert (turns + [turn])[..|turns|] == turns && (replies + [reply])[..|turns|] == replies;
  }

  lemma ReadIsWritten(writer: Connection, reader: Connection, turns: seq<Turn>, replies: seq<Option<Reply>>,
                      writerUp: bool, readerUp: bool, left: bool)
    requires |turns| == |replies| && Conveyed(writer, reader)
    requires Tells(writer, writerUp, turns, replies, left) && Tells(reader, readerUp, turns, replies, !left)
    ensures ReadAt(turns, replies, !left) <= WrittenAt(turns, replies, left)
  {
  }

  // Two ends as they begin, over transports that have carried nothing.
  method Meet(codec: Codec, aead: Aead, a: Link, b: Link) returns (left: Connection, right: Connection)
    requires codec.Lawful() && aead.Lawful() && a != b
    requires a.accepted == a.received == a.incoming == [] && b.accepted == b.received == b.incoming == []
    ensures Talking(left, right) && left.Assembled() && right.Assembled()
    ensures left.bottom.inner == a && right.bottom.inner == b
    ensures Tells(left, true, [], [], true) && Tells(right, true, [], [], false)
  {
    hide Codec.Lawful, Aead.Lawful, Connection.Assembled, Connection.Carried;
    left := new Connection(codec, aead, a);
    right := new Connection(codec, aead, b);
    left.AssembledIsCarried();
    right.AssembledIsCarried();
  }

  /** Every run of two ends: whatever is called at either, whatever their transports do and wherever they end, and
      for as long as an end has not failed, what has been read at each is a front part of what was written at the
      other, and is all of it once it is flushed, carried and read. */
  method Run(left: Connection, right: Connection, turns: seq<Turn>)
    returns (replies: seq<Option<Reply>>, leftUp: bool, rightUp: bool)
    requires Talking(left, right) && left.Assembled() && right.Assembled()
    requires Tells(left, true, [], [], true) && Tells(right, true, [], [], false)
    modifies left.Footprint(), right.Footprint()
    ensures Talking(left, right) && (leftUp ==> left.Assembled()) && (rightUp ==> right.Assembled())
    ensures Conveyed(left, right) && Conveyed(right, left)
    ensures |replies| == |turns|
    ensures Tells(left, leftUp, turns, replies, true) && Tells(right, rightUp, turns, replies, false)
    ensures ReadAt(turns, replies, false) <= WrittenAt(turns, replies, true)
    ensures ReadAt(turns, replies, true) <= WrittenAt(turns, replies, false)
  {
    hide Connection.Carried, Connection.Assembled, Tells, Conveyed;
    replies, leftUp, rightUp := [], true, true;
    for i := 0 to |turns|
      invariant Talking(left, right) && (leftUp ==> left.Assembled()) && (rightUp ==> right.Assembled())
      invariant |replies| == i
      invariant Tells(left, leftUp, turns[..i], replies, true) && Tells(right, rightUp, turns[..i], replies, false)
    {
      var reply;
      if turns[i].left {
        reply, leftUp := TakeTurn(left, right, leftUp, turns[..i], replies, turns[i]);
      } else {
        reply, rightUp := TakeTurn(right, left, rightUp, turns[..i], replies, turns[i]);
      }
      assert turns[..i + 1] == turns[..i] + [turns[i]];
      if turns[i].left {
        TellsOn(right, rightUp, turns[..i], replies, turns[i], reply, false);
      } else {
        TellsOn(left, leftUp, turns[..i], replies, turns[i], reply, true);
      }
      replies := replies + [reply];
    }
    assert turns[..|turns|] == turns;
    ConnectionEndToEnd(left, right);
    ConnectionEndToEnd(right, left);
    ReadIsWritten(left, right, turns, replies, leftUp, rightUp, true);
    ReadIsWritten(right, left, turns, replies, rightUp, leftUp, false);
  }

  // An end that has failed is called no more.
  method TakeTurn(c: Connection, other: Connection, up: bool, ghost turns: seq<Turn>,
                  ghost replies: seq<Option<Reply>>, turn: Turn) returns (reply: Option<Reply>, still: bool)
    requires Talking(other, c) && (up ==> c.Assembled()) && |turns| == |replies|
    requires Tells(c, up, turns, replies, turn.left)
    modifies c.Footprint()
    ensures Talking(other, c) && (still ==> c.Assembled())
    ensures Tells(c, still, turns + [turn], replies + [reply], turn.left)
  {
    hide Connection.Carried, Connection.Assembled, Answers, Given, Taken, WrittenAt, ReadAt;
    still, reply := up, None;
    if turn.move.Carry? {
      Bring(c, other, turn.move.n, turn.move.end);
    } else if up {
      var said := Act(c, other, turn.move);
      still, reply := !said.Fails(), Some(said);
    }
    OneMoreTurn(turns, replies, turn, reply, turn.left);
  }
}
