/** The transport beneath a layer, as an adversary, and the backlog a layer keeps over it.

    A transport may take part of what it is given, hand up part of what it holds, stall or fail. Which
    it does is its `script`, so what is proved of a caller is proved of every schedule. */
module Transport {
  import opened Wrappers
  import opened Bytes

  // One answer of a transport: move up to this many bytes, or stall, or fail. Moving no bytes is a
  // refusal on a write.
  datatype Answer = Move(most: nat) | Stall | Break

  // A script says what comes next, and stalls once it has no more to say.
  function Next(script: seq<Answer>): Answer
  {
    if script == [] then Stall else script[0]
  }

  function Rest(script: seq<Answer>): seq<Answer>
  {
    if script == [] then [] else script[1..]
  }

  // One script is what another leaves once some of its answers were given.
  ghost predicate Later(before: seq<Answer>, after: seq<Answer>)
  {
    exists k: nat :: LaterBy(before, after, k)
  }

  ghost predicate LaterBy(before: seq<Answer>, after: seq<Answer>, k: nat)
  {
    k <= |before| && after == before[k..]
  }

  // And the last of those given was this one.
  ghost predicate Asked(before: seq<Answer>, after: seq<Answer>, last: Answer)
  {
    exists left :: Later(before, left) && Next(left) == last && Rest(left) == after
  }

  ghost predicate Moved(before: seq<Answer>, after: seq<Answer>)
  {
    exists most :: Asked(before, after, Move(most))
  }

  lemma LaterStill(a: seq<Answer>, b: seq<Answer>, c: seq<Answer>)
    requires Later(a, b) && Later(b, c)
    ensures Later(a, c)
  {
    var i: nat :| LaterBy(a, b, i);
    var j: nat :| LaterBy(b, c, j);
    assert LaterBy(a, c, i + j);
  }

  lemma AskedLater(a: seq<Answer>, b: seq<Answer>, c: seq<Answer>)
    requires Later(a, b)
    ensures forall last :: Asked(b, c, last) ==> Asked(a, c, last)
    ensures Moved(b, c) ==> Moved(a, c)
  {
    hide Later;
    forall last | Asked(b, c, last) ensures Asked(a, c, last) {
      var left :| Later(b, left) && Next(left) == last && Rest(left) == c;
      LaterStill(a, b, left);
    }
  }

  // One answer given.
  lemma AskedOnce(script: seq<Answer>)
    ensures Later(script, script) && Later(script, Rest(script)) && Asked(script, Rest(script), Next(script))
    ensures Next(script).Move? ==> Moved(script, Rest(script))
  {
    assert LaterBy(script, script, 0);
    assert LaterBy(script, Rest(script), if script == [] then 0 else 1);
    assert Later(script, script);
    assert Asked(script, Rest(script), Next(script));
  }

  lemma AskedIsLater(before: seq<Answer>, after: seq<Answer>, last: Answer)
    requires Asked(before, after, last)
    ensures Later(before, after)
  {
    var left :| Later(before, left) && Next(left) == last && Rest(left) == after;
    AskedOnce(left);
    LaterStill(before, left, after);
  }

  /** What the transport last did, for a poll over writes to be answered so: it waits only where the transport
      stalled, and fails as the transport only where that failed, or took nothing. */
  ghost predicate WriteExcused<T>(before: seq<Answer>, after: seq<Answer>, r: Poll<T>)
  {
    && Later(before, after)
    && (r.Pending? ==> Asked(before, after, Stall))
    && (r.Failed? && r.error == IoError.Link ==> Asked(before, after, Break))
    && (r.Failed? && r.error == WriteZero ==> Asked(before, after, Move(0)))
  }

  lemma ExcusedLater<T>(a: seq<Answer>, b: seq<Answer>, c: seq<Answer>, r: Poll<T>)
    requires Later(a, b) && WriteExcused(b, c, r)
    ensures WriteExcused(a, c, r)
  {
    LaterStill(a, b, c);
    AskedLater(a, b, c);
  }

  /** And over reads: it waits only where the transport stalled, or had brought all there was and not its end. */
  ghost predicate ReadExcused<T>(before: seq<Answer>, after: seq<Answer>, incoming: seq<byte>, ended: bool, r: Poll<T>)
  {
    && Later(before, after)
    && (r.Pending? ==> Asked(before, after, Stall) || (Moved(before, after) && incoming == [] && !ended))
    && (r.Failed? && r.error == IoError.Link ==> Asked(before, after, Break))
  }

  lemma ReadExcusedLater<T>(a: seq<Answer>, b: seq<Answer>, c: seq<Answer>, incoming: seq<byte>, ended: bool,
                            r: Poll<T>)
    requires Later(a, b) && ReadExcused(b, c, incoming, ended, r)
    ensures ReadExcused(a, c, incoming, ended, r)
  {
    LaterStill(a, b, c);
    AskedLater(a, b, c);
  }

  lemma LaterStart(script: seq<Answer>)
    ensures Later(script, script)
  {
    AskedOnce(script);
  }

  lemma LaterOf<T>(before: seq<Answer>, after: seq<Answer>, incoming: seq<byte>, ended: bool, r: Poll<T>)
    requires ReadExcused(before, after, incoming, ended, r)
    ensures Later(before, after)
  {
  }

  // A transport that never stalls or fails while it has answers to give.
  predicate AllMove(script: seq<Answer>)
  {
    forall i | 0 <= i < |script| :: script[i].Move?
  }

  // Such a transport stalls only for want of answers, and does not fail.
  lemma MovesOrSpent(before: seq<Answer>, after: seq<Answer>)
    requires AllMove(before)
    ensures Asked(before, after, Stall) ==> after == []
    ensures !Asked(before, after, Break)
    ensures Later(before, after) ==> AllMove(after)
  {
    forall left | Later(before, left) ensures AllMove(left) {
    }
  }

  // No more answers were spent than bytes were brought, and one that brought none.
  predicate Thrifty(before: seq<Answer>, after: seq<Answer>, incoming: seq<byte>, left: seq<byte>, idle: bool)
  {
    |before| + |left| <= |after| + |incoming| + if idle then 1 else 0
  }

  // With answers enough that all move, a read that waits has been brought everything.
  lemma ReadsAll<T>(before: seq<Answer>, after: seq<Answer>, incoming: seq<byte>, left: seq<byte>, ended: bool,
                    r: Poll<T>)
    requires ReadExcused(before, after, left, ended, r) && Thrifty(before, after, incoming, left, true)
    ensures AllMove(before) && |before| > |incoming| ==> !(r.Failed? && r.error == IoError.Link)
    ensures AllMove(before) && |before| > |incoming| && r.Pending? ==> left == []
  {
    if AllMove(before) {
      MovesOrSpent(before, after);
    }
  }

  function Least(a: nat, b: nat): nat
  {
    if a < b then a else b
  }

  class Link {
    // Every byte the transport has accepted, and every byte it has handed up, in order.
    var accepted: seq<byte>
    var received: seq<byte>
    // What the peer sent that has not been handed up, and whether its end of stream follows.
    var incoming: seq<byte>
    var ended: bool
    // How much of what was accepted is known to have been sent on, and whether the sending side is closed.
    var flushed: nat
    var closed: bool
    var writeScript: seq<Answer>
    var readScript: seq<Answer>

    constructor (incoming: seq<byte>, ended: bool, writeScript: seq<Answer>, readScript: seq<Answer>)
      ensures accepted == [] && received == [] && this.incoming == incoming && this.ended == ended
      ensures flushed == 0 && !closed
    {
      this.flushed, this.closed := 0, false;
      this.accepted, this.received, this.incoming, this.ended := [], [], incoming, ended;
      this.writeScript, this.readScript := writeScript, readScript;
    }

    // More of what the peer sent reaches this end, between polls.
    method Arrive(bytes: seq<byte>, end: bool)
      requires !ended
      modifies this`incoming, this`ended
      ensures incoming == old(incoming) + bytes && ended == end
    {
      incoming, ended := incoming + bytes, end;
    }

    method PollWrite(buf: seq<byte>) returns (r: Poll<nat>)
      modifies this`accepted, this`writeScript
      ensures r.Done? ==> r.value <= |buf| && accepted == old(accepted) + buf[..r.value]
      ensures !r.Done? ==> accepted == old(accepted)
      ensures r.Failed? ==> r.error == IoError.Link
      ensures r == match Next(old(writeScript))
                   case Stall => Pending
                   case Break => Failed(IoError.Link)
                   case Move(most) => Done(Least(most, |buf|))
      ensures writeScript == Rest(old(writeScript))
    {
      var answer := Next(writeScript);
      writeScript := Rest(writeScript);
      match answer
      case Stall => r := Pending;
      case Break => r := Failed(IoError.Link);
      case Move(most) =>
        var n := Least(most, |buf|);
        accepted := accepted + buf[..n];
        r := Done(n);
    }

    // What was accepted is sent on.
    method PollFlush() returns (r: Poll<()>)
      modifies this`writeScript, this`flushed
      ensures r.Failed? ==> r.error == IoError.Link
      ensures r == Settling(old(writeScript)) && writeScript == Rest(old(writeScript))
      ensures flushed == if r.Done? then |accepted| else old(flushed)
    {
      r := Settling(writeScript);
      writeScript := Rest(writeScript);
      if r.Done? {
        flushed := |accepted|;
      }
    }

    // And the sending side closed.
    method PollClose() returns (r: Poll<()>)
      modifies this`writeScript, this`flushed, this`closed
      ensures r.Failed? ==> r.error == IoError.Link
      ensures r == Settling(old(writeScript)) && writeScript == Rest(old(writeScript))
      ensures flushed == if r.Done? then |accepted| else old(flushed)
      ensures closed == (old(closed) || r.Done?)
    {
      r := Settling(writeScript);
      writeScript := Rest(writeScript);
      if r.Done? {
        flushed, closed := |accepted|, true;
      }
    }

    static function Settling(script: seq<Answer>): Poll<()>
    {
      match Next(script)
      case Stall => Pending
      case Break => Failed(IoError.Link)
      case Move(_) => Done(())
    }

    // Up to `room` bytes of what the peer sent; none only at its end of stream.
    method PollRead(room: nat) returns (r: Poll<seq<byte>>)
      requires room > 0
      modifies this`received, this`incoming, this`readScript
      ensures r.Done? ==>
                |r.value| <= room && received == old(received) + r.value && old(incoming) == r.value + incoming
      ensures r.Done? && r.value == [] ==> incoming == [] && ended
      ensures !r.Done? ==> received == old(received) && incoming == old(incoming)
      ensures r.Failed? ==> r.error == IoError.Link
      ensures r == match Next(old(readScript))
                   case Stall => Pending
                   case Break => Failed(IoError.Link)
                   case Move(most) =>
                     if old(incoming) == [] then if ended then Done([]) else Pending
                     else Done(old(incoming)[..Least(Least(if most == 0 then 1 else most, room), |old(incoming)|)])
      ensures readScript == Rest(old(readScript))
    {
      var answer := Next(readScript);
      readScript := Rest(readScript);
      match answer
      case Stall => r := Pending;
      case Break => r := Failed(IoError.Link);
      case Move(most) =>
        if incoming == [] {
          r := if ended then Done([]) else Pending;
        } else {
          var n := Least(Least(if most == 0 then 1 else most, room), |incoming|);
          r := Done(incoming[..n]);
          received := received + incoming[..n];
          incoming := incoming[n..];
        }
    }
  }

  /** Bytes a layer has written that the transport beneath has not yet accepted. */
  class WriteBacklog {
    var buf: seq<byte>
    var sent: nat

    ghost predicate Valid()
      reads this
    {
      sent <= |buf|
    }

    // What is still to be accepted.
    ghost function Waiting(): seq<byte>
      requires Valid()
      reads this
    {
      buf[sent..]
    }

    constructor ()
      ensures Valid() && Waiting() == []
    {
      buf, sent := [], 0;
    }

    method Extend(bytes: seq<byte>)
      requires Valid()
      modifies this
      ensures Valid() && Waiting() == old(Waiting()) + bytes
    {
      buf := buf + bytes;
    }

    // Whatever the transport accepts comes off the front of what was waiting, so what it has accepted
    // and what still waits are together always the same bytes.
    method PollDrain(inner: Link) returns (r: Poll<()>)
      requires Valid()
      modifies this, inner`accepted, inner`writeScript
      ensures Valid()
      ensures inner.accepted + Waiting() == old(inner.accepted) + old(Waiting())
      ensures old(inner.accepted) <= inner.accepted
      ensures r.Done? ==> Waiting() == []
      ensures r.Pending? ==> Waiting() != []
      ensures r.Failed? ==> Waiting() != [] && r.error in {WriteZero, IoError.Link}
      ensures WriteExcused(old(inner.writeScript), inner.writeScript, r)
    {
      hide Later, Asked, Rest, Next;
      AskedOnce(inner.writeScript);
      ghost var all := inner.accepted + Waiting();
      ghost var start := inner.accepted;
      while sent < |buf|
        invariant Valid() && buf == old(buf)
        invariant inner.accepted + Waiting() == all
        invariant start <= inner.accepted
        invariant Later(old(inner.writeScript), inner.writeScript)
        decreases |buf| - sent
      {
        AskedOnce(inner.writeScript);
        AskedLater(old(inner.writeScript), inner.writeScript, Rest(inner.writeScript));
        LaterStill(old(inner.writeScript), inner.writeScript, Rest(inner.writeScript));
        var n := inner.PollWrite(buf[sent..]);
        if n.Pending? {
          return Pending;
        }
        if n.Failed? {
          return Failed(n.error);
        }
        if n.value == 0 {
          return Failed(WriteZero);
        }
        assert buf[sent..] == buf[sent..][..n.value] + buf[sent + n.value..];
        sent := sent + n.value;
      }
      buf, sent := [], 0;
      return Done(());
    }
  }
}
