/** Channels of chunks, the sink that routes every client's writes into them, and the transport that reads one
    back as bytes. */
module Gatt {
  import opened Wrappers
  import opened Bytes

  type Address = n: int | 0 <= n < 0x1_0000_0000_0000

  // How many chunks are buffered before a sender is held back. A channel takes one more than this from its
  // one sender, and then nothing until one has been taken out.
  const QUEUE_DEPTH := 64

  type Chunk = seq<byte>

  // A channel of chunks: what is queued, and whether each end is still held.
  datatype Pipe = Pipe(queue: seq<Chunk>, sender: bool, receiver: bool)
  {
    predicate Full()
    {
      |queue| > QUEUE_DEPTH
    }

    predicate Takes()
    {
      receiver && !Full()
    }

    function Send(chunk: Chunk): Pipe
    {
      this.(queue := queue + [chunk])
    }
  }

  const FRESH := Pipe([], true, true)

  // A channel that has been sent so many chunks and had none taken.
  function Filled(n: nat, chunk: Chunk): Pipe
  {
    if n == 0 then FRESH else Filled(n - 1, chunk).Send(chunk)
  }

  /** A client may be sixty-five chunks ahead of its session before it is cut off, and no more. */
  lemma {:induction false} HoldsSixtyFive(n: nat, chunk: Chunk)
    ensures |Filled(n, chunk).queue| == n && Filled(n, chunk).receiver
    ensures Filled(n, chunk).Takes() <==> n < 65
  {
    if n > 0 {
      HoldsSixtyFive(n - 1, chunk);
    }
  }

  // ---- Reading -----------------------------------------------------------------------------------------

  // The receiving half of a transport: its channel, and the chunk it is part way through.
  datatype Reader = Reader(pipe: Pipe, pending: Chunk, consumed: nat)
  {
    predicate Valid()
    {
      consumed <= |pending|
    }

    // What is still to be read of what was taken.
    function Rest(): seq<byte>
      requires Valid()
    {
      pending[consumed..] + Flatten(pipe.queue)
    }

    // One poll: an empty chunk is passed over, and only the end of the stream reads as nothing.
    function Poll(room: nat): (r: (Reader, Poll<seq<byte>>))
      requires Valid()
      ensures r.0.Valid()
      decreases |pipe.queue|
    {
      if consumed < |pending| then
        var n := if |pending| - consumed <= room then |pending| - consumed else room;
        var left := if consumed + n == |pending| then Reader(pipe, [], 0) else Reader(pipe, pending, consumed + n);
        (left, Done(pending[consumed..consumed + n]))
      else if pipe.queue != [] then Reader(pipe.(queue := pipe.queue[1..]), pipe.queue[0], 0).Poll(room)
      else if pipe.sender then (this, Pending)
      else (this, Done([]))
    }
  }

  // A poll takes from the front of what is left, and leaves the rest.
  lemma {:induction false} PollTakes(reader: Reader, room: nat)
    requires reader.Valid()
    ensures var (after, r) := reader.Poll(room);
            && reader.Rest() == (if r.Done? then r.value else []) + after.Rest()
            && after.pipe.sender == reader.pipe.sender && after.pipe.receiver == reader.pipe.receiver
            && !r.Failed?
    decreases |reader.pipe.queue|
  {
    if reader.consumed < |reader.pending| {
      var n := if |reader.pending| - reader.consumed <= room then |reader.pending| - reader.consumed else room;
      var rest := reader.pending[reader.consumed..];
      assert rest == rest[..n] + rest[n..];
      assert rest[..n] == reader.pending[reader.consumed..reader.consumed + n];
      assert rest[n..] == reader.pending[reader.consumed + n..];
    } else if reader.pipe.queue != [] {
      PollTakes(Reader(reader.pipe.(queue := reader.pipe.queue[1..]), reader.pipe.queue[0], 0), room);
    }
  }

  /** With room to read into, a poll reads nothing only at the end: when nothing is left and the sender is gone.
      It waits only when nothing is left and the sender is not. */
  lemma {:induction false} EndExactly(reader: Reader, room: nat)
    requires reader.Valid() && room > 0
    ensures reader.Poll(room).1 == Done([]) <==> reader.Rest() == [] && !reader.pipe.sender
    ensures reader.Poll(room).1 == Pending <==> reader.Rest() == [] && reader.pipe.sender
    decreases |reader.pipe.queue|
  {
    if reader.consumed < |reader.pending| {
      assert reader.pending[reader.consumed..] != [];
    } else if reader.pipe.queue != [] {
      EndExactly(Reader(reader.pipe.(queue := reader.pipe.queue[1..]), reader.pipe.queue[0], 0), room);
    }
  }

  // The first chunk there is anything of, of what was taken and then of what is queued.
  function Front(reader: Reader): Chunk
    requires reader.Valid()
    decreases |reader.pipe.queue|
  {
    if reader.consumed < |reader.pending| then reader.pending[reader.consumed..]
    else if reader.pipe.queue == [] then []
    else Front(Reader(reader.pipe.(queue := reader.pipe.queue[1..]), reader.pipe.queue[0], 0))
  }

  /** A poll reads as much as there is room for of the first chunk there is anything of. */
  lemma {:induction false} TakesAllItCan(reader: Reader, room: nat)
    requires reader.Valid()
    ensures Front(reader) != [] <==> reader.Rest() != []
    ensures Front(reader) <= reader.Rest()
    ensures Front(reader) != [] ==>
              reader.Poll(room).1 == Done(Front(reader)[..if |Front(reader)| <= room then |Front(reader)| else room])
    decreases |reader.pipe.queue|
  {
    if reader.consumed < |reader.pending| {
      var front := Front(reader);
      var n := if |front| <= room then |front| else room;
      assert front[..n] == reader.pending[reader.consumed..reader.consumed + n];
    } else if reader.pipe.queue != [] {
      var queue := reader.pipe.queue;
      TakesAllItCan(Reader(reader.pipe.(queue := queue[1..]), queue[0], 0), room);
      assert reader.pending[reader.consumed..] == [] && queue[0][0..] == queue[0];
    }
  }

  // ---- The sink and the transports, as objects ---------------------------------------------------------

  class Channel {
    var pipe: Pipe

    constructor ()
      ensures pipe == FRESH
    {
      pipe := FRESH;
    }
  }

  class InboundSink {
    var sessions: map<Address, Channel>

    // No two clients share a channel, and the sink holds the sender of each it has.
    ghost predicate Valid()
      reads this, sessions.Values
    {
      && (forall a, b | a in sessions && b in sessions && sessions[a] == sessions[b] :: a == b)
      && (forall a | a in sessions :: sessions[a].pipe.sender)
    }

    constructor ()
      ensures Valid() && sessions == map[]
    {
      sessions := map[];
    }

    // Reaches the client's own channel and no other. A channel that cannot take it is done.
    method Deliver(client: Address, bytes: Chunk)
      requires Valid()
      modifies `sessions, if client in sessions then {sessions[client]} else {}
      ensures Valid()
      ensures client !in old(sessions) ==> sessions == old(sessions)
      ensures client in old(sessions) ==>
                var channel := old(sessions[client]);
                if old(channel.pipe.Takes()) then
                  sessions == old(sessions) && channel.pipe == old(channel.pipe).Send(bytes)
                else
                  sessions == old(sessions) - {client} && channel.pipe == old(channel.pipe).(sender := false)
    {
      if client in sessions {
        var channel := sessions[client];
        if channel.pipe.Takes() {
          channel.pipe := channel.pipe.Send(bytes);
        } else {
          sessions := sessions - {client};
          channel.pipe := channel.pipe.(sender := false);
        }
      }
    }

    // A client's earlier session is left without its sender.
    method Install(client: Address, channel: Channel)
      requires Valid() && channel !in sessions.Values && channel.pipe.sender
      modifies `sessions, if client in sessions then {sessions[client]} else {}
      ensures Valid()
      ensures sessions == old(sessions)[client := channel] && channel.pipe == old(channel.pipe)
      ensures client in old(sessions) ==>
                old(sessions[client]).pipe == old(sessions[client].pipe).(sender := false)
    {
      if client in sessions {
        var earlier := sessions[client];
        earlier.pipe := earlier.pipe.(sender := false);
      }
      sessions := sessions[client := channel];
    }

    // Changes nothing where `sessions` holds another channel for the client.
    method Remove(client: Address, channel: Channel)
      requires Valid()
      modifies `sessions, channel
      ensures Valid()
      ensures if client in old(sessions) && old(sessions[client]) == channel then
                sessions == old(sessions) - {client} && channel.pipe == old(channel.pipe).(sender := false)
              else sessions == old(sessions) && channel.pipe == old(channel.pipe)
    {
      if client in sessions && sessions[client] == channel {
        sessions := sessions - {client};
        channel.pipe := channel.pipe.(sender := false);
      }
    }
  }

  class GattTransport {
    const client: Address
    const chunk: nat
    const inbound: Channel
    const outbound: Channel
    const sink: InboundSink
    var pending: Chunk
    var consumed: nat

    ghost predicate Valid()
      reads this
    {
      consumed <= |pending| && inbound != outbound
    }

    ghost function Receiving(): Reader
      reads this, inbound
    {
      Reader(inbound.pipe, pending, consumed)
    }

    constructor (sink: InboundSink, client: Address, chunk: nat)
      requires sink.Valid()
      modifies sink`sessions, if client in sink.sessions then {sink.sessions[client]} else {}
      ensures Valid() && this.sink == sink && this.client == client && this.chunk == chunk
      ensures sink.Valid() && fresh(inbound) && fresh(outbound)
      ensures sink.sessions == old(sink.sessions)[client := inbound]
      ensures client in old(sink.sessions) ==>
                old(sink.sessions[client]).pipe == old(sink.sessions[client].pipe).(sender := false)
      ensures Receiving() == Reader(FRESH, [], 0) && outbound.pipe == FRESH
    {
      this.client, this.chunk, this.sink := client, chunk, sink;
      var taken := new Channel();
      var sent := new Channel();
      this.inbound, this.outbound := taken, sent;
      pending, consumed := [], 0;
      new;
      sink.Install(client, taken);
    }

    method PollRead(room: nat) returns (r: Poll<seq<byte>>)
      requires Valid()
      modifies `pending, `consumed, inbound
      ensures Valid()
      ensures (Receiving(), r) == old(Receiving()).Poll(room)
    {
      while true
        invariant Valid()
        invariant Receiving().Poll(room) == old(Receiving()).Poll(room)
        decreases |inbound.pipe.queue|
      {
        if consumed < |pending| {
          var n := if |pending| - consumed <= room then |pending| - consumed else room;
          r := Done(pending[consumed..consumed + n]);
          consumed := consumed + n;
          if consumed == |pending| {
            pending, consumed := [], 0;
          }
          return;
        }
        if inbound.pipe.queue != [] {
          pending, consumed := inbound.pipe.queue[0], 0;
          inbound.pipe := inbound.pipe.(queue := inbound.pipe.queue[1..]);
        } else if inbound.pipe.sender {
          return Pending;
        } else {
          return Done([]);
        }
      }
    }

    // As much of it as one notification carries, where the notifier keeps up.
    method PollWrite(buf: seq<byte>) returns (r: Poll<nat>)
      requires Valid()
      modifies outbound
      ensures !r.Done? || buf == [] ==> outbound.pipe == old(outbound.pipe)
      ensures buf == [] ==> r == Done(0)
      ensures buf != [] ==> (r.Done? <==> old(outbound.pipe).Takes()) && (r.Failed? <==> !old(outbound.pipe).receiver)
      ensures r.Done? && buf != [] ==>
                && r.value == (if |buf| <= chunk then |buf| else chunk)
                && outbound.pipe == old(outbound.pipe).Send(buf[..r.value])
    {
      if buf == [] {
        return Done(0);
      }
      if !outbound.pipe.receiver {
        return Failed(BrokenPipe);
      }
      if outbound.pipe.Full() {
        return Pending;
      }
      var n := if |buf| <= chunk then |buf| else chunk;
      outbound.pipe := outbound.pipe.Send(buf[..n]);
      return Done(n);
    }

    // A finished session keeps receiving nothing, and its replacement is left alone.
    method Drop()
      requires Valid() && sink.Valid()
      requires forall a | a in sink.sessions && sink.sessions[a] == inbound :: a == client
      modifies sink`sessions, inbound, outbound
      ensures sink.sessions == if client in old(sink.sessions) && old(sink.sessions[client]) == inbound
                               then old(sink.sessions) - {client} else old(sink.sessions)
      ensures inbound.pipe.queue == old(inbound.pipe.queue) && !inbound.pipe.receiver
      ensures inbound.pipe.sender ==
              (old(inbound.pipe.sender) && !(client in old(sink.sessions) && old(sink.sessions[client]) == inbound))
      ensures outbound.pipe == old(outbound.pipe).(sender := false)
    {
      sink.Remove(client, inbound);
      inbound.pipe := inbound.pipe.(receiver := false);
      outbound.pipe := outbound.pipe.(sender := false);
    }
  }
}
