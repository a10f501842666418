/** The sink and the transports as objects take every step of the clients: each of their methods, called where the
    world says the step can happen, leaves objects the stepped world describes. */
module GattObjects {
  import opened Wrappers
  import opened Bytes
  import opened Gatt
  import opened GattTheorems

  // The transports there have been, under the numbers the world knows their sessions by. No two share a channel.
  type Transports = map<nat, GattTransport>

  ghost predicate Apart(transports: Transports)
  {
    && (forall a, b | a in transports && b in transports && transports[a].inbound == transports[b].inbound :: a == b)
    && (forall a, b | a in transports && b in transports :: transports[a].inbound != transports[b].outbound)
  }

  // Each client's channel is that of the session its bytes go to.
  ghost predicate Routed(channels: map<Address, Channel>, transports: Transports, routes: map<Address, nat>)
  {
    && channels.Keys == routes.Keys
    && (forall a | a in routes :: routes[a] in transports && channels[a] == transports[routes[a]].inbound)
  }

  // A transport is what the world says of its session, but for what it has read, which only the world keeps.
  ghost predicate Is(transport: GattTransport, sink: InboundSink, session: Session)
    reads transport, transport.inbound
  {
    && transport.Valid() && transport.sink == sink
    && transport.client == session.client && transport.Receiving() == session.reader
  }

  // Every object a transport changes as it reads.
  ghost function Held(transports: Transports): set<object>
  {
    (set a | a in transports :: transports[a]) + set a | a in transports :: transports[a].inbound
  }

  ghost predicate Each(sink: InboundSink, transports: Transports, sessions: map<nat, Session>)
    reads Held(transports)
  {
    && transports.Keys == sessions.Keys
    && (forall s | s in transports :: Is(transports[s], sink, sessions[s]))
  }

  ghost predicate Represents(sink: InboundSink, transports: Transports, w: World)
    reads sink, Held(transports)
  {
    Apart(transports) && Routed(sink.sessions, transports, w.routes) && Each(sink, transports, w.sessions)
  }

  // What the world keeps of its routes, the sink keeps of its channels.
  lemma SinkIsValid(sink: InboundSink, transports: Transports, w: World)
    requires Valid(w) && Represents(sink, transports, w)
    ensures sink.Valid()
  {
    forall a | a in sink.sessions ensures sink.sessions[a].pipe.sender {
      var s := w.routes[a];
      assert Is(transports[s], sink, w.sessions[s]);
    }
  }

  // Of the transports there are, only the one a client's bytes go to holds the channel they go by.
  lemma HoldsTheChannel(sink: InboundSink, transports: Transports, w: World, client: Address)
    requires Valid(w) && Represents(sink, transports, w) && client in w.routes
    ensures client in sink.sessions && w.routes[client] in transports
    ensures forall s | s in transports ::
              transports[s].inbound == sink.sessions[client] <==> s == w.routes[client]
  {
    hide Valid, Each;
  }

  // The clients whose bytes go by a session's channel are its own, where it is installed, and no other.
  lemma OwnChannel(sink: InboundSink, transports: Transports, w: World, s: nat)
    requires Valid(w) && Represents(sink, transports, w) && s in transports
    ensures forall a | a in sink.sessions && sink.sessions[a] == transports[s].inbound :: a == transports[s].client
    ensures Installed(w, s) <==>
            transports[s].client in sink.sessions && sink.sessions[transports[s].client] == transports[s].inbound
    ensures transports[s].inbound.pipe.sender <==> Installed(w, s)
  {
    assert Is(transports[s], sink, w.sessions[s]);
  }

  lemma SameClients(sink: InboundSink, transports: Transports, w: World)
    requires Represents(sink, transports, w)
    ensures sink.sessions.Keys == w.routes.Keys
  {
  }

  // ---- The world after ---------------------------------------------------------------------------------

  lemma UnroutedIs(w: World, client: Address)
    requires Valid(w)
    ensures Unroute(w, client).routes == w.routes - {client}
    ensures client !in w.routes ==> Unroute(w, client) == w
    ensures client in w.routes ==>
              var s := w.routes[client];
              s in w.sessions && Unroute(w, client).sessions == w.sessions[s := w.sessions[s].Cut()]
  {
  }

  lemma OpenedIs(w: World, s: nat, client: Address)
    requires Valid(w) && s !in w.sessions
    ensures var next := Next(w, Step.Open(s, client));
            && next.Some? && next.value.routes == w.routes[client := s]
            && next.value.sessions == Cut(w, client)[s := Session(client, Reader(FRESH, [], 0), [])]
  {
    hide Unroute;
    UnroutedIs(w, client);
  }

  // The sessions, with the one a client's bytes went to left without its sender.
  ghost function Cut(w: World, client: Address): map<nat, Session>
    requires Valid(w)
  {
    if client in w.routes then w.sessions[w.routes[client] := w.sessions[w.routes[client]].Cut()] else w.sessions
  }

  lemma DroppedIs(w: World, s: nat)
    requires Valid(w) && s in w.sessions && w.sessions[s].reader.pipe.receiver
    ensures var next := Next(w, Step.Drop(s));
            var session, pipe := w.sessions[s], w.sessions[s].reader.pipe;
            && next.Some?
            && next.value.routes == (if Installed(w, s) then w.routes - {session.client} else w.routes)
            && next.value.sessions == w.sessions[s := session.WithPipe(Pipe(pipe.queue, false, false))]
  {
    hide Unroute;
    UnroutedIs(w, w.sessions[s].client);
  }

  lemma RoutedWithout(channels: map<Address, Channel>, transports: Transports, routes: map<Address, nat>,
                      client: Address)
    requires Routed(channels, transports, routes)
    ensures Routed(channels - {client}, transports, routes - {client})
  {
  }

  lemma RoutedWith(channels: map<Address, Channel>, transports: Transports, routes: map<Address, nat>,
                   client: Address, s: nat, transport: GattTransport)
    requires Routed(channels, transports, routes) && s !in transports
    ensures Routed(channels[client := transport.inbound], transports[s := transport], routes[client := s])
  {
  }

  lemma EachWith(sink: InboundSink, transports: Transports, sessions: map<nat, Session>, s: nat,
                 transport: GattTransport, session: Session)
    requires Each(sink, transports, sessions) && s !in transports && Is(transport, sink, session)
    ensures Each(sink, transports[s := transport], sessions[s := session])
  {
    hide Is;
  }

  lemma ApartWith(transports: Transports, s: nat, transport: GattTransport)
    requires Apart(transports) && transport.inbound != transport.outbound
    requires forall a | a in transports ::
               && transports[a].inbound != transport.inbound && transports[a].inbound != transport.outbound
               && transports[a].outbound != transport.inbound
    ensures Apart(transports[s := transport])
  {
  }

  // ---- The steps ---------------------------------------------------------------------------------------

  method Deliver(sink: InboundSink, transports: Transports, ghost w: World, client: Address, bytes: Chunk)
    returns (ghost next: World)
    requires Valid(w) && Represents(sink, transports, w)
    modifies sink`sessions, if client in sink.sessions then {sink.sessions[client]} else {}
    ensures Next(w, Step.Deliver(client, bytes)) == Some(next) && Represents(sink, transports, next)
  {
    hide Unroute, Valid, Apart, Routed, InboundSink.Valid, Pipe.Takes, Reader.Rest, Reader.Poll;
    SinkIsValid(sink, transports, w);
    UnroutedIs(w, client);
    RoutedWithout(sink.sessions, transports, w.routes, client);
    next := Next(w, Step.Deliver(client, bytes)).value;
    SameClients(sink, transports, w);
    if client in w.routes {
      HoldsTheChannel(sink, transports, w, client);
    }
    sink.Deliver(client, bytes);
  }

  method Open(sink: InboundSink, transports: Transports, ghost w: World, s: nat, client: Address, chunk: nat)
    returns (after: Transports, ghost next: World)
    requires Valid(w) && Represents(sink, transports, w) && s !in transports
    modifies sink`sessions, if client in sink.sessions then {sink.sessions[client]} else {}
    ensures Next(w, Step.Open(s, client)) == Some(next) && Represents(sink, after, next)
    ensures s in after && after[s].chunk == chunk && after == transports[s := after[s]]
  {
    hide Unroute, Valid, Routed, Next, Apart, InboundSink.Valid, Reader.Rest, Reader.Poll;
    SinkIsValid(sink, transports, w);
    SameClients(sink, transports, w);
    if client in w.routes {
      HoldsTheChannel(sink, transports, w, client);
    }
    OpenedIs(w, s, client);
    next := Next(w, Step.Open(s, client)).value;
    var transport := new GattTransport(sink, client, chunk);
    forall n | n in transports ensures Is(transports[n], sink, Cut(w, client)[n]) {
      assert old(Is(transports[n], sink, w.sessions[n]));
    }
    hide Cut, Is, Each;
    after := transports[s := transport];
    ApartWith(transports, s, transport);
    EachWith(sink, transports, Cut(w, client), s, transport, Session(client, Reader(FRESH, [], 0), []));
    RoutedWith(old(sink.sessions), transports, w.routes, client, s, transport);
  }

  // What is read is what the world adds to what the session has read.
  method Read(sink: InboundSink, transports: Transports, ghost w: World, s: nat, transport: GattTransport, room: nat)
    returns (r: Poll<seq<byte>>, ghost next: World)
    requires Valid(w) && Represents(sink, transports, w) && s in transports && transports[s] == transport
    requires transport.inbound.pipe.receiver
    modifies transport`pending, transport`consumed, transport.inbound
    ensures Next(w, Step.Read(s, room)) == Some(next) && Represents(sink, transports, next)
    ensures next.sessions[s].done == w.sessions[s].done + if r.Done? then r.value else []
  {
    hide Valid, Routed;
    r := transport.PollRead(room);
    next := Next(w, Step.Read(s, room)).value;
  }

  // What a transport writes out is no part of what the clients bring in.
  method WriteOut(sink: InboundSink, transports: Transports, ghost w: World, s: nat, transport: GattTransport,
                  buf: seq<byte>) returns (r: Poll<nat>)
    requires Represents(sink, transports, w) && s in transports && transports[s] == transport
    modifies transport.outbound
    ensures Represents(sink, transports, w)
  {
    hide Routed;
    r := transport.PollWrite(buf);
  }

  method Drop(sink: InboundSink, transports: Transports, ghost w: World, s: nat, transport: GattTransport)
    returns (ghost next: World)
    requires Valid(w) && Represents(sink, transports, w) && s in transports && transports[s] == transport
    requires transport.inbound.pipe.receiver
    modifies sink`sessions, transport.inbound, transport.outbound
    ensures Next(w, Step.Drop(s)) == Some(next) && Represents(sink, transports, next)
  {
    hide Unroute, Valid, Routed, Next, InboundSink.Valid, Reader.Rest, Reader.Poll;
    SinkIsValid(sink, transports, w);
    SameClients(sink, transports, w);
    OwnChannel(sink, transports, w, s);
    DroppedIs(w, s);
    RoutedWithout(sink.sessions, transports, w.routes, transport.client);
    next := Next(w, Step.Drop(s)).value;
    transport.Drop();
  }
}
