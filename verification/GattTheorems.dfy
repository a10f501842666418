/** Any number of clients, opening, writing, reading, overflowing and going in any order. */
module GattTheorems {
  import opened Wrappers
  import opened Bytes
  import opened Gatt

  // One session: whose it is, what it has yet to read, and what it has read.
  datatype Session = Session(client: Address, reader: Reader, done: seq<byte>)
  {
    predicate Valid()
    {
      reader.Valid()
    }

    // All it has been sent, read or not.
    function Sent(): seq<byte>
      requires Valid()
    {
      done + reader.Rest()
    }

    function WithPipe(pipe: Pipe): Session
    {
      this.(reader := reader.(pipe := pipe))
    }

    function Cut(): Session
    {
      WithPipe(reader.pipe.(sender := false))
    }
  }

  // Which session each client's bytes go to, and every session there has been.
  datatype World = World(routes: map<Address, nat>, sessions: map<nat, Session>)

  datatype Step =
    | Open(session: nat, client: Address)
    | Deliver(client: Address, bytes: Chunk)
    | Read(session: nat, room: nat)
    | Drop(session: nat)

  ghost predicate Valid(w: World)
  {
    && (forall a | a in w.routes :: w.routes[a] in w.sessions && w.sessions[w.routes[a]].client == a)
    && (forall s | s in w.sessions ::
          && w.sessions[s].Valid()
          && (w.sessions[s].reader.pipe.sender <==> Installed(w, s)))
  }

  predicate Installed(w: World, s: nat)
    requires s in w.sessions
  {
    w.sessions[s].client in w.routes && w.routes[w.sessions[s].client] == s
  }

  // The session a client's bytes go to is left without its sender.
  function Unroute(w: World, client: Address): World
    requires Valid(w)
  {
    if client in w.routes then
      var s := w.routes[client];
      World(w.routes - {client}, w.sessions[s := w.sessions[s].Cut()])
    else w
  }

  ghost function Next(w: World, step: Step): Option<World>
    requires Valid(w)
  {
    match step
    case Open(s, client) =>
      if s in w.sessions then None
      else
        var cut := Unroute(w, client);
        Some(World(cut.routes[client := s], cut.sessions[s := Session(client, Reader(FRESH, [], 0), [])]))
    case Deliver(client, bytes) =>
      if client !in w.routes then Some(w)
      else
        var s := w.routes[client];
        var session := w.sessions[s];
        if session.reader.pipe.Takes() then
          Some(w.(sessions := w.sessions[s := session.WithPipe(session.reader.pipe.Send(bytes))]))
        else Some(Unroute(w, client))
    case Read(s, room) =>
      if s !in w.sessions || !w.sessions[s].reader.pipe.receiver then None
      else
        var session := w.sessions[s];
        var (after, r) := session.reader.Poll(room);
        var got := if r.Done? then r.value else [];
        Some(w.(sessions := w.sessions[s := session.(reader := after, done := session.done + got)]))
    case Drop(s) =>
      if s !in w.sessions || !w.sessions[s].reader.pipe.receiver then None
      else
        var cut := if Installed(w, s) then Unroute(w, w.sessions[s].client) else w;
        var session := cut.sessions[s];
        Some(cut.(sessions := cut.sessions[s := session.WithPipe(session.reader.pipe.(receiver := false))]))
  }

  lemma UnrouteKeeps(w: World, client: Address)
    requires Valid(w)
    ensures Valid(Unroute(w, client))
    ensures client !in Unroute(w, client).routes
  {
    hide Flatten;
  }

  lemma OpenKeeps(w: World, s: nat, client: Address)
    requires Valid(w) && s !in w.sessions
    ensures Valid(Next(w, Open(s, client)).value)
  {
    UnrouteKeeps(w, client);
  }

  lemma DeliverKeeps(w: World, client: Address, bytes: Chunk)
    requires Valid(w)
    ensures Valid(Next(w, Deliver(client, bytes)).value)
  {
    hide Unroute;
    UnrouteKeeps(w, client);
  }

  lemma DropKeeps(w: World, s: nat)
    requires Valid(w) && s in w.sessions && w.sessions[s].reader.pipe.receiver
    ensures Valid(Next(w, Drop(s)).value)
  {
    UnrouteKeeps(w, w.sessions[s].client);
  }

  lemma StepKeeps(w: World, step: Step)
    requires Valid(w) && Next(w, step).Some?
    ensures Valid(Next(w, step).value)
  {
    match step
    case Open(s, client) => OpenKeeps(w, s, client);
    case Deliver(client, bytes) => DeliverKeeps(w, client, bytes);
    case Read(s, room) => PollTakes(w.sessions[s].reader, room);
    case Drop(s) => DropKeeps(w, s);
  }

  // What the clients' writes bring one client over some steps.
  function Written(steps: seq<Step>, client: Address): seq<byte>
  {
    if steps == [] then []
    else (if steps[0].Deliver? && steps[0].client == client then steps[0].bytes else []) + Written(steps[1..], client)
  }

  ghost function Run(w: World, steps: seq<Step>): Option<World>
    requires Valid(w)
    decreases |steps|
  {
    if steps == [] then Some(w)
    else if Next(w, steps[0]).None? then None
    else
      StepKeeps(w, steps[0]);
      Run(Next(w, steps[0]).value, steps[1..])
  }

  // What one step does to one session: it is sent what its client writes while it is installed and can take
  // it, and nothing else; once it is not installed it never is again.
  ghost predicate Sends(w: World, next: World, s: nat, written: seq<byte>)
    requires s in w.sessions && w.sessions[s].Valid()
  {
    && s in next.sessions && next.sessions[s].client == w.sessions[s].client && next.sessions[s].Valid()
    && w.sessions[s].done <= next.sessions[s].done
    && (Installed(next, s) ==> Installed(w, s))
    && next.sessions[s].Sent() == w.sessions[s].Sent() + (if Installed(next, s) then written else [])
  }

  lemma ReadSends(w: World, r: nat, room: nat, s: nat)
    requires Valid(w) && Next(w, Read(r, room)).Some? && s in w.sessions
    ensures Sends(w, Next(w, Read(r, room)).value, s, [])
  {
    var session := w.sessions[s];
    PollTakes(w.sessions[r].reader, room);
    if r == s {
      hide Reader.Poll, Reader.Rest;
      var (after, got) := session.reader.Poll(room);
      var bytes := if got.Done? then got.value else [];
      assert (session.done + bytes) + after.Rest() == session.done + (bytes + after.Rest());
    }
  }

  lemma DeliverSends(w: World, client: Address, bytes: Chunk, s: nat)
    requires Valid(w) && s in w.sessions
    ensures Sends(w, Next(w, Deliver(client, bytes)).value, s, if client == w.sessions[s].client then bytes else [])
  {
    var session := w.sessions[s];
    if client in w.routes && w.routes[client] == s && session.reader.pipe.Takes() {
      var reader := session.reader;
      var after := reader.(pipe := reader.pipe.Send(bytes));
      FlattenSnoc(reader.pipe.queue, bytes);
      hide Flatten;
      assert after.Rest() == reader.Rest() + bytes;
    }
  }

  lemma OtherSends(w: World, step: Step, s: nat)
    requires Valid(w) && Next(w, step).Some? && s in w.sessions && (step.Open? || step.Drop?)
    ensures Sends(w, Next(w, step).value, s, [])
  {
    hide Flatten;
  }

  lemma StepSends(w: World, step: Step, s: nat)
    requires Valid(w) && Next(w, step).Some? && s in w.sessions
    ensures Sends(w, Next(w, step).value, s, Written([step], w.sessions[s].client))
  {
    OneWritten(step, w.sessions[s].client);
    hide Next, Sends;
    match step
    case Read(r, room) => ReadSends(w, r, room, s);
    case Deliver(client, bytes) => DeliverSends(w, client, bytes, s);
    case _ => OtherSends(w, step, s);
  }

  lemma OneWritten(step: Step, client: Address)
    ensures Written([step], client) == if step.Deliver? && step.client == client then step.bytes else []
  {
    assert [step][1..] == [];
  }

  /** Over any run, what a session has been sent grows only by what its own client writes, in order, from the
      first of it on and with nothing left out: all of it for as long as it is installed, and then no more. */
  lemma {:induction false} RunSends(w: World, steps: seq<Step>, s: nat)
    requires Valid(w) && Run(w, steps).Some? && s in w.sessions
    ensures var end := Run(w, steps).value;
            && s in end.sessions && end.sessions[s].client == w.sessions[s].client && end.sessions[s].Valid()
            && w.sessions[s].done <= end.sessions[s].done
            && w.sessions[s].Sent() <= end.sessions[s].Sent()
            && end.sessions[s].Sent() <= w.sessions[s].Sent() + Written(steps, w.sessions[s].client)
            && (Installed(end, s) ==> Installed(w, s))
            && (Installed(end, s) ==>
                  end.sessions[s].Sent() == w.sessions[s].Sent() + Written(steps, w.sessions[s].client))
            && (!Installed(w, s) ==> end.sessions[s].Sent() == w.sessions[s].Sent())
    decreases |steps|
  {
    assert w.sessions[s].Valid();
    hide Valid, Next, Session.Sent, Session.Valid;
    if steps != [] {
      StepKeeps(w, steps[0]);
      StepSends(w, steps[0], s);
      OneWritten(steps[0], w.sessions[s].client);
      var next := Next(w, steps[0]).value;
      RunSends(next, steps[1..], s);
      var client := w.sessions[s].client;
      assert Written(steps, client) == Written([steps[0]], client) + Written(steps[1..], client);
    }
  }

  /** Isolation without holes: whatever the clients do and in whatever order, what a session reads is a prefix
      of what its own client writes from its opening on. */
  lemma ReadsItsOwnClient(w: World, s: nat, client: Address, steps: seq<Step>)
    requires Valid(w) && Run(w, [Open(s, client)] + steps).Some?
    ensures var end := Run(w, [Open(s, client)] + steps).value;
            s in end.sessions && end.sessions[s].done <= Written(steps, client)
  {
    var all := [Open(s, client)] + steps;
    assert all[1..] == steps;
    StepKeeps(w, Open(s, client));
    var next := Next(w, Open(s, client)).value;
    RunSends(next, steps, s);
    var end := Run(next, steps).value;
    assert next.sessions[s].Sent() == [];
    assert end.sessions[s].done <= end.sessions[s].Sent();
  }

  /** A session stays installed until its client opens another, it overflows, or it is dropped itself: dropping
      a session that has been replaced leaves its replacement where it is. */
  lemma StaysInstalled(w: World, step: Step, s: nat)
    requires Valid(w) && Next(w, step).Some? && s in w.sessions && Installed(w, s)
    ensures Next(w, step).Some? && s in Next(w, step).value.sessions
    ensures !Installed(Next(w, step).value, s) <==>
            || (step.Open? && step.client == w.sessions[s].client)
            || (step.Deliver? && step.client == w.sessions[s].client && !w.sessions[s].reader.pipe.Takes())
            || (step.Drop? && step.session == s)
  {
  }

  /** A session replaced reads what it was sent, and then the end of its stream. */
  lemma ReplacedReadsOut(w: World, s: nat, room: nat)
    requires Valid(w) && s in w.sessions && !Installed(w, s) && room > 0
    ensures w.sessions[s].reader.Poll(room).1.Done?
    ensures w.sessions[s].reader.Poll(room).1 == Done([]) <==> w.sessions[s].reader.Rest() == []
  {
    EndExactly(w.sessions[s].reader, room);
    PollTakes(w.sessions[s].reader, room);
  }
}
