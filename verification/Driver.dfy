/** The driver of a multiplexed connection: it answers every request to open a stream, surfaces the streams the
    peer opens, and closes the connection once nobody is left to use it. The multiplexer beneath is whatever
    its polls say it is. */
module Driver {
  import opened Wrappers

  type Request = nat
  type Stream = nat

  // What a poll of the multiplexer for a new stream, for one the peer opened, and for its close can say.
  datatype Opening = Opened(stream: Stream) | Refused | NotYet
  datatype Arrival = Arrived(stream: Stream) | Lost | Over | Quiet

  datatype Answer = Answer(request: Request, stream: Result<Stream, IoError>)

  // ---- What one poll does, as functions ----------------------------------------------------------------

  // The answers given, who is left waiting, and what is left of the multiplexer's replies.
  function Serve(pending: seq<Request>, openings: seq<Opening>): (seq<Answer>, seq<Request>, seq<Opening>)
    decreases |pending|
  {
    if pending == [] || openings == [] then ([], pending, openings)
    else if openings[0].NotYet? then ([], pending, openings[1..])
    else
      var answer := Answer(pending[0], if openings[0].Opened? then Ok(openings[0].stream) else Err(Other));
      var (answers, left, after) := Serve(pending[1..], openings[1..]);
      ([answer] + answers, left, after)
  }

  // The streams surfaced, how the driver ends if it does, and what is left of the multiplexer's arrivals.
  function Surface(arrivals: seq<Arrival>): (seq<Stream>, Poll<()>, seq<Arrival>)
  {
    if arrivals == [] then ([], Pending, [])
    else match arrivals[0]
      case Quiet => ([], Pending, arrivals[1..])
      case Over => ([], Done(()), arrivals[1..])
      case Lost => ([], Failed(Other), arrivals[1..])
      case Arrived(stream) =>
        var (streams, r, after) := Surface(arrivals[1..]);
        ([stream] + streams, r, after)
  }

  function Turned(pending: seq<Request>): seq<Answer>
  {
    seq(|pending|, i requires 0 <= i < |pending| => Answer(pending[i], Err(NotConnected)))
  }

  function Requests(answers: seq<Answer>): seq<Request>
  {
    seq(|answers|, i requires 0 <= i < |answers| => answers[i].request)
  }

  lemma RequestsConcat(a: seq<Answer>, b: seq<Answer>)
    ensures Requests(a + b) == Requests(a) + Requests(b)
  {
  }

  /** Serving answers those at the front, once each and in the order they asked. */
  lemma {:induction false} ServesInOrder(pending: seq<Request>, openings: seq<Opening>)
    ensures Requests(Serve(pending, openings).0) + Serve(pending, openings).1 == pending
    decreases |pending|
  {
    if pending != [] && openings != [] && !openings[0].NotYet? {
      var rest := Serve(pending[1..], openings[1..]);
      var first := Serve(pending, openings).0[0];
      ServesInOrder(pending[1..], openings[1..]);
      RequestsConcat([first], rest.0);
      assert Requests([first]) == [pending[0]];
      hide Requests;
      assert pending == [pending[0]] + (Requests(rest.0) + rest.1);
    }
  }

  // What one answer says, by what the multiplexer gave for it.
  predicate Gives(opening: Opening, answer: Answer)
  {
    !opening.NotYet? && answer.stream == if opening.Opened? then Ok(opening.stream) else Err(Other)
  }

  /** Each answer is what the multiplexer gave in its turn, and some are left waiting only where it has no more
      to give yet. */
  lemma {:induction false} ServesWhatIsGiven(pending: seq<Request>, openings: seq<Opening>)
    ensures var (answers, left, after) := Serve(pending, openings);
            && |answers| <= |openings|
            && (forall i | 0 <= i < |answers| :: Gives(openings[i], answers[i]))
            && (left != [] ==> |answers| == |openings| || openings[|answers|].NotYet?)
    decreases |pending|
  {
    if pending != [] && openings != [] && !openings[0].NotYet? {
      ServesWhatIsGiven(pending[1..], openings[1..]);
      var answers, rest := Serve(pending, openings).0, Serve(pending[1..], openings[1..]).0;
      forall i | 0 <= i < |answers| ensures Gives(openings[i], answers[i]) {
        if i > 0 {
          assert answers[i] == rest[i - 1] && openings[i] == openings[1..][i - 1];
        }
      }
    }
  }

  /** The streams surfaced are those that arrived before anything else did, in order; the driver goes on where the
      multiplexer then has nothing to say, ends where its connection is over, and fails where it is lost. */
  lemma {:induction false} SurfacesWhatArrives(arrivals: seq<Arrival>)
    ensures var (streams, outcome, after) := Surface(arrivals);
            && |streams| <= |arrivals|
            && (forall i | 0 <= i < |streams| :: arrivals[i] == Arrived(streams[i]))
            && (if |streams| == |arrivals| then outcome.Pending? && after == []
                else
                  && !arrivals[|streams|].Arrived? && after == arrivals[|streams| + 1..]
                  && (outcome.Pending? <==> arrivals[|streams|].Quiet?)
                  && (outcome.Done? <==> arrivals[|streams|].Over?)
                  && (outcome == Failed(Other) <==> arrivals[|streams|].Lost?))
  {
    if arrivals != [] && arrivals[0].Arrived? {
      SurfacesWhatArrives(arrivals[1..]);
      var streams, rest := Surface(arrivals).0, Surface(arrivals[1..]).0;
      assert streams == [arrivals[0].stream] + rest;
      forall i | 0 <= i < |streams| ensures arrivals[i] == Arrived(streams[i]) {
        if i > 0 {
          assert arrivals[i] == arrivals[1..][i - 1];
        }
      }
      if |rest| < |arrivals[1..]| {
        assert arrivals[1..][|rest| + 1..] == arrivals[|streams| + 1..];
      }
    }
  }

  /** With nobody left, everyone who waits is told so. */
  lemma TurnsAllAway(pending: seq<Request>)
    ensures Requests(Turned(pending)) == pending
    ensures forall i | 0 <= i < |pending| :: Turned(pending)[i].stream == Err(NotConnected)
  {
  }

  // ---- The driver --------------------------------------------------------------------------------------

  // What the handles have asked for and the driver not yet taken, and whether any handle is left.
  class Handles {
    var asked: seq<Request>
    var gone: bool

    constructor ()
      ensures asked == [] && !gone
    {
      asked, gone := [], false;
    }

    method PollNext() returns (r: Poll<Option<Request>>)
      modifies `asked
      ensures gone == old(gone)
      ensures old(asked) != [] ==> r == Done(Some(old(asked)[0])) && asked == old(asked)[1..]
      ensures old(asked) == [] ==> asked == [] && r == if gone then Done(None) else Pending
    {
      if asked != [] {
        r, asked := Done(Some(asked[0])), asked[1..];
      } else if gone {
        r := Done(None);
      } else {
        r := Pending;
      }
    }
  }

  // A multiplexer whose replies are whatever they are.
  class Connection {
    var openings: seq<Opening>
    var arrivals: seq<Arrival>
    var closes: seq<Poll<()>>

    constructor (openings: seq<Opening>, arrivals: seq<Arrival>, closes: seq<Poll<()>>)
      ensures this.openings == openings && this.arrivals == arrivals && this.closes == closes
    {
      this.openings, this.arrivals, this.closes := openings, arrivals, closes;
    }

    method PollNewOutbound() returns (r: Opening)
      modifies `openings
      ensures old(openings) == [] ==> r == NotYet && openings == []
      ensures old(openings) != [] ==> r == old(openings)[0] && openings == old(openings)[1..]
    {
      if openings == [] {
        return NotYet;
      }
      r, openings := openings[0], openings[1..];
    }

    method PollNextInbound() returns (r: Arrival)
      modifies `arrivals
      ensures old(arrivals) == [] ==> r == Quiet && arrivals == []
      ensures old(arrivals) != [] ==> r == old(arrivals)[0] && arrivals == old(arrivals)[1..]
    {
      if arrivals == [] {
        return Quiet;
      }
      r, arrivals := arrivals[0], arrivals[1..];
    }

    method PollClose() returns (r: Poll<()>)
      modifies `closes
      ensures r == if old(closes) == [] then Pending else old(closes)[0]
      ensures closes == if old(closes) == [] then [] else old(closes)[1..]
    {
      if closes == [] {
        return Pending;
      }
      r, closes := closes[0], closes[1..];
    }
  }

  class Driver {
    const handles: Handles
    const connection: Connection
    var pending: seq<Request>
    var closing: bool
    var answers: seq<Answer>
    var surfaced: seq<Stream>
    // Every request taken from the handles, in the order they were made.
    ghost var taken: seq<Request>

    // Each request taken has been answered once or waits, in order; and none waits once it is closing.
    ghost predicate Valid()
      reads this
    {
      Requests(answers) + pending == taken && (closing ==> pending == [])
    }

    constructor (handles: Handles, connection: Connection)
      ensures Valid() && this.handles == handles && this.connection == connection
      ensures taken == [] && answers == [] && surfaced == [] && !closing
    {
      this.handles, this.connection := handles, connection;
      pending, closing, answers, surfaced, taken := [], false, [], [], [];
    }

    /** One poll. Every request made by then is taken. With a handle left, those waiting are served in order and
        the peer's streams are surfaced; with none, everyone waiting is turned away and only the close goes on. */
    method Poll() returns (r: Poll<()>)
      requires Valid()
      modifies this, handles`asked, connection
      ensures Valid()
      ensures closing == (old(closing) || handles.gone)
      ensures !old(closing) ==> handles.asked == [] && taken == old(taken) + old(handles.asked)
      ensures old(closing) ==> handles.asked == old(handles.asked) && taken == old(taken)
      ensures closing ==>
                && answers == old(answers) + (if old(closing) then [] else Turned(old(pending) + old(handles.asked)))
                && surfaced == old(surfaced)
                && connection.openings == old(connection.openings) && connection.arrivals == old(connection.arrivals)
                && r == if old(connection.closes) == [] then Pending else old(connection.closes)[0]
      ensures !closing ==>
                && connection.closes == old(connection.closes)
                && var (served, left, openings) := Serve(old(pending) + old(handles.asked), old(connection.openings));
                   var (streams, outcome, arrivals) := Surface(old(connection.arrivals));
                   && answers == old(answers) + served && pending == left && connection.openings == openings
                   && surfaced == old(surfaced) + streams && r == outcome && connection.arrivals == arrivals
    {
      Collect();
      if closing {
        answers := answers + Turned(pending);
        RequestsConcat(old(answers), Turned(pending));
        assert Requests(Turned(pending)) == pending;
        pending := [];
        r := connection.PollClose();
        return;
      }
      ServePending();
      r := SurfaceArrivals();
    }

    // Takes the requests made, until there is none or no handle to make one.
    method Collect()
      requires Valid()
      modifies `pending, `closing, `taken, handles`asked
      ensures Requests(answers) + pending == taken
      ensures closing == (old(closing) || handles.gone)
      ensures old(closing) ==> pending == old(pending) && taken == old(taken) && handles.asked == old(handles.asked)
      ensures !old(closing) ==> handles.asked == [] && pending == old(pending) + old(handles.asked)
                                && taken == old(taken) + old(handles.asked)
    {
      while !closing
        invariant Requests(answers) + pending == taken && handles.gone == old(handles.gone)
        invariant old(closing) ==> closing && pending == old(pending) && taken == old(taken)
                                   && handles.asked == old(handles.asked)
        invariant !old(closing) ==> pending + handles.asked == old(pending) + old(handles.asked)
                                    && taken + handles.asked == old(taken) + old(handles.asked)
        invariant !old(closing) && closing ==> handles.gone && handles.asked == []
        decreases |handles.asked|, !closing
      {
        ghost var before := handles.asked;
        var next := handles.PollNext();
        if next.Pending? {
          break;
        } else if next.value.Some? {
          assert before == [before[0]] + handles.asked;
          pending := pending + [next.value.value];
          taken := taken + [next.value.value];
        } else {
          closing := true;
        }
      }
    }

    method ServePending()
      requires Valid() && !closing
      modifies `pending, `answers, connection`openings
      ensures Valid()
      ensures var (served, left, openings) := Serve(old(pending), old(connection.openings));
              answers == old(answers) + served && pending == left && connection.openings == openings
    {
      hide Requests;
      ghost var whole := Serve(pending, connection.openings);
      ghost var served: seq<Answer> := [];
      ServesInOrder(pending, connection.openings);
      while pending != []
        invariant answers == old(answers) + served
        invariant var rest := Serve(pending, connection.openings);
                  whole.0 == served + rest.0 && whole.1 == rest.1 && whole.2 == rest.2
        decreases |pending|
      {
        var opening := connection.PollNewOutbound();
        if opening.NotYet? {
          break;
        }
        var answer := Answer(pending[0], if opening.Opened? then Ok(opening.stream) else Err(Other));
        answers := answers + [answer];
        served := served + [answer];
        pending := pending[1..];
      }
      assert served == whole.0;
      RequestsConcat(old(answers), served);
      assert Requests(old(answers)) + (Requests(served) + pending)
          == (Requests(old(answers)) + Requests(served)) + pending;
    }

    method SurfaceArrivals() returns (r: Poll<()>)
      modifies `surfaced, connection`arrivals
      ensures var (streams, outcome, arrivals) := Surface(old(connection.arrivals));
              surfaced == old(surfaced) + streams && r == outcome && connection.arrivals == arrivals
    {
      ghost var whole := Surface(connection.arrivals);
      ghost var streams: seq<Stream> := [];
      while true
        invariant surfaced == old(surfaced) + streams
        invariant var rest := Surface(connection.arrivals);
                  whole.0 == streams + rest.0 && whole.1 == rest.1 && whole.2 == rest.2
        decreases |connection.arrivals|
      {
        var arrival := connection.PollNextInbound();
        match arrival {
          case Arrived(stream) =>
            surfaced := surfaced + [stream];
            streams := streams + [stream];
          case Lost => return Failed(Other);
          case Over => return Done(());
          case Quiet => return Pending;
        }
      }
    }
  }
}
