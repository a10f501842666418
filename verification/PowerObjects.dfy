/** The controller, feeds, guards and departures as objects take every step of the protocol: each of their methods,
    called where a reachable world says the step can happen, leaves objects the stepped world describes. */
module PowerObjects {
  import opened Wrappers
  import opened Power
  import opened PowerProtocol
  import opened PowerTheorems

  // The objects that are there, under the numbers the world knows them by.
  datatype Objects =
    Objects(controller: Controller, departures: map<nat, Departure>, feeds: map<nat, Feed>,
            guards: map<nat, SessionGuard>)

  ghost predicate Departures(departures: map<nat, Departure>, controller: Controller, works: map<nat, Work>)
    reads departures.Values
  {
    && (forall a, b | a in departures && b in departures && departures[a] == departures[b] :: a == b)
    && (forall a :: a in departures <==> a in works && works[a].Departing?)
    && (forall a | a in departures ::
          && departures[a].controller == controller && departures[a].going == works[a].going
          && departures[a].phase == Some(works[a].phase))
  }

  ghost predicate Feeds(feeds: map<nat, Feed>, controller: Controller, states: map<nat, FeedState>)
    reads feeds.Values
  {
    && (forall a, b | a in feeds && b in feeds && feeds[a] == feeds[b] :: a == b)
    && (forall a :: a in feeds <==> a in states)
    && (forall a | a in feeds :: feeds[a].controller == controller && feeds[a].counted == states[a].counted)
  }

  ghost predicate Guards(guards: map<nat, SessionGuard>, controller: Controller, open: set<nat>)
  {
    && (forall a :: a in guards <==> a in open)
    && (forall a | a in guards :: guards[a].controller == controller)
  }

  ghost predicate Represents(o: Objects, w: World)
    reads o.controller, o.departures.Values, o.feeds.Values
  {
    && o.controller.State() == w.hub
    && Departures(o.departures, o.controller, w.works)
    && Feeds(o.feeds, o.controller, w.feeds)
    && Guards(o.guards, o.controller, w.guards)
  }

  method Begin(acts: seq<Act>) returns (o: Objects)
    ensures fresh(o.controller) && o.controller.acts == acts && Represents(o, Start())
  {
    var controller := new Controller(acts);
    o := Objects(controller, map[], map[], map[]);
  }

  method Ask(o: Objects, ghost w: World, ghost work: nat, name: string) returns (answer: Result<Act, CannotAct>,
                                                                                 ghost next: World)
    requires Represents(o, w) && work !in w.works
    modifies o.controller`accepted
    ensures Next(o.controller.acts, w, Step.Ask(work, name)) == Some(next) && Represents(o, next)
    ensures answer.Ok? <==> work in next.works
  {
    hide Feeds, Guards, Act.Named, Move;
    answer := o.controller.Decide(name);
    next := Next(o.controller.acts, w, Step.Ask(work, name)).value;
  }

  method BatteryLow(o: Objects, ghost w: World, ghost work: nat) returns (notBegun: Option<NotBegun>,
                                                                          ghost next: World)
    requires Represents(o, w) && work !in w.works
    modifies o.controller`accepted
    ensures Next(o.controller.acts, w, Step.BatteryLow(work)) == Some(next) && Represents(o, next)
    ensures notBegun.None? <==> work in next.works
  {
    hide Feeds, Guards, Act.Named, Move;
    notBegun := o.controller.LowBattery();
    next := Next(o.controller.acts, w, Step.BatteryLow(work)).value;
  }

  // An answer sent, or a low battery recorded, sets a departure going.
  method SetOut(o: Objects, ghost w: World, work: nat, going: Going, ghost step: Step)
    returns (after: Objects, ghost next: World)
    requires Represents(o, w) && work in w.works && w.works[work].going == going
    requires if w.works[work].Recording? then step == Recorded(work)
             else w.works[work].Answering? && step == Answered(work, true)
    ensures Next(o.controller.acts, w, step) == Some(next) && Represents(after, next)
    ensures after.controller == o.controller
  {
    hide Feeds, Guards, Hub.Decide, Hub.LowBattery, Move;
    var departure := new Departure(o.controller, going);
    after := o.(departures := o.departures[work := departure]);
    next := Next(o.controller.acts, w, step).value;
  }

  // A departure's next action is its work's next step, and where it waits its work has none.
  method GoOn(o: Objects, ghost w: World, work: nat, departure: Departure, bad: bool)
    returns (after: Objects, ghost next: World)
    requires Represents(o, w) && work in o.departures && o.departures[work] == departure
    modifies o.controller, departure`phase
    ensures Represents(after, next) && after.controller == o.controller
    ensures var step := Next(o.controller.acts, w, Step.GoOn(work, bad));
            if step.Some? then next == step.value else next == w && after == o
  {
    hide Feeds, Guards, Hub.Decide, Hub.LowBattery, Onward;
    var event := departure.Step(bad);
    next := if Move(w, work, bad).Some? then Move(w, work, bad).value else w;
    after := if departure.phase.Some? then o else o.(departures := o.departures - {work});
  }

  method OpenFeed(o: Objects, ghost w: World, feed: nat) returns (after: Objects, ghost next: World)
    requires Represents(o, w) && feed !in o.feeds
    modifies o.controller`untold
    ensures Next(o.controller.acts, w, Step.OpenFeed(feed)) == Some(next) && Represents(after, next)
    ensures after.controller == o.controller
  {
    hide Departures, Guards, Hub.Decide, Hub.LowBattery, Move;
    var young := new Feed(o.controller);
    after := o.(feeds := o.feeds[feed := young]);
    next := Next(o.controller.acts, w, Step.OpenFeed(feed)).value;
  }

  // A feed is told where it is counted, has seen what is announced and has not said so yet.
  method Tell(o: Objects, ghost w: World, number: nat, feed: Feed) returns (ghost next: World)
    requires Represents(o, w) && Inv(o.controller.acts, w) && number in o.feeds && o.feeds[number] == feed
    requires w.feeds[number].counted && w.feeds[number].seen.Some?
    modifies o.controller`untold, feed`counted
    ensures Next(o.controller.acts, w, Step.Tell(number)) == Some(next) && Represents(o, next)
  {
    hide Inv, Departures, Guards, Hub.Decide, Hub.LowBattery, Move;
    FeedCanClose(o.controller.acts, w, number);
    feed.Told();
    next := Next(o.controller.acts, w, Step.Tell(number)).value;
  }

  method CloseFeed(o: Objects, ghost w: World, number: nat, feed: Feed) returns (after: Objects, ghost next: World)
    requires Represents(o, w) && Inv(o.controller.acts, w) && number in o.feeds && o.feeds[number] == feed
    modifies o.controller`untold, feed`counted
    ensures Next(o.controller.acts, w, Step.CloseFeed(number)) == Some(next) && Represents(after, next)
    ensures after.controller == o.controller
  {
    hide Inv, Departures, Guards, Hub.Decide, Hub.LowBattery, Move;
    FeedCanClose(o.controller.acts, w, number);
    feed.Told();
    after := o.(feeds := o.feeds - {number});
    next := Next(o.controller.acts, w, Step.CloseFeed(number)).value;
  }

  method OpenSession(o: Objects, ghost w: World, session: nat) returns (after: Objects, ghost next: World)
    requires Represents(o, w) && session !in o.guards
    modifies o.controller`sessions
    ensures Next(o.controller.acts, w, Step.OpenSession(session)) == Some(next) && Represents(after, next)
    ensures after.controller == o.controller
  {
    hide Departures, Feeds, Hub.Decide, Hub.LowBattery, Move;
    var guard := new SessionGuard(o.controller);
    after := o.(guards := o.guards[session := guard]);
    next := Next(o.controller.acts, w, Step.OpenSession(session)).value;
  }

  method CloseSession(o: Objects, ghost w: World, session: nat) returns (after: Objects, ghost next: World)
    requires Represents(o, w) && Inv(o.controller.acts, w) && session in o.guards
    modifies o.controller`sessions
    ensures Next(o.controller.acts, w, Step.CloseSession(session)) == Some(next) && Represents(after, next)
    ensures after.controller == o.controller
  {
    hide Inv, Departures, Feeds, Hub.Decide, Hub.LowBattery, Move;
    SessionCanClose(o.controller.acts, w, session);
    o.guards[session].Drop();
    after := o.(guards := o.guards - {session});
    next := Next(o.controller.acts, w, Step.CloseSession(session)).value;
  }
}
