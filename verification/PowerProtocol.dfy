/** Every interleaving of what touches the power controller: asks and their answers, a low battery, feeds and
    sessions opening and closing, and departures, any number of which could be under way. */
module PowerProtocol {
  import opened Wrappers
  import opened Power

  // The act a feed has seen announced, and how much had happened when it saw it.
  datatype Sight = Sight(going: Going, at: nat)

  datatype FeedState = FeedState(counted: bool, seen: Option<Sight>, born: nat)

  // What is under way for an act that took the slot: its answer being sent, what its run on battery taught
  // being recorded, or the going away itself.
  datatype Work = Answering(going: Going) | Recording(going: Going) | Departing(going: Going, phase: Phase)

  datatype World = World(hub: Hub, works: map<nat, Work>, feeds: map<nat, FeedState>, guards: set<nat>,
                         history: seq<Event>)

  const CYCLE := 9

  datatype Step =
    | Ask(work: nat, name: string)
    | Answered(work: nat, sent: bool)
    | BatteryLow(work: nat)
    | Recorded(work: nat)
    | GoOn(work: nat, bad: bool)
    | OpenFeed(feed: nat)
    | See(feed: nat)
    | Tell(feed: nat)
    | CloseFeed(feed: nat)
    | OpenSession(session: nat)
    | CloseSession(session: nat)

  function Start(): World
  {
    World(FRESH, map[], map[], {}, [])
  }

  // A feed leaves the count once, told or closed.
  function Uncount(hub: Hub, counted: bool): Option<Hub>
  {
    if !counted then Some(hub)
    else if hub.untold > 0 then Some(hub.(untold := hub.untold - 1))
    else None
  }

  // One uninterrupted action, where it can happen. Work, feeds and sessions are numbered as they come.
  function Next(acts: seq<Act>, w: World, step: Step): Option<World>
  {
    match step
    case Ask(work, name) =>
      if work in w.works then None
      else
        var (hub, answer) := w.hub.Decide(acts, name);
        Some(if answer.Ok? then Take(w, hub, work, Answering(Going(answer.value, ManualControl))) else w)
    case Answered(work, sent) =>
      if work !in w.works || !w.works[work].Answering? then None
      else if sent then Some(w.(works := w.works[work := Departing(w.works[work].going, Spawned)]))
      else Some(w.(works := w.works - {work}))
    case BatteryLow(work) =>
      if work in w.works then None
      else
        var (hub, notBegun) := w.hub.LowBattery(acts);
        Some(if notBegun.None? then Take(w, hub, work, Recording(LOW_BATTERY)) else w)
    case Recorded(work) =>
      if work !in w.works || !w.works[work].Recording? then None
      else Some(w.(works := w.works[work := Departing(w.works[work].going, Spawned)]))
    case GoOn(work, bad) =>
      if work !in w.works || !w.works[work].Departing? then None
      else Move(w, work, bad)
    case OpenFeed(feed) =>
      if feed in w.feeds then None
      else Some(w.(hub := w.hub.(untold := w.hub.untold + 1),
                   feeds := w.feeds[feed := FeedState(true, None, |w.history|)]))
    case See(feed) =>
      if feed !in w.feeds || !w.feeds[feed].counted || w.feeds[feed].seen.Some? || w.hub.announced.None? then None
      else Some(w.(feeds := w.feeds[feed := w.feeds[feed].(seen := Some(Sight(w.hub.announced.value, |w.history|)))]))
    case Tell(feed) =>
      if feed !in w.feeds || w.feeds[feed].seen.None? || !w.feeds[feed].counted then None
      else
        var hub := Uncount(w.hub, true);
        if hub.None? then None
        else Some(w.(hub := hub.value, feeds := w.feeds[feed := w.feeds[feed].(counted := false)]))
    case CloseFeed(feed) =>
      if feed !in w.feeds then None
      else
        var hub := Uncount(w.hub, w.feeds[feed].counted);
        if hub.None? then None else Some(w.(hub := hub.value, feeds := w.feeds - {feed}))
    case OpenSession(session) =>
      if session in w.guards then None
      else Some(w.(hub := w.hub.(sessions := w.hub.sessions + 1), guards := w.guards + {session}))
    case CloseSession(session) =>
      if session !in w.guards || w.hub.sessions == 0 then None
      else Some(w.(hub := w.hub.(sessions := w.hub.sessions - 1), guards := w.guards - {session}))
  }

  function Take(w: World, hub: Hub, work: nat, begun: Work): World
  {
    w.(hub := hub, works := w.works[work := begun], history := w.history + [Accepted(begun.going)])
  }

  function Move(w: World, work: nat, bad: bool): Option<World>
    requires work in w.works && w.works[work].Departing?
  {
    match Onward(w.hub, w.works[work].going, w.works[work].phase, bad)
    case Waits => None
    case Moves(hub, phase, event) =>
      Some(w.(hub := hub,
              works := if phase.Some? then w.works[work := w.works[work].(phase := phase.value)] else w.works - {work},
              history := if event.Some? then w.history + [event.value] else w.history))
  }

  // Where a run ends, where every one of its steps can happen.
  function Run(acts: seq<Act>, w: World, steps: seq<Step>): Option<World>
    decreases |steps|
  {
    if steps == [] then Some(w)
    else
      var next := Next(acts, w, steps[0]);
      if next.None? then None else Run(acts, next.value, steps[1..])
  }

  // ---- The history of every run ------------------------------------------------------------------------

  // What may stand `n`th in one act's going away.
  predicate Due(n: nat, event: Event, going: Going)
  {
    match n
    case 0 => event == Accepted(going)
    case 1 => event == Announced(going)
    case 2 => event.ToldFeeds?
    case 3 => event == EndingSet
    case 4 => event.ClosedSessions?
    case 5 => event == LinksDropped
    case 6 => event == CarriedOut(going)
    case 7 => event == ActFailed(going)
    case 8 => event == Freed
    case _ => false
  }

  // Where in its cycle an event stands, and where that cycle begins.
  function Place(i: nat): (n: nat)
    ensures n < CYCLE
  {
    i % CYCLE
  }

  function First(i: nat): (first: nat)
    ensures first <= i
  {
    i - i % CYCLE
  }

  lemma Places(i: nat)
    ensures First(i) == i - Place(i)
    ensures if Place(i) == 8 then Place(i + 1) == 0 else Place(i + 1) == Place(i) + 1
  {
  }

  // The act whose acceptance began the cycle.
  function GoingAt(history: seq<Event>, i: nat): Option<Going>
    requires i < |history|
  {
    var first := history[First(i)];
    if first.Accepted? then Some(first.going) else None
  }

  // One act after another, each accepted, announced, told, ended, closed, dropped and carried out in that
  // order, and each failed and let go of before the next is accepted.
  predicate Ordered(history: seq<Event>)
  {
    forall i | 0 <= i < |history| :: DueAt(history, i)
  }

  predicate DueAt(history: seq<Event>, i: nat)
    requires i < |history|
  {
    GoingAt(history, i).Some? && Due(Place(i), history[i], GoingAt(history, i).value)
  }

  // The act under way, where one is.
  function Current(w: World): Option<Going>
  {
    if Place(|w.history|) == 0 then None else GoingAt(w.history, |w.history| - 1)
  }

  // How far into its cycle the work of a phase is.
  function Stage(work: Work): nat
  {
    match work
    case Answering(_) => 1
    case Recording(_) => 1
    case Departing(_, phase) =>
      match phase
      case Spawned => 1
      case Telling => 2
      case Told => 3
      case Closing => 4
      case Closed => 5
      case Dropped => 6
      case Carrying => 7
      case _ => 8
  }

  // ---- What every step keeps ---------------------------------------------------------------------------

  function Counted(feeds: map<nat, FeedState>): set<nat>
  {
    set f | f in feeds && feeds[f].counted
  }

  // The one slot, the one work, and what has been said of them.
  ghost predicate SlotHeld(acts: seq<Act>, w: World)
  {
    var n := Place(|w.history|);
    && Ordered(w.history)
    && (forall i | 0 <= i < |w.history| && w.history[i].Accepted? :: w.history[i].going.act in acts)
    && w.hub.accepted == Current(w)
    && (forall a, b | a in w.works && b in w.works :: a == b)
    && (forall a | a in w.works :: Current(w) == Some(w.works[a].going) && Stage(w.works[a]) == n)
    && (w.works == map[] ==> n == 0 || n == 1 || n == 7)
    && w.hub.announced == (if 2 <= n <= 7 || AnyPhased(w, {Failing}) then Current(w) else None)
    && w.hub.ending == (4 <= n <= 7 || AnyPhased(w, {Failing, Unannounced}))
  }

  ghost predicate AnyPhased(w: World, phases: set<Phase>)
  {
    exists a | a in w.works :: w.works[a].Departing? && w.works[a].phase in phases
  }

  // The counts are of what is there.
  ghost predicate CountsHold(w: World)
  {
    w.hub.untold == |Counted(w.feeds)| && w.hub.sessions == |w.guards|
  }

  // What a feed has seen is the act of the cycle it saw it in, and a feed that has left the count saw one.
  ghost predicate SightsHold(w: World)
  {
    forall f | f in w.feeds :: SightHolds(w.history, w.feeds[f])
  }

  ghost predicate SightHolds(history: seq<Event>, feed: FeedState)
  {
    && feed.born <= |history|
    && (!feed.counted ==> feed.seen.Some?)
    && (feed.seen.Some? ==>
          && feed.born <= feed.seen.value.at <= |history|
          && Place(feed.seen.value.at) != 0
          && feed.seen.value.at > 0
          && GoingAt(history, feed.seen.value.at - 1) == Some(feed.seen.value.going))
  }

  ghost predicate Inv(acts: seq<Act>, w: World)
  {
    SlotHeld(acts, w) && CountsHold(w) && SightsHold(w)
  }

  lemma LastGoing(history: seq<Event>, event: Event, going: Going)
    requires if Place(|history|) == 0 then event == Accepted(going)
             else |history| > 0 && GoingAt(history, |history| - 1) == Some(going)
    ensures GoingAt(history + [event], |history|) == Some(going)
    ensures forall i | 0 <= i < |history| :: GoingAt(history + [event], i) == GoingAt(history, i)
  {
    hide Place, First;
    var n := |history|;
    Places(n);
    if Place(n) != 0 {
      Places(n - 1);
      assert First(n) == First(n - 1);
    }
  }

  lemma OneMore(history: seq<Event>, event: Event, going: Going)
    requires Ordered(history)
    requires if Place(|history|) == 0 then event == Accepted(going)
             else |history| > 0 && GoingAt(history, |history| - 1) == Some(going) && Due(Place(|history|), event, going)
    ensures Ordered(history + [event])
    ensures forall i | 0 <= i < |history| :: GoingAt(history + [event], i) == GoingAt(history, i)
    ensures GoingAt(history + [event], |history|) == Some(going)
  {
    LastGoing(history, event, going);
    var h := history + [event];
    forall i | 0 <= i < |h| ensures DueAt(h, i) {
      hide Place, First, GoingAt, Due, Ordered;
      if i < |history| {
        assert DueAt(history, i);
      }
    }
  }

  lemma TakeKeepsSlot(acts: seq<Act>, w: World, work: nat, begun: Work)
    requires SlotHeld(acts, w) && w.hub.accepted.None? && !begun.Departing? && begun.going.act in acts
    ensures SlotHeld(acts, Take(w, w.hub.(accepted := Some(begun.going)), work, begun))
  {
    hide Place, First, Ordered, GoingAt, AnyPhased;
    NothingUnderWay(acts, w);
    OnlyWork(Take(w, w.hub.(accepted := Some(begun.going)), work, begun), work);
    OneMore(w.history, Accepted(begun.going), begun.going);
    Places(|w.history|);
  }

  // The slot is empty only where nothing is under way for it.
  lemma NothingUnderWay(acts: seq<Act>, w: World)
    requires SlotHeld(acts, w) && w.hub.accepted.None?
    ensures Place(|w.history|) == 0 && w.works == map[]
    ensures w.hub.announced.None? && !w.hub.ending
  {
    if |w.history| > 0 {
      assert DueAt(w.history, |w.history| - 1);
    }
  }

  lemma MoveKeepsSlot(acts: seq<Act>, w: World, work: nat, bad: bool)
    requires SlotHeld(acts, w) && work in w.works && w.works[work].Departing? && Move(w, work, bad).Some?
    ensures SlotHeld(acts, Move(w, work, bad).value)
  {
    if w.works[work].phase in {Spawned, Telling, Told, Closing, Closed} {
      SetOutKeepsSlot(acts, w, work, bad);
    } else {
      EndKeepsSlot(acts, w, work, bad);
    }
  }

  // With one work under way, that is the work any is.
  lemma OnlyWork(w: World, work: nat)
    requires work in w.works && forall a, b | a in w.works && b in w.works :: a == b
    ensures forall phases :: AnyPhased(w, phases) <==> w.works[work].Departing? && w.works[work].phase in phases
  {
  }

  lemma NoWork(w: World)
    requires w.works == map[]
    ensures forall phases :: !AnyPhased(w, phases)
  {
  }

  lemma SetOutKeepsSlot(acts: seq<Act>, w: World, work: nat, bad: bool)
    requires SlotHeld(acts, w) && work in w.works && w.works[work].Departing? && Move(w, work, bad).Some?
    requires w.works[work].phase in {Spawned, Telling, Told, Closing, Closed}
    ensures SlotHeld(acts, Move(w, work, bad).value)
  {
    hide Place, First, Ordered, GoingAt, AnyPhased;
    var next := Move(w, work, bad).value;
    OnlyWork(w, work);
    OnlyWork(next, work);
    var advance := Onward(w.hub, w.works[work].going, w.works[work].phase, bad);
    Places(|w.history|);
    OneMore(w.history, advance.event.value, w.works[work].going);
  }

  lemma EndKeepsSlot(acts: seq<Act>, w: World, work: nat, bad: bool)
    requires SlotHeld(acts, w) && work in w.works && w.works[work].Departing? && Move(w, work, bad).Some?
    requires w.works[work].phase in {Dropped, Carrying, Failing, Unannounced, Unended}
    ensures SlotHeld(acts, Move(w, work, bad).value)
  {
    hide Place, First, Ordered, GoingAt, AnyPhased;
    var next := Move(w, work, bad).value;
    OnlyWork(w, work);
    var advance := Onward(w.hub, w.works[work].going, w.works[work].phase, bad);
    if advance.phase.Some? {
      OnlyWork(next, work);
    } else {
      assert next.works == map[];
      NoWork(next);
    }
    Places(|w.history|);
    if advance.event.Some? {
      OneMore(w.history, advance.event.value, w.works[work].going);
    }
  }

  lemma AskKeepsSlot(acts: seq<Act>, w: World, step: Step)
    requires SlotHeld(acts, w) && (step.Ask? || step.BatteryLow?) && Next(acts, w, step).Some?
    ensures SlotHeld(acts, Next(acts, w, step).value)
  {
    hide SlotHeld, Act.Named;
    if w.hub.accepted.None? {
      if step.Ask? {
        var act := Act.Named(step.name);
        if act.Some? && act.value in acts {
          TakeKeepsSlot(acts, w, step.work, Answering(Going(act.value, ManualControl)));
        }
      } else if PowerOff in acts {
        TakeKeepsSlot(acts, w, step.work, Recording(LOW_BATTERY));
      }
    }
  }

  lemma HandOnKeepsSlot(acts: seq<Act>, w: World, step: Step)
    requires SlotHeld(acts, w) && (step.Answered? || step.Recorded?) && Next(acts, w, step).Some?
    ensures SlotHeld(acts, Next(acts, w, step).value)
  {
    hide Place, First, Ordered, GoingAt;
  }

  lemma OthersKeepSlot(acts: seq<Act>, w: World, step: Step)
    requires SlotHeld(acts, w) && Next(acts, w, step).Some?
    requires !step.Ask? && !step.BatteryLow? && !step.Answered? && !step.Recorded? && !step.GoOn?
    ensures SlotHeld(acts, Next(acts, w, step).value)
  {
    hide Place, First, Ordered, GoingAt;
  }

  lemma CountOne(feeds: map<nat, FeedState>, f: nat, state: FeedState)
    ensures |Counted(feeds[f := state])| == |Counted(feeds - {f})| + if state.counted then 1 else 0
    ensures |Counted(feeds)| == |Counted(feeds - {f})| + if f in feeds && feeds[f].counted then 1 else 0
  {
    assert feeds[f := state] - {f} == feeds - {f};
    CountWithout(feeds[f := state], f);
    CountWithout(feeds, f);
  }

  lemma CountWithout(feeds: map<nat, FeedState>, f: nat)
    ensures |Counted(feeds)| == |Counted(feeds - {f})| + if f in feeds && feeds[f].counted then 1 else 0
  {
    var rest := Counted(feeds - {f});
    assert f !in rest;
    assert Counted(feeds) == if f in feeds && feeds[f].counted then rest + {f} else rest;
  }

  lemma StepKeepsCounts(acts: seq<Act>, w: World, step: Step)
    requires CountsHold(w) && Next(acts, w, step).Some?
    ensures CountsHold(Next(acts, w, step).value)
  {
    hide CountsHold, Next;
    if step.OpenFeed? || step.See? || step.Tell? || step.CloseFeed? {
      FeedStepKeepsCounts(acts, w, step);
    } else if step.OpenSession? || step.CloseSession? {
      SessionStepKeepsCounts(acts, w, step);
    } else {
      OtherStepKeepsCounts(acts, w, step);
    }
  }

  lemma SessionStepKeepsCounts(acts: seq<Act>, w: World, step: Step)
    requires CountsHold(w) && Next(acts, w, step).Some? && (step.OpenSession? || step.CloseSession?)
    ensures CountsHold(Next(acts, w, step).value)
  {
    hide Counted;
  }

  lemma OtherStepKeepsCounts(acts: seq<Act>, w: World, step: Step)
    requires CountsHold(w) && Next(acts, w, step).Some?
    requires step.Ask? || step.BatteryLow? || step.Answered? || step.Recorded? || step.GoOn?
    ensures CountsHold(Next(acts, w, step).value)
  {
    hide Counted, Act.Named;
    var next := Next(acts, w, step).value;
    assert next.feeds == w.feeds && next.guards == w.guards;
    assert next.hub.untold == w.hub.untold && next.hub.sessions == w.hub.sessions;
  }

  lemma FeedStepKeepsCounts(acts: seq<Act>, w: World, step: Step)
    requires CountsHold(w) && Next(acts, w, step).Some?
    requires step.OpenFeed? || step.See? || step.Tell? || step.CloseFeed?
    ensures CountsHold(Next(acts, w, step).value)
  {
    hide Counted;
    match step
    case OpenFeed(f) => CountOne(w.feeds, f, FeedState(true, None, |w.history|));
    case See(f) => CountOne(w.feeds, f, w.feeds[f].(seen := Some(Sight(w.hub.announced.value, |w.history|))));
    case Tell(f) => CountOne(w.feeds, f, w.feeds[f].(counted := false));
    case CloseFeed(f) => CountOne(w.feeds, f, w.feeds[f]);
  }

  // What was under way stays what it was as more happens.
  lemma SightsKept(history: seq<Event>, more: seq<Event>, feed: FeedState)
    requires history <= more && SightHolds(history, feed)
    ensures SightHolds(more, feed)
  {
    hide Place, First;
  }

  lemma StepExtends(acts: seq<Act>, w: World, step: Step)
    requires Next(acts, w, step).Some?
    ensures w.history <= Next(acts, w, step).value.history
  {
    hide Act.Named;
  }

  lemma StepKeepsSights(acts: seq<Act>, w: World, step: Step)
    requires SlotHeld(acts, w) && SightsHold(w) && Next(acts, w, step).Some?
    ensures SightsHold(Next(acts, w, step).value)
  {
    hide Place, First, Act.Named, GoingAt, Ordered;
    var next := Next(acts, w, step).value;
    StepExtends(acts, w, step);
    if step.See? {
      SeesCurrent(acts, w);
    }
    forall f | f in next.feeds && f in w.feeds && next.feeds[f] == w.feeds[f]
      ensures SightHolds(next.history, next.feeds[f])
    {
      SightsKept(w.history, next.history, w.feeds[f]);
    }
  }

  // What is announced is the act under way.
  lemma SeesCurrent(acts: seq<Act>, w: World)
    requires SlotHeld(acts, w) && w.hub.announced.Some?
    ensures Place(|w.history|) != 0 && |w.history| > 0
    ensures GoingAt(w.history, |w.history| - 1) == w.hub.announced == w.hub.accepted
  {
    hide GoingAt, Ordered;
  }

  lemma StepKeeps(acts: seq<Act>, w: World, step: Step)
    requires Inv(acts, w) && Next(acts, w, step).Some?
    ensures Inv(acts, Next(acts, w, step).value)
  {
    hide SlotHeld, CountsHold, SightsHold, Next;
    StepKeepsCounts(acts, w, step);
    StepKeepsSights(acts, w, step);
    match step
    case Ask(_, _) => AskKeepsSlot(acts, w, step);
    case BatteryLow(_) => AskKeepsSlot(acts, w, step);
    case Answered(_, _) => HandOnKeepsSlot(acts, w, step);
    case Recorded(_) => HandOnKeepsSlot(acts, w, step);
    case GoOn(work, bad) => GoOnKeepsSlot(acts, w, work, bad);
    case _ => OthersKeepSlot(acts, w, step);
  }

  lemma GoOnKeepsSlot(acts: seq<Act>, w: World, work: nat, bad: bool)
    requires SlotHeld(acts, w) && Next(acts, w, GoOn(work, bad)).Some?
    ensures SlotHeld(acts, Next(acts, w, GoOn(work, bad)).value)
  {
    hide SlotHeld;
    MoveKeepsSlot(acts, w, work, bad);
  }

  lemma {:induction false} RunKeeps(acts: seq<Act>, w: World, steps: seq<Step>)
    requires Inv(acts, w) && Run(acts, w, steps).Some?
    ensures Inv(acts, Run(acts, w, steps).value)
    decreases |steps|
  {
    hide Inv, Next;
    if steps != [] {
      StepKeeps(acts, w, steps[0]);
      RunKeeps(acts, Next(acts, w, steps[0]).value, steps[1..]);
    }
  }

  // A state some run from the start reaches.
  ghost predicate Reachable(acts: seq<Act>, w: World)
  {
    exists steps :: Reaches(acts, steps, w)
  }

  ghost predicate Reaches(acts: seq<Act>, steps: seq<Step>, w: World)
  {
    Run(acts, Start(), steps) == Some(w)
  }

  lemma StartHolds(acts: seq<Act>)
    ensures Inv(acts, Start())
  {
    assert Counted(map[]) == {};
  }

  lemma ReachableKeeps(acts: seq<Act>, w: World)
    requires Reachable(acts, w)
    ensures Inv(acts, w)
  {
    hide Inv, Run;
    var steps :| Reaches(acts, steps, w);
    StartHolds(acts);
    RunKeeps(acts, Start(), steps);
  }
}
