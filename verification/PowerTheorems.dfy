/** What the power protocol promises over every run. */
module PowerTheorems {
  import opened Wrappers
  import opened Power
  import opened PowerProtocol

  /** Nothing is announced and nothing ends but for the act accepted, and at most one thing is ever under way for
      it. Every feed not yet told and every session open is counted, and nothing else is. */
  lemma OneActAtATime(acts: seq<Act>, w: World)
    requires Reachable(acts, w)
    ensures w.hub.accepted.None? ==> w.hub.announced.None? && !w.hub.ending && w.works == map[]
    ensures w.hub.announced.Some? ==> w.hub.announced == w.hub.accepted
    ensures w.hub.accepted.Some? ==> w.hub.accepted.value.act in acts
    ensures forall a, b | a in w.works && b in w.works :: a == b && w.hub.accepted == Some(w.works[a].going)
    ensures w.hub.untold == |Counted(w.feeds)| && w.hub.sessions == |w.guards|
  {
    ReachableKeeps(acts, w);
    if w.hub.accepted.None? {
      NothingUnderWay(acts, w);
    } else {
      hide Counted;
      var n := |w.history|;
      assert GoingAt(w.history, n - 1).Some?;
      assert DueAt(w.history, First(n - 1));
    }
  }

  /** No counter underflows: a feed can always be told or closed and a session always let go of. */
  lemma NothingUnderflows(acts: seq<Act>, w: World)
    requires Reachable(acts, w)
    ensures forall f | f in w.feeds :: Next(acts, w, CloseFeed(f)).Some?
    ensures forall f | f in w.feeds && w.feeds[f].counted && w.feeds[f].seen.Some? :: Next(acts, w, Tell(f)).Some?
    ensures forall s | s in w.guards :: Next(acts, w, CloseSession(s)).Some?
  {
    ReachableKeeps(acts, w);
    hide Inv, Next;
    forall f | f in w.feeds ensures Next(acts, w, CloseFeed(f)).Some? {
      FeedCanClose(acts, w, f);
    }
    forall f | f in w.feeds && w.feeds[f].counted && w.feeds[f].seen.Some? ensures Next(acts, w, Tell(f)).Some? {
      FeedCanClose(acts, w, f);
    }
    forall s | s in w.guards ensures Next(acts, w, CloseSession(s)).Some? {
      SessionCanClose(acts, w, s);
    }
  }

  lemma FeedCanClose(acts: seq<Act>, w: World, f: nat)
    requires Inv(acts, w) && f in w.feeds
    ensures Next(acts, w, CloseFeed(f)).Some?
    ensures w.feeds[f].counted && w.feeds[f].seen.Some? ==> Next(acts, w, Tell(f)).Some?
  {
    hide SlotHeld, SightsHold;
    if w.feeds[f].counted {
      assert f in Counted(w.feeds);
    }
  }

  lemma SessionCanClose(acts: seq<Act>, w: World, s: nat)
    requires Inv(acts, w) && s in w.guards
    ensures Next(acts, w, CloseSession(s)).Some?
  {
    hide SlotHeld, SightsHold, Counted;
  }

  /** An act is carried out only once it was accepted, then announced, then the feeds waited for, then the
      sessions ended and waited for, then the links dropped, in that order and with nothing between. */
  lemma CarriedOutInOrder(acts: seq<Act>, w: World, i: nat)
    requires Reachable(acts, w) && i < |w.history| && w.history[i].CarriedOut?
    ensures i >= 6 && w.history[i].going.act in acts
    ensures w.history[i - 6] == Accepted(w.history[i].going)
    ensures w.history[i - 5] == Announced(w.history[i].going)
    ensures w.history[i - 4].ToldFeeds? && w.history[i - 3] == EndingSet
    ensures w.history[i - 2].ClosedSessions? && w.history[i - 1] == LinksDropped
  {
    ReachableKeeps(acts, w);
    assert Ordered(w.history);
    assert DueAt(w.history, i);
    hide Inv, Place, First, Ordered, GoingAt;
    Back(w.history, i, 6);
    Back(w.history, i, 5);
    Back(w.history, i, 4);
    Back(w.history, i, 3);
    Back(w.history, i, 2);
    Back(w.history, i, 1);
  }

  // What stands `k` before an event of the same cycle.
  lemma Back(history: seq<Event>, i: nat, k: nat)
    requires Ordered(history) && i < |history| && k <= Place(i)
    ensures k <= i && Place(i - k) == Place(i) - k && GoingAt(history, i - k) == GoingAt(history, i)
    ensures DueAt(history, i - k)
  {
  }

  lemma Ahead(history: seq<Event>, i: nat, k: nat)
    requires Ordered(history) && i + k < |history| && Place(i) + k < CYCLE
    ensures Place(i + k) == Place(i) + k && GoingAt(history, i + k) == GoingAt(history, i)
    ensures DueAt(history, i + k)
  {
  }

  lemma CyclesApart(i: nat, j: nat)
    requires i < j && Place(i) == 0 && Place(j) == 0
    ensures i + 8 < j
  {
  }

  /** A later act is accepted only once an earlier one was carried out, failed, and was let go of. */
  lemma AcceptedOnlyAfterFailure(acts: seq<Act>, w: World, i: nat, j: nat)
    requires Reachable(acts, w) && i < j < |w.history| && w.history[i].Accepted? && w.history[j].Accepted?
    ensures i + 8 < j
    ensures w.history[i + 6] == CarriedOut(w.history[i].going) && w.history[i + 7] == ActFailed(w.history[i].going)
    ensures w.history[i + 8] == Freed
  {
    ReachableKeeps(acts, w);
    assert Ordered(w.history);
    AcceptedIsFirst(w.history, i);
    AcceptedIsFirst(w.history, j);
    hide Inv, Place, First, Ordered, GoingAt;
    CyclesApart(i, j);
    Ahead(w.history, i, 6);
    Ahead(w.history, i, 7);
    Ahead(w.history, i, 8);
  }

  lemma AcceptedIsFirst(history: seq<Event>, i: nat)
    requires Ordered(history) && i < |history| && history[i].Accepted?
    ensures Place(i) == 0 && GoingAt(history, i) == Some(history[i].going)
  {
    assert DueAt(history, i);
  }

  // ---- Who is told -------------------------------------------------------------------------------------

  // How much had happened when the act under way was accepted.
  function Began(w: World): nat
    requires w.history != []
  {
    First(|w.history| - 1)
  }

  /** The wait for the feeds is met exactly when every open feed has announced an act; one opened since the act
      before was let go of has announced this one. Cut short, it was timed out, and some feed had not. */
  lemma EveryFeedTold(acts: seq<Act>, w: World, step: Step, all: bool)
    requires Reachable(acts, w) && Next(acts, w, step).Some?
    requires Next(acts, w, step).value.history == w.history + [ToldFeeds(all)]
    ensures w.history != [] && w.hub.accepted.Some?
    ensures all <==> forall f | f in w.feeds :: !w.feeds[f].counted
    ensures !all ==> step.GoOn? && step.bad
    ensures all ==> forall f | f in w.feeds ::
                      && w.feeds[f].seen.Some?
                      && (w.feeds[f].born >= Began(w) ==> Some(w.feeds[f].seen.value.going) == w.hub.accepted)
  {
    ReachableKeeps(acts, w);
    ToldByWork(acts, w, step, all);
    assert w.hub.untold == 0 <==> Counted(w.feeds) == {};
    if all {
      forall f | f in w.feeds ensures !w.feeds[f].counted && w.feeds[f].seen.Some? {
        assert f !in Counted(w.feeds);
        assert SightHolds(w.history, w.feeds[f]);
      }
      forall f | f in w.feeds && w.feeds[f].born >= Began(w)
        ensures w.feeds[f].seen.Some? && Some(w.feeds[f].seen.value.going) == w.hub.accepted
      {
        SawThisAct(acts, w, f);
      }
    } else {
      var f :| f in Counted(w.feeds);
    }
  }

  // What a feed has announced stays what it was while it is open.
  lemma ToldOnce(acts: seq<Act>, w: World, step: Step, f: nat)
    requires f in w.feeds && !w.feeds[f].counted && Next(acts, w, step).Some? && step != CloseFeed(f)
    ensures f in Next(acts, w, step).value.feeds && Next(acts, w, step).value.feeds[f] == w.feeds[f]
  {
    hide Act.Named;
    match step
    case GoOn(work, bad) => assert Next(acts, w, step).value.feeds == w.feeds;
    case _ =>
  }

  /** A feed announces once: in every run in which it is not closed, what it announced stays what it was, whatever
      is accepted and announced meanwhile. One that outlives an act that failed is not told of the next. */
  lemma {:induction false} NotToldAgain(acts: seq<Act>, w: World, steps: seq<Step>, f: nat)
    requires f in w.feeds && !w.feeds[f].counted && Run(acts, w, steps).Some? && CloseFeed(f) !in steps
    ensures f in Run(acts, w, steps).value.feeds && Run(acts, w, steps).value.feeds[f] == w.feeds[f]
    decreases |steps|
  {
    hide Next;
    if steps != [] {
      ToldOnce(acts, w, steps[0], f);
      NotToldAgain(acts, Next(acts, w, steps[0]).value, steps[1..], f);
    }
  }

  lemma ToldByWork(acts: seq<Act>, w: World, step: Step, all: bool)
    requires Inv(acts, w) && Next(acts, w, step).Some?
    requires Next(acts, w, step).value.history == w.history + [ToldFeeds(all)]
    ensures step.GoOn? && all == (w.hub.untold == 0) && (step.bad || all)
    ensures w.history != [] && w.hub.accepted.Some?
  {
    hide Act.Named, Place, First, Ordered, GoingAt, CountsHold, SightsHold;
    var history := Next(acts, w, step).value.history;
    assert history[|w.history|] == ToldFeeds(all);
    Places(0);
    Empty();
  }

  lemma Empty()
    ensures Place(0) == 0
  {
  }

  lemma SawThisAct(acts: seq<Act>, w: World, f: nat)
    requires Inv(acts, w) && w.history != [] && w.hub.accepted.Some?
    requires f in w.feeds && w.feeds[f].seen.Some? && w.feeds[f].born >= Began(w)
    ensures Some(w.feeds[f].seen.value.going) == w.hub.accepted
  {
    assert SightHolds(w.history, w.feeds[f]);
    SameCycle(w.feeds[f].seen.value.at, |w.history|);
  }

  lemma SameCycle(at: nat, now: nat)
    requires 0 < at <= now && Place(at) != 0 && First(now - 1) <= at
    ensures First(at - 1) == First(now - 1)
  {
  }

  /** The wait for the sessions is met exactly when none is open. */
  lemma EverySessionClosed(acts: seq<Act>, w: World, step: Step, all: bool)
    requires Reachable(acts, w) && Next(acts, w, step).Some?
    requires Next(acts, w, step).value.history == w.history + [ClosedSessions(all)]
    ensures all <==> w.guards == {}
    ensures !all ==> step.GoOn? && step.bad
    ensures w.hub.ending
  {
    ReachableKeeps(acts, w);
    hide Act.Named, Place, First, Ordered, GoingAt, SightsHold;
    var history := Next(acts, w, step).value.history;
    assert history[|w.history|] == ClosedSessions(all);
  }

  /** From its announcement until it fails, the act is announced to whoever looks: a feed registered after the
      announcement sees it at once. */
  lemma LateFeedSees(acts: seq<Act>, w: World, i: nat, f: nat)
    requires Reachable(acts, w) && i < |w.history| && w.history[i].Announced?
    requires forall j | i < j < |w.history| :: !w.history[j].ActFailed?
    requires f !in w.feeds
    ensures w.hub.announced == Some(w.history[i].going)
    ensures var end := Run(acts, w, [OpenFeed(f), See(f)]);
            && end.Some? && f in end.value.feeds
            && end.value.feeds[f].seen == Some(Sight(w.history[i].going, |w.history|))
  {
    ReachableKeeps(acts, w);
    StillAnnounced(acts, w, i);
    var opened_ := Next(acts, w, OpenFeed(f)).value;
    var seen := Next(acts, opened_, See(f)).value;
    assert [OpenFeed(f), See(f)][1..] == [See(f)];
    assert Run(acts, seen, [See(f)][1..]) == Some(seen);
    assert Run(acts, opened_, [See(f)]) == Some(seen);
  }

  lemma StillAnnounced(acts: seq<Act>, w: World, i: nat)
    requires Inv(acts, w) && i < |w.history| && w.history[i].Announced?
    requires forall j | i < j < |w.history| :: !w.history[j].ActFailed?
    ensures w.hub.announced == Some(w.history[i].going)
  {
    assert DueAt(w.history, i);
    if i + 6 < |w.history| {
      Ahead(w.history, i, 6);
      assert false;
    }
    Ahead(w.history, i, |w.history| - 1 - i);
    Places(|w.history| - 1);
  }

  // ---- Getting there, and not --------------------------------------------------------------------------

  function Timeouts(work: nat, n: nat): seq<Step>
  {
    if n == 0 then [] else [GoOn(work, true)] + Timeouts(work, n - 1)
  }

  // Left to itself, a going away whose waits time out carries its act out.
  lemma {:induction false} TimeoutsSuffice(acts: seq<Act>, w: World, work: nat)
    requires Inv(acts, w) && work in w.works && w.works[work].Departing? && Stage(w.works[work]) <= 6
    ensures var end := Run(acts, w, Timeouts(work, 7 - Stage(w.works[work])));
            && end.Some? && |end.value.history| > 0
            && end.value.history[|end.value.history| - 1] == CarriedOut(w.works[work].going)
    decreases 7 - Stage(w.works[work])
  {
    hide Inv, Next, Stage;
    var k := 7 - Stage(w.works[work]);
    OneTimeout(acts, w, work);
    var next := Next(acts, w, GoOn(work, true)).value;
    assert Timeouts(work, k)[1..] == Timeouts(work, k - 1);
    if k > 1 {
      TimeoutsSuffice(acts, next, work);
    } else {
      assert Timeouts(work, 0) == [];
    }
  }

  lemma OneTimeout(acts: seq<Act>, w: World, work: nat)
    requires Inv(acts, w) && work in w.works && w.works[work].Departing? && Stage(w.works[work]) <= 6
    ensures var next := Next(acts, w, GoOn(work, true));
            && next.Some? && Inv(acts, next.value) && work in next.value.works
            && next.value.works[work].Departing? && next.value.works[work].going == w.works[work].going
            && Stage(next.value.works[work]) == Stage(w.works[work]) + 1
            && (Stage(w.works[work]) == 6 ==> next.value.history == w.history + [CarriedOut(w.works[work].going)])
  {
    hide Inv;
    StepKeeps(acts, w, GoOn(work, true));
  }

  // The slot is taken and nothing is under way to let go of it.
  predicate Stuck(w: World)
  {
    w.hub.accepted.Some? && w.works == map[]
  }

  // The slot held with nothing under way was last accepted or last carried out.
  lemma StuckAfter(acts: seq<Act>, w: World)
    requires Reachable(acts, w) && Stuck(w)
    ensures w.history != []
    ensures var last := w.history[|w.history| - 1];
            last == CarriedOut(w.hub.accepted.value) || last == Accepted(w.hub.accepted.value)
  {
    ReachableKeeps(acts, w);
    Empty();
    assert Ordered(w.history);
    Places(|w.history| - 1);
    assert DueAt(w.history, |w.history| - 1);
  }

  /** A failed answer sticks: the act accepted is never begun. */
  lemma LostAnswerSticks(acts: seq<Act>, w: World, work: nat)
    requires Reachable(acts, w) && work in w.works && w.works[work].Answering?
    ensures Next(acts, w, Answered(work, false)).Some?
    ensures var next := Next(acts, w, Answered(work, false)).value;
            Stuck(next) && next.hub == w.hub && next.hub.accepted == Some(w.works[work].going)
  {
    ReachableKeeps(acts, w);
    hide Place, First, Ordered, GoingAt;
  }

  /** Once stuck, stuck for good: no act is accepted, begun or carried out again, a shutdown for a low battery
      among them. */
  lemma {:induction false} StuckForGood(acts: seq<Act>, w: World, steps: seq<Step>)
    requires Stuck(w) && Run(acts, w, steps).Some?
    ensures var later := Run(acts, w, steps).value;
            Stuck(later) && later.history == w.history && later.hub.accepted == w.hub.accepted
    decreases |steps|
  {
    hide Act.Named;
    if steps != [] {
      StuckForGood(acts, Next(acts, w, steps[0]).value, steps[1..]);
    }
  }
}
