/** What becomes of an act accepted, over every run: it is carried out unless its answer was lost. */
module PowerOutcomes {
  import opened Wrappers
  import opened Power
  import opened PowerProtocol
  import opened PowerTheorems

  // ---- An answer lost ----------------------------------------------------------------------------------

  predicate IsLoss(step: Step)
  {
    step.Answered? && !step.sent
  }

  // Whether some answer could not be sent.
  predicate Lost(steps: seq<Step>)
  {
    exists i | 0 <= i < |steps| :: IsLoss(steps[i])
  }

  // The slot is taken by an act accepted last of all, and nothing is under way for it.
  predicate NeverBegun(w: World)
  {
    Stuck(w) && w.history != [] && w.history[|w.history| - 1] == Accepted(w.hub.accepted.value)
  }

  lemma NeverBegunIs(acts: seq<Act>, w: World)
    requires Inv(acts, w)
    ensures NeverBegun(w) <==> w.works == map[] && Place(|w.history|) == 1
  {
    Empty();
    if w.history != [] {
      Places(|w.history| - 1);
      assert DueAt(w.history, |w.history| - 1);
    }
  }

  lemma LossSticks(acts: seq<Act>, w: World, work: nat)
    requires Inv(acts, w) && Next(acts, w, Answered(work, false)).Some?
    ensures NeverBegun(Next(acts, w, Answered(work, false)).value)
  {
    StepKeeps(acts, w, Answered(work, false));
    NeverBegunIs(acts, Next(acts, w, Answered(work, false)).value);
    hide Place, First, Ordered, GoingAt;
  }

  // Nothing but a loss does.
  lemma OnlyLossSticks(acts: seq<Act>, w: World, step: Step)
    requires Inv(acts, w) && Next(acts, w, step).Some? && !NeverBegun(w) && !IsLoss(step)
    ensures !NeverBegun(Next(acts, w, step).value)
  {
    StepKeeps(acts, w, step);
    NeverBegunIs(acts, w);
    NeverBegunIs(acts, Next(acts, w, step).value);
    hide Place, First, Ordered, GoingAt, NeverBegun, Act.Named, CountsHold, SightsHold;
    Places(|w.history|);
  }

  lemma {:induction false} RunSticks(acts: seq<Act>, w: World, steps: seq<Step>)
    requires Inv(acts, w) && Run(acts, w, steps).Some? && !NeverBegun(w)
    ensures NeverBegun(Run(acts, w, steps).value) <==> Lost(steps)
    decreases |steps|
  {
    hide Inv, Next, NeverBegun;
    if steps != [] {
      var next := Next(acts, w, steps[0]).value;
      StepKeeps(acts, w, steps[0]);
      LostFirst(steps);
      if IsLoss(steps[0]) {
        LossSticks(acts, w, steps[0].work);
        StaysUnbegun(acts, next, steps[1..]);
      } else {
        OnlyLossSticks(acts, w, steps[0]);
        RunSticks(acts, next, steps[1..]);
      }
    }
  }

  lemma LostFirst(steps: seq<Step>)
    requires steps != []
    ensures Lost(steps) <==> IsLoss(steps[0]) || Lost(steps[1..])
  {
    hide IsLoss;
    if i :| 0 <= i < |steps| && IsLoss(steps[i]) {
      if i > 0 {
        assert steps[1..][i - 1] == steps[i];
      }
    }
    if i :| 0 <= i < |steps[1..]| && IsLoss(steps[1..][i]) {
      assert steps[i + 1] == steps[1..][i];
    }
  }

  lemma StaysUnbegun(acts: seq<Act>, w: World, steps: seq<Step>)
    requires NeverBegun(w) && Run(acts, w, steps).Some?
    ensures NeverBegun(Run(acts, w, steps).value) && Run(acts, w, steps).value.history == w.history
  {
    hide Run;
    StuckForGood(acts, w, steps);
  }

  /** The slot is held by an act accepted and never begun exactly where, in the run that led there, some answer
      could not be sent. */
  lemma NeverBegunExactly(acts: seq<Act>, steps: seq<Step>, w: World)
    requires Run(acts, Start(), steps) == Some(w)
    ensures NeverBegun(w) <==> Lost(steps)
  {
    hide Inv, Run;
    StartHolds(acts);
    RunSticks(acts, Start(), steps);
  }

  /** The slot is held with nothing under way either way: carried out where no answer was lost, and never begun
      where one was. */
  lemma HowItSticks(acts: seq<Act>, steps: seq<Step>, w: World)
    requires Run(acts, Start(), steps) == Some(w) && Stuck(w)
    ensures w.history != []
    ensures var last := w.history[|w.history| - 1];
            && (last == CarriedOut(w.hub.accepted.value) <==> !Lost(steps))
            && (last == Accepted(w.hub.accepted.value) <==> Lost(steps))
  {
    assert Reaches(acts, steps, w);
    hide Run, Lost;
    StuckAfter(acts, w);
    NeverBegunExactly(acts, steps, w);
  }

  lemma {:induction false} RunOn(acts: seq<Act>, w: World, a: seq<Step>, b: seq<Step>)
    requires Run(acts, w, a + b).Some?
    ensures Run(acts, w, a).Some? && Run(acts, w, a + b) == Run(acts, Run(acts, w, a).value, b)
    decreases |a|
  {
    hide Next;
    if a == [] {
      assert a + b == b;
    } else {
      assert (a + b)[1..] == a[1..] + b;
      RunOn(acts, Next(acts, w, a[0]).value, a[1..], b);
    }
  }

  /** And the answer lost was the answer to the very ask whose act holds the slot. */
  lemma LossWasItsOwn(acts: seq<Act>, steps: seq<Step>, i: nat, w: World)
    requires Run(acts, Start(), steps) == Some(w) && i < |steps| && IsLoss(steps[i])
    ensures var before := Run(acts, Start(), steps[..i]);
            && before.Some? && steps[i].work in before.value.works
            && Some(before.value.works[steps[i].work].going) == w.hub.accepted
            && before.value.works[steps[i].work].Answering? && before.value.history == w.history
  {
    hide Inv, Next;
    assert steps == steps[..i] + steps[i..] && steps[i..][1..] == steps[i + 1..];
    RunOn(acts, Start(), steps[..i], steps[i..]);
    var before := Run(acts, Start(), steps[..i]).value;
    StartHolds(acts);
    RunKeeps(acts, Start(), steps[..i]);
    LossHolds(acts, before, steps[i].work);
    LossSticks(acts, before, steps[i].work);
    StuckForGood(acts, Next(acts, before, steps[i]).value, steps[i + 1..]);
  }

  lemma LossHolds(acts: seq<Act>, w: World, work: nat)
    requires Inv(acts, w) && Next(acts, w, Answered(work, false)).Some?
    ensures work in w.works && w.works[work].Answering? && w.hub.accepted == Some(w.works[work].going)
    ensures var next := Next(acts, w, Answered(work, false)).value; next.hub == w.hub && next.history == w.history
  {
    hide Place, First, Ordered, GoingAt;
  }

  /** It takes two steps from the start. */
  lemma AnAnswerLost()
    ensures var w := Run([Reboot], Start(), [Ask(0, "reboot"), Answered(0, false)]);
            w.Some? && NeverBegun(w.value) && w.value.hub.accepted == Some(Going(Reboot, ManualControl))
  {
    var steps := [Ask(0, "reboot"), Answered(0, false)];
    var asked := Next([Reboot], Start(), steps[0]).value;
    NamesAct("reboot", Reboot);
    assert steps[1..] == [Answered(0, false)];
    var answered := Next([Reboot], asked, Answered(0, false)).value;
    assert [Answered(0, false)][1..] == [];
    assert Run([Reboot], answered, []) == Some(answered);
    assert Run([Reboot], asked, [Answered(0, false)]) == Some(answered);
    assert answered.works == map[];
  }

  // ---- An act begun ------------------------------------------------------------------------------------

  // How often the going away was made to go on without waiting.
  function Forced(steps: seq<Step>, work: nat): nat
  {
    if steps == [] then 0 else (if steps[0] == GoOn(work, true) then 1 else 0) + Forced(steps[1..], work)
  }

  // Whatever else happens leaves a going away where it is.
  lemma OthersWait(acts: seq<Act>, w: World, step: Step, work: nat)
    requires Inv(acts, w) && work in w.works && w.works[work].Departing? && Next(acts, w, step).Some?
    requires !(step.GoOn? && step.work == work)
    ensures Next(acts, w, step).value.works == w.works && Next(acts, w, step).value.history == w.history
  {
    hide Place, First, Ordered, GoingAt, CountsHold, SightsHold, Act.Named;
  }

  // And it moves by one where it moves.
  lemma MovesOn(acts: seq<Act>, w: World, work: nat, bad: bool)
    requires Inv(acts, w) && work in w.works && w.works[work].Departing? && Stage(w.works[work]) <= 6
    requires Next(acts, w, GoOn(work, bad)).Some?
    ensures var next := Next(acts, w, GoOn(work, bad)).value;
            && work in next.works && next.works[work].Departing? && next.works[work].going == w.works[work].going
            && Stage(next.works[work]) == Stage(w.works[work]) + 1 && w.history <= next.history
            && (Stage(w.works[work]) == 6 ==> next.history == w.history + [CarriedOut(w.works[work].going)])
  {
    hide Inv;
  }

  lemma {:induction false} RunExtends(acts: seq<Act>, w: World, steps: seq<Step>)
    requires Run(acts, w, steps).Some?
    ensures w.history <= Run(acts, w, steps).value.history
    decreases |steps|
  {
    hide Next;
    if steps != [] {
      StepExtends(acts, w, steps[0]);
      RunExtends(acts, Next(acts, w, steps[0]).value, steps[1..]);
    }
  }

  /** Once going away has begun nothing keeps the act from being carried out: in every run in which its waits
      time out often enough, among whatever else feeds, sessions, clients and the battery do and in whatever
      order, the act has been carried out by the end. */
  lemma {:induction false} CarriedOutRegardless(acts: seq<Act>, w: World, steps: seq<Step>, work: nat)
    requires Inv(acts, w) && work in w.works && w.works[work].Departing? && Stage(w.works[work]) <= 6
    requires Run(acts, w, steps).Some? && Forced(steps, work) >= 7 - Stage(w.works[work])
    ensures Since(Run(acts, w, steps).value.history, |w.history|, CarriedOut(w.works[work].going))
    decreases |steps|
  {
    hide Inv, Next, Stage;
    var step, next := steps[0], Next(acts, w, steps[0]).value;
    StepKeeps(acts, w, step);
    RunExtends(acts, next, steps[1..]);
    if step.GoOn? && step.work == work {
      MovesOn(acts, w, work, step.bad);
      if Stage(w.works[work]) == 6 {
        var end := Run(acts, next, steps[1..]).value;
        assert end.history[|w.history|..][0] == CarriedOut(w.works[work].going);
      } else {
        CarriedOutRegardless(acts, next, steps[1..], work);
        StillSince(Run(acts, next, steps[1..]).value.history, |w.history|, |next.history|,
                   CarriedOut(w.works[work].going));
      }
    } else {
      OthersWait(acts, w, step, work);
      CarriedOutRegardless(acts, next, steps[1..], work);
    }
  }

  // Whether the event is among those after the first `n`.
  predicate Since(history: seq<Event>, n: nat, event: Event)
  {
    n <= |history| && event in history[n..]
  }

  lemma StillSince(history: seq<Event>, i: nat, j: nat, event: Event)
    requires i <= j && Since(history, j, event)
    ensures Since(history, i, event)
  {
    var k :| 0 <= k < |history[j..]| && history[j..][k] == event;
    assert history[i..][k + j - i] == event;
  }

  // ---- Exactly when ------------------------------------------------------------------------------------

  // A run on from here by whose end the act was carried out, having been so since `n` events had happened.
  ghost predicate CarriesOut(acts: seq<Act>, w: World, steps: seq<Step>, n: nat, going: Going)
  {
    Run(acts, w, steps).Some? && Since(Run(acts, w, steps).value.history, n, CarriedOut(going))
  }

  ghost predicate CanCarryOut(acts: seq<Act>, w: World, n: nat, going: Going)
  {
    exists steps :: CarriesOut(acts, w, steps, n, going)
  }

  lemma DepartingCan(acts: seq<Act>, w: World, work: nat)
    requires Inv(acts, w) && work in w.works && w.works[work].Departing? && Stage(w.works[work]) <= 6
    ensures CanCarryOut(acts, w, |w.history|, w.works[work].going)
  {
    hide Inv, Run, Stage;
    var steps := Timeouts(work, 7 - Stage(w.works[work]));
    TimeoutsSuffice(acts, w, work);
    ForcedAll(work, 7 - Stage(w.works[work]));
    CarriedOutRegardless(acts, w, steps, work);
    assert CarriesOut(acts, w, steps, |w.history|, w.works[work].going);
  }

  lemma {:induction false} ForcedAll(work: nat, n: nat)
    ensures Forced(Timeouts(work, n), work) == n
  {
    if n > 0 {
      assert Timeouts(work, n)[1..] == Timeouts(work, n - 1);
      ForcedAll(work, n - 1);
    }
  }

  // What can follow a step can follow what it follows.
  lemma CanAfter(acts: seq<Act>, w: World, step: Step, n: nat, going: Going)
    requires Next(acts, w, step).Some? && CanCarryOut(acts, Next(acts, w, step).value, n, going)
    ensures CanCarryOut(acts, w, n, going)
  {
    hide Next;
    var steps :| CarriesOut(acts, Next(acts, w, step).value, steps, n, going);
    assert ([step] + steps)[1..] == steps;
    assert CarriesOut(acts, w, [step] + steps, n, going);
  }

  // Work handed on becomes a going away.
  lemma HandedOn(acts: seq<Act>, w: World, work: nat)
    requires Inv(acts, w) && work in w.works && !w.works[work].Departing?
    ensures var step := if w.works[work].Answering? then Answered(work, true) else Recorded(work);
            var next := Next(acts, w, step);
            && next.Some? && Inv(acts, next.value) && next.value.history == w.history && work in next.value.works
            && next.value.works[work] == Departing(w.works[work].going, Spawned)
  {
    hide Inv;
    StepKeeps(acts, w, if w.works[work].Answering? then Answered(work, true) else Recorded(work));
  }

  lemma HandedOnCan(acts: seq<Act>, w: World, work: nat)
    requires Inv(acts, w) && work in w.works && !w.works[work].Departing?
    ensures CanCarryOut(acts, w, |w.history|, w.works[work].going)
  {
    hide Inv, Next, CanCarryOut;
    var step := if w.works[work].Answering? then Answered(work, true) else Recorded(work);
    HandedOn(acts, w, work);
    DepartingCan(acts, Next(acts, w, step).value, work);
    CanAfter(acts, w, step, |w.history|, w.works[work].going);
  }

  /** An act a client asked for can be carried out once its answer is dealt with exactly where the answer was
      sent. */
  lemma CarriedOutExactlyIfAnswered(acts: seq<Act>, w: World, work: nat, sent: bool)
    requires Reachable(acts, w) && work in w.works && w.works[work].Answering?
    ensures Next(acts, w, Answered(work, sent)).Some?
    ensures CanCarryOut(acts, Next(acts, w, Answered(work, sent)).value, |w.history|, w.works[work].going) <==> sent
  {
    ReachableKeeps(acts, w);
    hide Inv;
    var next := Next(acts, w, Answered(work, sent)).value;
    if sent {
      HandedOn(acts, w, work);
      hide Next;
      DepartingCan(acts, next, work);
    } else {
      assert next.history == w.history;
      LossSticks(acts, w, work);
      hide Next, NeverBegun;
      UnbegunCannot(acts, next, |w.history|, w.works[work].going);
    }
  }

  lemma UnbegunCannot(acts: seq<Act>, w: World, n: nat, going: Going)
    requires NeverBegun(w) && n <= |w.history| && !Since(w.history, n, CarriedOut(going))
    ensures !CanCarryOut(acts, w, n, going)
  {
    hide NeverBegun, Run, Since;
    forall steps ensures !CarriesOut(acts, w, steps, n, going) {
      if Run(acts, w, steps).Some? {
        StaysUnbegun(acts, w, steps);
      }
    }
  }

  /** A shutdown for a low battery, once accepted, can always be carried out. */
  lemma LowBatteryCan(acts: seq<Act>, w: World, work: nat)
    requires Reachable(acts, w) && work in w.works && w.works[work].Recording?
    ensures CanCarryOut(acts, w, |w.history|, w.works[work].going)
  {
    ReachableKeeps(acts, w);
    hide Inv, CanCarryOut;
    HandedOnCan(acts, w, work);
  }

  /** Over every run: the act that holds the slot has been carried out, or still can be, exactly where no answer
      was lost. */
  lemma CarriedOutExactly(acts: seq<Act>, steps: seq<Step>, w: World)
    requires Run(acts, Start(), steps) == Some(w) && w.hub.accepted.Some?
    ensures w.history != []
    ensures CanCarryOut(acts, w, Began(w), w.hub.accepted.value) <==> !Lost(steps)
  {
    assert Reaches(acts, steps, w);
    ReachableKeeps(acts, w);
    NeverBegunExactly(acts, steps, w);
    HeldSince(acts, w);
    hide Run, Inv, CanCarryOut, Since, NeverBegun, Began;
    var going := w.hub.accepted.value;
    if NeverBegun(w) {
      UnbegunCannot(acts, w, Began(w), going);
    } else if w.works == map[] || (exists a | a in w.works :: Stage(w.works[a]) >= 7) {
      AlreadyCan(acts, w, going);
    } else {
      var a :| a in w.works;
      if w.works[a].Departing? {
        DepartingCan(acts, w, a);
      } else {
        HandedOnCan(acts, w, a);
      }
      CanSince(acts, w, Began(w), |w.history|, going);
    }
  }

  // Where the slot is held: by which work, since when, and whether its act was carried out already.
  lemma HeldSince(acts: seq<Act>, w: World)
    requires Inv(acts, w) && w.hub.accepted.Some?
    ensures w.history != [] && Began(w) <= |w.history|
    ensures forall a | a in w.works :: w.works[a].going == w.hub.accepted.value
    ensures NeverBegun(w) ==> !Since(w.history, Began(w), CarriedOut(w.hub.accepted.value))
    ensures !NeverBegun(w) && w.works == map[] ==> Since(w.history, Began(w), CarriedOut(w.hub.accepted.value))
    ensures (exists a | a in w.works :: Stage(w.works[a]) >= 7) ==>
              Since(w.history, Began(w), CarriedOut(w.hub.accepted.value))
  {
    NeverBegunIs(acts, w);
    Empty();
    HeldCarried(acts, w);
    hide NeverBegun, Ordered, GoingAt, First, Since;
    Places(|w.history| - 1);
  }

  lemma HeldCarried(acts: seq<Act>, w: World)
    requires Inv(acts, w) && w.hub.accepted.Some?
    ensures w.history != []
    ensures Place(|w.history| - 1) == 0 ==> !Since(w.history, Began(w), CarriedOut(w.hub.accepted.value))
    ensures Place(|w.history| - 1) >= 6 ==> Since(w.history, Began(w), CarriedOut(w.hub.accepted.value))
  {
    Empty();
    var last := |w.history| - 1;
    Places(last);
    assert DueAt(w.history, last);
    if Place(last) == 0 {
      assert w.history[Began(w)..] == [w.history[last]];
    } else if Place(last) >= 6 {
      Back(w.history, last, Place(last) - 6);
      var i := last - (Place(last) - 6);
      assert Began(w) <= i;
      assert w.history[Began(w)..][i - Began(w)] == CarriedOut(w.hub.accepted.value);
    }
  }

  lemma AlreadyCan(acts: seq<Act>, w: World, going: Going)
    requires w.history != [] && Since(w.history, Began(w), CarriedOut(going))
    ensures CanCarryOut(acts, w, Began(w), going)
  {
    assert CarriesOut(acts, w, [], Began(w), going);
  }

  lemma CanSince(acts: seq<Act>, w: World, i: nat, j: nat, going: Going)
    requires i <= j && CanCarryOut(acts, w, j, going)
    ensures CanCarryOut(acts, w, i, going)
  {
    hide Run, Since;
    var steps :| CarriesOut(acts, w, steps, j, going);
    StillSince(Run(acts, w, steps).value.history, i, j, CarriedOut(going));
    assert CarriesOut(acts, w, steps, i, going);
  }
}
