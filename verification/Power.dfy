/** Restarting, rebooting and powering off, and telling every client first: the controller every session
    shares, the guards held against it, and the departure that carries an act out, one uninterrupted action at
    a time. */
module Power {
  import opened Wrappers
  import P = Path

  datatype Act = Restart | Reboot | PowerOff
  {
    function Wire(): string
    {
      match this
      case Restart => "restart"
      case Reboot => "reboot"
      case PowerOff => "power-off"
    }

    function Doing(): string
    {
      match this
      case Restart => "restarting"
      case Reboot => "rebooting"
      case PowerOff => "powering off"
    }

    static function Named(name: string): Option<Act>
    {
      if name == "restart" then Some(Restart)
      else if name == "reboot" then Some(Reboot)
      else if name == "power-off" then Some(PowerOff)
      else None
    }
  }

  datatype Cause = ManualControl | LowBattery

  datatype Going = Going(act: Act, cause: Cause)
  {
    function Doing(): string
    {
      if cause.ManualControl? then act.Doing() else act.Doing() + " for a low battery"
    }
  }

  // Each act has one wire name.
  lemma NamesAct(name: string, act: Act)
    ensures Act.Named(name) == Some(act) <==> name == act.Wire()
  {
    assert |"restart"| == 7 && |"reboot"| == 6 && |"power-off"| == 9;
  }

  // A refused ask: a path into the request, and words that name what holds the slot.
  datatype CannotAct = CannotAct(at: string, reason: string)

  datatype NotBegun = CannotPowerOff | AlreadyGoing(going: Going)

  // What the controller holds: the slot, what is announced, and the counters.
  datatype Hub = Hub(accepted: Option<Going>, announced: Option<Going>, untold: nat, ending: bool, sessions: nat)
  {
    function Take(going: Going): (Hub, Option<Going>)
    {
      if accepted.Some? then (this, accepted) else (this.(accepted := Some(going)), None)
    }

    function Decide(acts: seq<Act>, name: string): (Hub, Result<Act, CannotAct>)
    {
      var act := Act.Named(name);
      if act.None? || act.value !in acts then
        (this, Err(CannotAct(P.Text([P.Name("act")]), "this device cannot " + name)))
      else
        var (next, already) := Take(Going(act.value, ManualControl));
        (next, if already.Some? then Err(CannotAct(P.Text([]), "the device is already " + already.value.Doing()))
               else Ok(act.value))
    }

    function LowBattery(acts: seq<Act>): (Hub, Option<NotBegun>)
    {
      if PowerOff !in acts then (this, Some(CannotPowerOff))
      else
        var (next, already) := Take(LOW_BATTERY);
        (next, if already.Some? then Some(AlreadyGoing(already.value)) else None)
    }
  }

  // How what is under way is named to whoever asks for more.
  function Underway(going: Going): string
  {
    (if going.act.Restart? then "restarting" else if going.act.Reboot? then "rebooting" else "powering off")
    + if going.cause.LowBattery? then " for a low battery" else ""
  }

  /** A low battery takes the slot to power the device off, for its own cause, exactly where the device can and nothing
      else holds the slot; and says which of the two it was that kept it. */
  lemma LowBatteryExactly(hub: Hub, acts: seq<Act>)
    ensures var (next, notBegun) := hub.LowBattery(acts);
            && (notBegun.None? <==> PowerOff in acts && hub.accepted.None?)
            && (notBegun.None? ==> next == hub.(accepted := Some(Going(PowerOff, Cause.LowBattery))))
            && (notBegun.Some? ==> next == hub)
            && (notBegun == Some(CannotPowerOff) <==> PowerOff !in acts)
            && (PowerOff in acts && hub.accepted.Some? ==> notBegun == Some(AlreadyGoing(hub.accepted.value)))
  {
  }

  /** What an ask is answered: accepted exactly where the act is listed and the slot free, which is then its own;
      refused at the act where it is not listed, and at the whole message where an act was accepted already. */
  lemma AnswersExactly(hub: Hub, acts: seq<Act>, name: string)
    ensures var (next, answer) := hub.Decide(acts, name);
            var listed := exists act :: act in acts && act.Wire() == name;
            && (answer.Ok? <==> listed && hub.accepted.None?)
            && (answer.Ok? ==> answer.value.Wire() == name && next.accepted == Some(Going(answer.value, ManualControl)))
            && (answer.Ok? ==> next == hub.(accepted := next.accepted))
            && (answer.Err? ==> next == hub)
            && (answer.Err? && !listed ==> answer.error.at == "$['act']")
            && (answer.Err? && listed ==> answer.error.at == "$")
            && (answer.Err? && !listed ==> answer.error.reason == "this device cannot " + name)
            && (answer.Err? && listed ==>
                  answer.error.reason == "the device is already " + Underway(hub.accepted.value))
  {
    hide P.Text;
    TextsOfPlaces();
    if act :| act in acts && act.Wire() == name {
      NamesAct(name, act);
      hide Act.Named, Act.Wire;
    } else if Act.Named(name).Some? {
      NamesAct(name, Act.Named(name).value);
    }
  }

  lemma TextsOfPlaces()
    ensures P.Text([]) == "$" && P.Text([P.Name("act")]) == "$['act']"
  {
    assert P.EscapedName("act") == P.Escaped('a') + P.EscapedName("ct");
    assert P.EscapedName("ct") == P.Escaped('c') + P.EscapedName("t");
    assert P.EscapedName("t") == P.Escaped('t') + P.EscapedName("");
    assert P.SegmentsText([P.Name("act")]) == P.SegmentText(P.Name("act")) + P.SegmentsText([]);
  }

  const LOW_BATTERY := Going(PowerOff, Cause.LowBattery)

  const FRESH := Hub(None, None, 0, false, 0)

  // How far a departure has got.
  datatype Phase = Spawned | Telling | Told | Closing | Closed | Dropped | Carrying | Failing | Unannounced | Unended

  // What a departure does that can be seen from outside it. `all` is whether the wait was met rather than cut short.
  datatype Event =
    | Accepted(going: Going)
    | Announced(going: Going)
    | ToldFeeds(all: bool)
    | EndingSet
    | ClosedSessions(all: bool)
    | LinksDropped
    | CarriedOut(going: Going)
    | ActFailed(going: Going)
    | Freed

  datatype Advance = Waits | Moves(hub: Hub, phase: Option<Phase>, event: Option<Event>)

  // A departure's next action. `bad` is whether a wait times out or the act fails, as the phase has it; a wait
  // neither met nor timed out goes on.
  function Onward(hub: Hub, going: Going, phase: Phase, bad: bool): Advance
  {
    match phase
    case Spawned => Moves(hub.(announced := Some(going)), Some(Telling), Some(Announced(going)))
    case Telling => if bad || hub.untold == 0 then Moves(hub, Some(Told), Some(ToldFeeds(hub.untold == 0))) else Waits
    case Told => Moves(hub.(ending := true), Some(Closing), Some(EndingSet))
    case Closing =>
      if bad || hub.sessions == 0 then Moves(hub, Some(Closed), Some(ClosedSessions(hub.sessions == 0))) else Waits
    case Closed => Moves(hub, Some(Dropped), Some(LinksDropped))
    case Dropped => Moves(hub, Some(Carrying), Some(CarriedOut(going)))
    case Carrying => if bad then Moves(hub, Some(Failing), Some(ActFailed(going))) else Moves(hub, None, None)
    case Failing => Moves(hub.(announced := None), Some(Unannounced), None)
    case Unannounced => Moves(hub.(ending := false), Some(Unended), None)
    case Unended => Moves(hub.(accepted := None), None, Some(Freed))
  }

  // ---- The controller ----------------------------------------------------------------------------------

  class Controller {
    const acts: seq<Act>
    var accepted: Option<Going>
    var announced: Option<Going>
    var untold: nat
    var ending: bool
    var sessions: nat

    function State(): Hub
      reads this
    {
      Hub(accepted, announced, untold, ending, sessions)
    }

    constructor (acts: seq<Act>)
      ensures this.acts == acts && State() == FRESH
    {
      this.acts := acts;
      accepted, announced, untold, ending, sessions := None, None, 0, false, 0;
    }

    method Take(going: Going) returns (already: Option<Going>)
      modifies this`accepted
      ensures (State(), already) == old(State()).Take(going)
    {
      if accepted.Some? {
        return accepted;
      }
      accepted := Some(going);
      return None;
    }

    method Decide(name: string) returns (answer: Result<Act, CannotAct>)
      modifies this`accepted
      ensures (State(), answer) == old(State()).Decide(acts, name)
    {
      var act := Act.Named(name);
      if act.None? || act.value !in acts {
        return Err(CannotAct(P.Text([P.Name("act")]), "this device cannot " + name));
      }
      var already := Take(Going(act.value, ManualControl));
      if already.Some? {
        return Err(CannotAct(P.Text([]), "the device is already " + already.value.Doing()));
      }
      return Ok(act.value);
    }

    method LowBattery() returns (notBegun: Option<NotBegun>)
      modifies this`accepted
      ensures (State(), notBegun) == old(State()).LowBattery(acts)
    {
      if PowerOff !in acts {
        return Some(CannotPowerOff);
      }
      var already := Take(LOW_BATTERY);
      if already.Some? {
        return Some(AlreadyGoing(already.value));
      }
      return None;
    }
  }

  // A session held open, ended once the controller says every session is to.
  class SessionGuard {
    const controller: Controller

    constructor (controller: Controller)
      modifies controller`sessions
      ensures this.controller == controller
      ensures controller.State() == old(controller.State()).(sessions := old(controller.sessions) + 1)
    {
      this.controller := controller;
      new;
      controller.sessions := controller.sessions + 1;
    }

    method Drop()
      requires controller.sessions > 0
      modifies controller`sessions
      ensures controller.State() == old(controller.State()).(sessions := old(controller.sessions) - 1)
    {
      controller.sessions := controller.sessions - 1;
    }
  }

  // One of those `untold` counts, for as long as `counted` says so.
  class Feed {
    const controller: Controller
    var counted: bool

    constructor (controller: Controller)
      modifies controller`untold
      ensures this.controller == controller && counted
      ensures controller.State() == old(controller.State()).(untold := old(controller.untold) + 1)
    {
      this.controller, counted := controller, true;
      new;
      controller.untold := controller.untold + 1;
    }

    // Told twice, or told and then dropped, it leaves the count once.
    method Told()
      requires counted ==> controller.untold > 0
      modifies `counted, controller`untold
      ensures !counted
      ensures controller.State() ==
              old(controller.State()).(untold := old(controller.untold) - if old(counted) then 1 else 0)
    {
      if counted {
        counted := false;
        controller.untold := controller.untold - 1;
      }
    }
  }

  // One going away, from the act accepted to it carried out or let go of.
  class Departure {
    const going: Going
    const controller: Controller
    var phase: Option<Phase>

    constructor (controller: Controller, going: Going)
      ensures this.controller == controller && this.going == going && phase == Some(Spawned)
    {
      this.controller, this.going, phase := controller, going, Some(Spawned);
    }

    method Step(bad: bool) returns (event: Option<Event>)
      requires phase.Some?
      modifies `phase, controller
      ensures match Onward(old(controller.State()), going, old(phase.value), bad)
              case Waits => controller.State() == old(controller.State()) && phase == old(phase) && event == None
              case Moves(hub, next, what) => controller.State() == hub && phase == next && event == what
    {
      event := None;
      match phase.value {
        case Spawned =>
          controller.announced := Some(going);
          phase, event := Some(Telling), Some(Announced(going));
        case Telling =>
          if bad || controller.untold == 0 {
            phase, event := Some(Phase.Told), Some(ToldFeeds(controller.untold == 0));
          }
        case Told =>
          controller.ending := true;
          phase, event := Some(Closing), Some(EndingSet);
        case Closing =>
          if bad || controller.sessions == 0 {
            phase, event := Some(Closed), Some(ClosedSessions(controller.sessions == 0));
          }
        case Closed =>
          phase, event := Some(Dropped), Some(LinksDropped);
        case Dropped =>
          phase, event := Some(Carrying), Some(CarriedOut(going));
        case Carrying =>
          phase := None;
          if bad {
            phase, event := Some(Failing), Some(ActFailed(going));
          }
        case Failing =>
          controller.announced := None;
          phase := Some(Unannounced);
        case Unannounced =>
          controller.ending := false;
          phase := Some(Unended);
        case Unended =>
          controller.accepted := None;
          phase, event := None, Some(Freed);
      }
    }
  }
}
