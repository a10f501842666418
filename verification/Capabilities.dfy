/** The capability check as a walk (`Checker`), as functions, and as a relation (`Admits`).

    The checker walks a document and the mirror of it a device sends, with one shared path. `Checker` is
    that walk; the functions before it say what each of its methods returns; and `Admits` says, without
    any walk, what is asked of it: that some choice of keys for the selectors a document leaves unset
    covers all the document carries. */
module Capabilities {
  import opened Wrappers
  import opened Json
  import T = Text
  import opened Path

  datatype Context = Document | Attachment | Security | Hotspot | Other
  {
    function Child(member: string): Context
    {
      if Document? && member == "attachments" then Attachment
      else if Document? && member == "hotspot" then Hotspot
      else if Attachment? && member == "security" then Security
      else Context.Other
    }
  }

  const SELECTORS: seq<string> := ["kind", "interface", "band"]

  datatype Reason =
    | NoneSupported(selector: string)
    | NotAKey(value: Json, selector: string)
    | NoSuchMember(name: string)
    | NoSuchValue(value: Json)

  datatype Invalid = Invalid(at: string, reason: Reason)

  // A refusal with the measure by which `TryAll` prefers one to another.
  datatype Fault = Fault(invalid: Invalid, progress: nat)

  // One leaf of `Resolve`: what is left to hold members to, and the names it need not look at again.
  datatype Resolution = Resolution(constraints: Members, consumed: seq<string>)

  // Members that pass without being listed in any mirror.
  predicate Required(context: Context, kind: Option<string>, member: string)
  {
    match context
    case Document => member == "attachments"
    case Attachment =>
      kind.Some? && (
        (kind.value == "wireless" && member in {"label", "enabled", "verify", "ssid", "security"})
        || (kind.value == "wired-dynamic" && member in {"label", "enabled", "verify", "interface"})
        || (kind.value == "wired-static"
            && member in {"label", "enabled", "verify", "interface", "addresses", "gateway"}))
    case Security =>
      kind.Some? && (
        (kind.value in {"psk", "sae", "psk-sae"} && member == "passphrase")
        || (kind.value == "enterprise" && member != "eap"))
    case Hotspot => member in {"enabled", "ssid", "passphrase"}
    case Other => false
  }

  function KeyOf(render: Render, value: Json): string
  {
    if value.String? then value.text else render(value)
  }

  // Map union, the right side winning.
  function Merged(base: Members, under: Members): Members
  {
    base + under
  }

  predicate HoldsObjects(value: Json)
  {
    value.Object? || (value.Array? && exists i | 0 <= i < |value.items| :: value.items[i].Object?)
  }

  // The next selector the constraints key by value.
  predicate Selects(constraints: Members, consumed: seq<string>, name: string)
  {
    name !in consumed && name in constraints && constraints[name].Object?
  }

  function NextSelector(constraints: Members, consumed: seq<string>): (r: Option<string>)
    ensures r.Some? ==> r.value in SELECTORS && Selects(constraints, consumed, r.value)
    ensures r.None? ==> forall name | name in SELECTORS :: !Selects(constraints, consumed, name)
  {
    if Selects(constraints, consumed, "kind") then Some("kind")
    else if Selects(constraints, consumed, "interface") then Some("interface")
    else if Selects(constraints, consumed, "band") then Some("band")
    else None
  }

  // How many selectors are left to consume.
  function Left(consumed: seq<string>): nat
  {
    (if "kind" in consumed then 0 else 1)
    + (if "interface" in consumed then 0 else 1)
    + (if "band" in consumed then 0 else 1)
  }

  lemma LeftFalls(consumed: seq<string>, selector: string)
    requires selector in SELECTORS && selector !in consumed
    ensures Left(consumed + [selector]) < Left(consumed)
  {
  }

  // ---- What is asked -----------------------------------------------------------------------------------

  // The resolution a choice of keys for the unset selectors leads to, if every key met is one.
  function Settle(render: Render, document: Members, constraints: Members, consumed: seq<string>,
                  choice: map<string, string>): Option<Resolution>
    decreases Left(consumed)
  {
    match NextSelector(constraints, consumed)
    case None => Some(Resolution(constraints, consumed))
    case Some(selector) =>
      LeftFalls(consumed, selector);
      var keyed, base := constraints[selector].members, constraints - {selector};
      if Unset(document, selector) && selector !in choice then None
      else
        var key := if Unset(document, selector) then choice[selector] else KeyOf(render, document[selector]);
        if key in keyed && keyed[key].Object? then
          Settle(render, document, Merged(base, keyed[key].members), consumed + [selector], choice)
        else None
  }

  // Whether resolving an object's selectors meets no key that faults: every selector the object sets is
  // keyed by its value, under every key of the selectors it leaves unset, and each of those has a key.
  predicate Resolvable(render: Render, document: Members, constraints: Members, consumed: seq<string>)
    decreases Left(consumed)
  {
    match NextSelector(constraints, consumed)
    case None => true
    case Some(selector) =>
      LeftFalls(consumed, selector);
      var keyed, base := constraints[selector].members, constraints - {selector};
      if Unset(document, selector) then
        && (exists k | k in keyed :: keyed[k].Object?)
        && forall k | k in keyed && keyed[k].Object? ::
             Resolvable(render, document, Merged(base, keyed[k].members), consumed + [selector])
      else
        var key := KeyOf(render, document[selector]);
        && key in keyed && keyed[key].Object?
        && Resolvable(render, document, Merged(base, keyed[key].members), consumed + [selector])
  }

  // A document is within capabilities where some choice of keys for the selectors it leaves unset, at
  // every object, covers or requires every member it carries. Read strictly, no key of an unset selector
  // may fault either, chosen or not.
  ghost predicate Admits(strict: bool, render: Render, document: Json, constraints: Members, context: Context)
    requires document.Object?
    decreases document, 1
  {
    (strict ==> Resolvable(render, document.members, constraints, [])) &&
    exists choice, resolution ::
      && SettlesOn(render, document.members, constraints, choice, resolution)
      && AdmitsMembers(strict, render, document, resolution, context)
  }

  ghost predicate SettlesOn(render: Render, document: Members, constraints: Members, choice: map<string, string>,
                            resolution: Resolution)
  {
    Settle(render, document, constraints, [], choice) == Some(resolution)
  }

  ghost predicate AdmitsMembers(strict: bool, render: Render, document: Json, resolution: Resolution, context: Context)
    requires document.Object?
    decreases document, 0
  {
    forall name | name in document.members && Checked(document.members, name, resolution) ::
      AdmitsMember(strict, render, name, document.members[name], resolution, context, KindOf(document.members))
  }

  // The members an object is checked at: those set, but for the selectors resolving it used.
  predicate Checked(document: Members, name: string, resolution: Resolution)
    requires name in document
  {
    !document[name].Null? && name !in resolution.consumed
  }

  ghost predicate AdmitsMember(strict: bool, render: Render, name: string, value: Json, resolution: Resolution,
                               context: Context, kind: Option<string>)
    decreases value, 4
  {
    if name in resolution.constraints then
      AdmitsValue(strict, render, value, resolution.constraints[name], context.Child(name))
    else
      && Required(context, kind, name)
      && (HoldsObjects(value) ==> AdmitsValue(strict, render, value, Object(map[]), context.Child(name)))
  }

  ghost predicate AdmitsValue(strict: bool, render: Render, value: Json, constraint: Json, context: Context)
    decreases value, 3
  {
    || constraint == Bool(true)
    || (value.Array? &&
        forall i | 0 <= i < |value.items| :: AdmitsValue(strict, render, value.items[i], constraint, context))
    || (value.Object? && constraint.Object? && Admits(strict, render, value, constraint.members, context))
    || (!value.Array? && constraint.Array? && value in constraint.items)
  }

  // ---- What the walk returns ---------------------------------------------------------------------------

  // A fault at a selector of the node reached, and one at the node itself.
  function OutsideAt(at: seq<Segment>, selector: string, reason: Reason): Fault
  {
    Fault(Invalid(Text(at + [Name(selector)]), reason), (|at| + 1) * 2)
  }

  function Outside(at: seq<Segment>, reason: Reason): Fault
  {
    Fault(Invalid(Text(at), reason), |at| * 2 + 1)
  }

  ghost function Resolve(render: Render, document: Members, constraints: Members, consumed: seq<string>,
                         at: seq<Segment>): Result<seq<Resolution>, Fault>
    decreases Left(consumed), 1, 0
  {
    match NextSelector(constraints, consumed)
    case None => Ok([Resolution(constraints, consumed)])
    case Some(selector) =>
      LeftFalls(consumed, selector);
      var keyed, base := constraints[selector].members, constraints - {selector};
      if Unset(document, selector) then
        var all := ResolveKeys(render, document, base, keyed, T.Sorted(keyed.Keys), consumed + [selector], at);
        if all == Ok([]) then Err(OutsideAt(at, selector, NoneSupported(selector))) else all
      else
        var key := KeyOf(render, document[selector]);
        if key in keyed && keyed[key].Object? then
          Resolve(render, document, Merged(base, keyed[key].members), consumed + [selector], at)
        else Err(OutsideAt(at, selector, NotAKey(document[selector], selector)))
  }

  // Every way of resolving the rest, under each of these keys in turn. The first to fault is the answer.
  ghost function ResolveKeys(render: Render, document: Members, base: Members, keyed: Members, keys: seq<string>,
                             consumed: seq<string>, at: seq<Segment>): Result<seq<Resolution>, Fault>
    requires forall k | k in keys :: k in keyed
    decreases Left(consumed), 2, |keys|
  {
    if keys == [] then Ok([])
    else if !keyed[keys[0]].Object? then ResolveKeys(render, document, base, keyed, keys[1..], consumed, at)
    else
      match Resolve(render, document, Merged(base, keyed[keys[0]].members), consumed, at)
      case Err(fault) => Err(fault)
      case Ok(first) =>
        match ResolveKeys(render, document, base, keyed, keys[1..], consumed, at)
        case Err(fault) => Err(fault)
        case Ok(rest) => Ok(first + rest)
  }

  ghost function Check(render: Render, document: Json, constraints: Members, context: Context, at: seq<Segment>):
    Result<(), Fault>
    requires document.Object?
    decreases document, 4, 0
  {
    match Resolve(render, document.members, constraints, [], at)
    case Err(fault) => Err(fault)
    case Ok(resolutions) =>
      var best := TryAll(render, document, resolutions, context, at);
      if best.None? then Ok(()) else Err(best.value)
  }

  // The first fault of the greatest progress among these resolutions, or none where one of them passes
  // or there are none to try.
  ghost function TryAll(render: Render, document: Json, resolutions: seq<Resolution>, context: Context,
                        at: seq<Segment>): Option<Fault>
    requires document.Object?
    decreases document, 3, |resolutions|
  {
    if resolutions == [] then None
    else
      var before := resolutions[..|resolutions| - 1];
      var outcome := CheckMembers(render, document, resolutions[|resolutions| - 1], context, at);
      var best := TryAll(render, document, before, context, at);
      if outcome.Ok? || (before != [] && best.None?) then None
      else if best.None? || outcome.error.progress > best.value.progress then Some(outcome.error)
      else best
  }

  ghost function CheckMembers(render: Render, document: Json, resolution: Resolution, context: Context,
                              at: seq<Segment>): Result<(), Fault>
    requires document.Object?
    decreases document, 2, 0
  {
    CheckNames(render, document, T.Sorted(document.members.Keys), resolution, context, at)
  }

  ghost function CheckNames(render: Render, document: Json, names: seq<string>, resolution: Resolution,
                            context: Context, at: seq<Segment>): Result<(), Fault>
    requires document.Object? && forall name | name in names :: name in document.members
    decreases document, 1, |names|
  {
    if names == [] then Ok(())
    else
      var name := names[0];
      var outcome :=
        if Checked(document.members, name, resolution) then
          CheckMember(render, name, document.members[name], resolution, context, KindOf(document.members), at)
        else Ok(());
      if outcome.Err? then outcome else CheckNames(render, document, names[1..], resolution, context, at)
  }

  ghost function CheckMember(render: Render, name: string, value: Json, resolution: Resolution, context: Context,
                             kind: Option<string>, at: seq<Segment>): Result<(), Fault>
    decreases value, 6, 0
  {
    var here := at + [Name(name)];
    if name in resolution.constraints then
      CheckValue(render, value, resolution.constraints[name], context.Child(name), here)
    else if Required(context, kind, name) then
      if HoldsObjects(value) then CheckValue(render, value, Object(map[]), context.Child(name), here) else Ok(())
    else Err(Outside(here, NoSuchMember(name)))
  }

  ghost function CheckValue(render: Render, value: Json, constraint: Json, context: Context, at: seq<Segment>):
    Result<(), Fault>
    decreases value, 5, 0
  {
    if constraint == Bool(true) then Ok(())
    else if value.Array? then CheckItems(render, value, 0, constraint, context, at)
    else if value.Object? && constraint.Object? then Check(render, value, constraint.members, context, at)
    else if constraint.Array? && value in constraint.items then Ok(())
    else Err(Outside(at, NoSuchValue(value)))
  }

  ghost function CheckItems(render: Render, value: Json, from: nat, constraint: Json, context: Context,
                            at: seq<Segment>): Result<(), Fault>
    requires value.Array? && from <= |value.items|
    decreases value, 4, |value.items| - from
  {
    if from == |value.items| then Ok(())
    else
      var outcome := CheckValue(render, value.items[from], constraint, context, at + [Index(from)]);
      if outcome.Err? then outcome else CheckItems(render, value, from + 1, constraint, context, at)
  }

  // ---- The walk ----------------------------------------------------------------------------------------

  class Checker {
    const render: Render
    // Pushed and popped around every descent; each method below restores it.
    var at: seq<Segment>

    constructor (render: Render)
      ensures this.render == render && at == []
    {
      this.render, at := render, [];
    }

    method FaultAtSelector(selector: string, reason: Reason) returns (fault: Fault)
      modifies this
      ensures at == old(at) && fault == OutsideAt(at, selector, reason)
    {
      at := at + [Name(selector)];
      var text := Path.Write(at);
      fault := Fault(Invalid(text, reason), |at| * 2);
      at := at[..|at| - 1];
    }

    method FaultHere(reason: Reason) returns (fault: Fault)
      ensures fault == Outside(at, reason)
    {
      var text := Path.Write(at);
      fault := Fault(Invalid(text, reason), |at| * 2 + 1);
    }

    method ResolveSelectors(document: Members, constraints: Members, consumed: seq<string>)
      returns (r: Result<seq<Resolution>, Fault>)
      modifies this
      ensures at == old(at) && r == Resolve(render, document, constraints, consumed, at)
      decreases Left(consumed), 0
    {
      var next := NextSelector(constraints, consumed);
      hide T.Sorted, NextSelector, ResolveKeys;
      if next.None? {
        return Ok([Resolution(constraints, consumed)]);
      }
      var selector := next.value;
      LeftFalls(consumed, selector);
      var keyed, base := constraints[selector].members, constraints - {selector};
      if !Unset(document, selector) {
        var key := KeyOf(render, document[selector]);
        if key in keyed && keyed[key].Object? {
          r := ResolveSelectors(document, Merged(base, keyed[key].members), consumed + [selector]);
          return;
        }
        var fault := FaultAtSelector(selector, NotAKey(document[selector], selector));
        return Err(fault);
      }
      var all := ResolveEachKey(document, base, keyed, consumed + [selector]);
      if all.Err? {
        return all;
      }
      if all.value == [] {
        var fault := FaultAtSelector(selector, NoneSupported(selector));
        return Err(fault);
      }
      return all;
    }

    method ResolveEachKey(document: Members, base: Members, keyed: Members, consumed: seq<string>)
      returns (r: Result<seq<Resolution>, Fault>)
      modifies this
      ensures at == old(at)
      ensures r == ResolveKeys(render, document, base, keyed, T.Sorted(keyed.Keys), consumed, at)
      decreases Left(consumed), 1
    {
      hide T.Sorted, Resolve, NextSelector;
      var all: seq<Resolution> := [];
      var keys := T.SortedKeys(keyed.Keys);
      ghost var whole := ResolveKeys(render, document, base, keyed, keys, consumed, at);
      assert keys[0..] == keys;
      assert whole.Ok? ==> all + whole.value == whole.value;
      for i := 0 to |keys|
        invariant at == old(at)
        invariant whole == After(all, ResolveKeys(render, document, base, keyed, keys[i..], consumed, at))
      {
        assert keys[i..][1..] == keys[i + 1..];
        var under := keyed[keys[i]];
        if under.Object? {
          var more := ResolveSelectors(document, Merged(base, under.members), consumed);
          if more.Err? {
            return more;
          }
          AfterMore(all, more.value, ResolveKeys(render, document, base, keyed, keys[i + 1..], consumed, at));
          all := all + more.value;
        }
      }
      assert all + [] == all;
      return Ok(all);
    }

    static lemma AfterMore(all: seq<Resolution>, more: seq<Resolution>, rest: Result<seq<Resolution>, Fault>)
      ensures After(all, After(more, rest)) == After(all + more, rest)
    {
      if rest.Ok? {
        assert all + (more + rest.value) == (all + more) + rest.value;
      }
    }

    static ghost function After(all: seq<Resolution>, rest: Result<seq<Resolution>, Fault>)
      : Result<seq<Resolution>, Fault>
    {
      if rest.Ok? then Ok(all + rest.value) else rest
    }

    method CheckObject(document: Json, constraints: Members, context: Context) returns (r: Result<(), Fault>)
      requires document.Object?
      modifies this
      ensures at == old(at) && r == Check(render, document, constraints, context, at)
      decreases document, 3
    {
      hide T.Sorted, Resolve, CheckMembers, Text;
      var resolutions := ResolveSelectors(document.members, constraints, []);
      if resolutions.Err? {
        return Err(resolutions.error);
      }
      ResolveYields(render, document.members, constraints, [], at);
      var rs := resolutions.value;
      var deepest: Option<Fault> := None;
      for i := 0 to |rs|
        invariant at == old(at)
        invariant deepest == TryAll(render, document, rs[..i], context, at)
        invariant i > 0 ==> deepest.Some?
      {
        assert rs[..i + 1][..i] == rs[..i];
        var outcome := CheckAllMembers(document, rs[i], context);
        if outcome.Ok? {
          PassEnds(render, document, rs, i, context, at);
          return Ok(());
        }
        if deepest.None? || outcome.error.progress > deepest.value.progress {
          deepest := Some(outcome.error);
        }
      }
      assert rs[..|rs|] == rs;
      return Err(deepest.value);
    }

    method CheckAllMembers(document: Json, resolution: Resolution, context: Context) returns (r: Result<(), Fault>)
      requires document.Object?
      modifies this
      ensures at == old(at) && r == CheckMembers(render, document, resolution, context, at)
      decreases document, 2
    {
      hide T.Sorted, CheckMember;
      var kind := KindOf(document.members);
      var names := T.SortedKeys(document.members.Keys);
      ghost var whole := CheckNames(render, document, names, resolution, context, at);
      assert names[0..] == names;
      for i := 0 to |names|
        invariant at == old(at)
        invariant whole == CheckNames(render, document, names[i..], resolution, context, at)
      {
        assert names[i..][1..] == names[i + 1..];
        var name, value := names[i], document.members[names[i]];
        if value.Null? || name in resolution.consumed {
          continue;
        }
        var outcome := CheckOneMember(name, value, resolution, context, kind);
        if outcome.Err? {
          return outcome;
        }
      }
      return Ok(());
    }

    method CheckOneMember(name: string, value: Json, resolution: Resolution, context: Context, kind: Option<string>)
      returns (r: Result<(), Fault>)
      modifies this
      ensures at == old(at) && r == CheckMember(render, name, value, resolution, context, kind, at)
      decreases value, 5
    {
      hide Required, HoldsObjects, CheckValue, Text;
      at := at + [Name(name)];
      r := Ok(());
      if name in resolution.constraints {
        r := CheckOneValue(value, resolution.constraints[name], context.Child(name));
      } else if Required(context, kind, name) {
        // Held to nothing, so only what such members require in turn can pass.
        if HoldsObjects(value) {
          r := CheckOneValue(value, Object(map[]), context.Child(name));
        }
      } else {
        var fault := FaultHere(NoSuchMember(name));
        r := Err(fault);
      }
      at := at[..|at| - 1];
    }

    method CheckOneValue(value: Json, constraint: Json, context: Context) returns (r: Result<(), Fault>)
      modifies this
      ensures at == old(at) && r == CheckValue(render, value, constraint, context, at)
      decreases value, 4
    {
      if constraint == Bool(true) {
        return Ok(());
      }
      if value.Array? {
        ghost var whole := CheckItems(render, value, 0, constraint, context, at);
        for i := 0 to |value.items|
          invariant at == old(at)
          invariant whole == CheckItems(render, value, i, constraint, context, at)
        {
          at := at + [Index(i)];
          var outcome := CheckOneValue(value.items[i], constraint, context);
          at := at[..|at| - 1];
          if outcome.Err? {
            return outcome;
          }
        }
        return Ok(());
      }
      if value.Object? && constraint.Object? {
        r := CheckObject(value, constraint.members, context);
        return;
      }
      if constraint.Array? && value in constraint.items {
        return Ok(());
      }
      var fault := FaultHere(NoSuchValue(value));
      return Err(fault);
    }
  }

  // The whole check of a document against a device's mirror.
  method CheckDocument(render: Render, document: Members, capabilities: Members) returns (r: Result<(), Invalid>)
    ensures r.Ok? <==> Check(render, Object(document), capabilities, Document, []).Ok?
    ensures r.Err? ==> r.error == Check(render, Object(document), capabilities, Document, []).error.invalid
  {
    var checker := new Checker(render);
    var outcome := checker.CheckObject(Object(document), capabilities, Document);
    return if outcome.Ok? then Ok(()) else Err(outcome.error.invalid);
  }

  // Once one resolution passes, so does the object, whatever the later ones say.
  lemma {:induction false} PassEnds(render: Render, document: Json, rs: seq<Resolution>, i: nat, context: Context,
                                    at: seq<Segment>)
    requires document.Object? && i < |rs| && CheckMembers(render, document, rs[i], context, at).Ok?
    ensures TryAll(render, document, rs, context, at).None?
    decreases |rs|
  {
    var last := |rs| - 1;
    if i < last {
      assert rs[..last][i] == rs[i];
      PassEnds(render, document, rs[..last], i, context, at);
    }
  }

  // Resolving yields at least one resolution or faults.
  lemma {:induction false} ResolveYields(render: Render, document: Members, constraints: Members,
                                         consumed: seq<string>, at: seq<Segment>)
    ensures Resolve(render, document, constraints, consumed, at) != Ok([])
    decreases Left(consumed)
  {
    var next := NextSelector(constraints, consumed);
    if next.Some? {
      var selector := next.value;
      LeftFalls(consumed, selector);
      var keyed, base := constraints[selector].members, constraints - {selector};
      if !Unset(document, selector) {
        var key := KeyOf(render, document[selector]);
        if key in keyed && keyed[key].Object? {
          ResolveYields(render, document, Merged(base, keyed[key].members), consumed + [selector], at);
        }
      }
    }
  }
}
