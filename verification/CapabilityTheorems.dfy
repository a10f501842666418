/** What the capability checker's answers mean. */
module CapabilityTheorems {
  import opened Wrappers
  import opened Json
  import T = Text
  import opened Path
  import opened Nodes
  import opened Capabilities

  // ---- Resolutions are the settled choices -------------------------------------------------------------

  // A key chosen for a selector already consumed changes nothing.
  lemma {:induction false} SpentChoice(render: Render, document: Members, constraints: Members,
                                       consumed: seq<string>, choice: map<string, string>, selector: string,
                                       key: string)
    requires selector in consumed
    ensures Settle(render, document, constraints, consumed, choice[selector := key]) ==
            Settle(render, document, constraints, consumed, choice)
    decreases Left(consumed)
  {
    var next := NextSelector(constraints, consumed);
    if next.Some? {
      var sel := next.value;
      LeftFalls(consumed, sel);
      var keyed, base := constraints[sel].members, constraints - {sel};
      forall k | k in keyed && keyed[k].Object?
        ensures Settle(render, document, Merged(base, keyed[k].members), consumed + [sel], choice[selector := key]) ==
                Settle(render, document, Merged(base, keyed[k].members), consumed + [sel], choice)
      {
        SpentChoice(render, document, Merged(base, keyed[k].members), consumed + [sel], choice, selector, key);
      }
    }
  }

  // The key a resolution came under.
  lemma {:induction false} ComesUnder(render: Render, document: Members, base: Members, keyed: Members,
                                      keys: seq<string>, consumed: seq<string>, at: seq<Segment>, r: Resolution)
    returns (k: string)
    requires forall k | k in keys :: k in keyed
    requires var all := ResolveKeys(render, document, base, keyed, keys, consumed, at); all.Ok? && r in all.value
    ensures k in keys && keyed[k].Object?
    ensures var all := Resolve(render, document, Merged(base, keyed[k].members), consumed, at);
            all.Ok? && r in all.value
    decreases |keys|
  {
    k := keys[0];
    if !keyed[k].Object? {
      k := ComesUnder(render, document, base, keyed, keys[1..], consumed, at, r);
    } else {
      var first := Resolve(render, document, Merged(base, keyed[k].members), consumed, at);
      if r !in first.value {
        k := ComesUnder(render, document, base, keyed, keys[1..], consumed, at, r);
      }
    }
  }

  // Resolving under several keys succeeds exactly when resolving under each does, and holds all of each.
  lemma {:induction false} KeysCover(render: Render, document: Members, base: Members, keyed: Members,
                                     keys: seq<string>, consumed: seq<string>, at: seq<Segment>)
    requires forall k | k in keys :: k in keyed
    ensures var all := ResolveKeys(render, document, base, keyed, keys, consumed, at);
            all.Ok? <==> forall k | k in keys && keyed[k].Object? ::
              Resolve(render, document, Merged(base, keyed[k].members), consumed, at).Ok?
    ensures var all := ResolveKeys(render, document, base, keyed, keys, consumed, at);
            all.Ok? ==> forall k, r | k in keys && keyed[k].Object? &&
              r in Resolve(render, document, Merged(base, keyed[k].members), consumed, at).value :: r in all.value
    ensures var all := ResolveKeys(render, document, base, keyed, keys, consumed, at);
            all.Ok? ==> forall k | k in keys && keyed[k].Object? ::
              |Resolve(render, document, Merged(base, keyed[k].members), consumed, at).value| <= |all.value|
    decreases |keys|
  {
    if keys != [] {
      assert forall k :: k in keys <==> k == keys[0] || k in keys[1..];
      KeysCover(render, document, base, keyed, keys[1..], consumed, at);
    }
  }

  // Every resolution is what some choice settles on.
  lemma {:induction false} ResolvedBySome(render: Render, document: Members, constraints: Members,
                                          consumed: seq<string>, at: seq<Segment>, r: Resolution)
    returns (choice: map<string, string>)
    requires var all := Resolve(render, document, constraints, consumed, at); all.Ok? && r in all.value
    ensures Settle(render, document, constraints, consumed, choice) == Some(r)
    decreases Left(consumed)
  {
    choice := map[];
    var next := NextSelector(constraints, consumed);
    if next.Some? {
      var selector := next.value;
      LeftFalls(consumed, selector);
      var keyed, base := constraints[selector].members, constraints - {selector};
      if Unset(document, selector) {
        var k := ComesUnder(render, document, base, keyed, T.Sorted(keyed.Keys), consumed + [selector], at, r);
        var under := Merged(base, keyed[k].members);
        choice := ResolvedBySome(render, document, under, consumed + [selector], at, r);
        SpentChoice(render, document, under, consumed + [selector], choice, selector, k);
        choice := choice[selector := k];
      } else {
        var key := KeyOf(render, document[selector]);
        choice := ResolvedBySome(render, document, Merged(base, keyed[key].members), consumed + [selector], at, r);
      }
    }
  }

  // Where resolving succeeds, every choice that settles is among the resolutions.
  lemma {:induction false} SettledIsResolved(render: Render, document: Members, constraints: Members,
                                             consumed: seq<string>, at: seq<Segment>, choice: map<string, string>)
    requires Resolve(render, document, constraints, consumed, at).Ok?
    requires Settle(render, document, constraints, consumed, choice).Some?
    ensures Settle(render, document, constraints, consumed, choice).value in
            Resolve(render, document, constraints, consumed, at).value
    decreases Left(consumed)
  {
    var next := NextSelector(constraints, consumed);
    if next.Some? {
      var selector := next.value;
      LeftFalls(consumed, selector);
      var keyed, base := constraints[selector].members, constraints - {selector};
      if Unset(document, selector) {
        var k := choice[selector];
        KeysCover(render, document, base, keyed, T.Sorted(keyed.Keys), consumed + [selector], at);
        SettledIsResolved(render, document, Merged(base, keyed[k].members), consumed + [selector], at, choice);
      } else {
        var k := KeyOf(render, document[selector]);
        SettledIsResolved(render, document, Merged(base, keyed[k].members), consumed + [selector], at, choice);
      }
    }
  }

  // Resolving succeeds exactly when no key it meets faults.
  lemma {:induction false} ResolvesExactly(render: Render, document: Members, constraints: Members,
                                           consumed: seq<string>, at: seq<Segment>)
    ensures Resolve(render, document, constraints, consumed, at).Ok? <==>
            Resolvable(render, document, constraints, consumed)
    decreases Left(consumed)
  {
    hide T.Sorted, NextSelector, Left, ResolveKeys;
    var next := NextSelector(constraints, consumed);
    if next.Some? {
      var selector := next.value;
      LeftFalls(consumed, selector);
      var keyed, base := constraints[selector].members, constraints - {selector};
      forall k | k in keyed && keyed[k].Object?
        ensures Resolve(render, document, Merged(base, keyed[k].members), consumed + [selector], at).Ok? <==>
                Resolvable(render, document, Merged(base, keyed[k].members), consumed + [selector])
        ensures Resolve(render, document, Merged(base, keyed[k].members), consumed + [selector], at) != Ok([])
      {
        ResolvesExactly(render, document, Merged(base, keyed[k].members), consumed + [selector], at);
        ResolveYields(render, document, Merged(base, keyed[k].members), consumed + [selector], at);
      }
      if Unset(document, selector) {
        var keys := T.Sorted(keyed.Keys);
        var all := ResolveKeys(render, document, base, keyed, keys, consumed + [selector], at);
        KeysCover(render, document, base, keyed, keys, consumed + [selector], at);
        if all.Ok? && all.value != [] {
          var k := ComesUnder(render, document, base, keyed, keys, consumed + [selector], at, all.value[0]);
        }
      }
    }
  }

  // ---- The checker accepts exactly what is admitted strictly -------------------------------------------

  lemma {:induction false} PassesIfOneDoes(render: Render, document: Json, rs: seq<Resolution>, context: Context,
                                           at: seq<Segment>)
    requires document.Object? && rs != []
    ensures TryAll(render, document, rs, context, at).None? <==>
            exists i | 0 <= i < |rs| :: CheckMembers(render, document, rs[i], context, at).Ok?
    decreases |rs|
  {
    hide CheckMembers;
    var last := |rs| - 1;
    var before := rs[..last];
    if before != [] {
      PassesIfOneDoes(render, document, before, context, at);
      if exists i | 0 <= i < |rs| :: CheckMembers(render, document, rs[i], context, at).Ok? {
        var i :| 0 <= i < |rs| && CheckMembers(render, document, rs[i], context, at).Ok?;
        if i < last {
          assert before[i] == rs[i];
        }
      }
    }
  }

  lemma {:induction false} EveryName(render: Render, document: Json, names: seq<string>, resolution: Resolution,
                                     context: Context, at: seq<Segment>)
    requires document.Object? && forall name | name in names :: name in document.members
    ensures CheckNames(render, document, names, resolution, context, at).Ok? <==>
            forall name | name in names && Checked(document.members, name, resolution) ::
              CheckMember(render, name, document.members[name], resolution, context, KindOf(document.members), at).Ok?
    decreases |names|
  {
    if names != [] {
      assert forall name :: name in names <==> name == names[0] || name in names[1..];
      EveryName(render, document, names[1..], resolution, context, at);
    }
  }

  lemma {:induction false} EveryItem(render: Render, value: Json, from: nat, constraint: Json, context: Context,
                                     at: seq<Segment>)
    requires value.Array? && from <= |value.items|
    ensures CheckItems(render, value, from, constraint, context, at).Ok? <==>
            forall i | from <= i < |value.items| ::
              CheckValue(render, value.items[i], constraint, context, at + [Index(i)]).Ok?
    decreases |value.items| - from
  {
    if from < |value.items| {
      EveryItem(render, value, from + 1, constraint, context, at);
    }
  }

  /** The checker accepts a document exactly when some choice of keys for the selectors left unset, at every
      object, covers or requires every member, and no key of a selector left unset faults at any of them. */
  lemma {:induction false} CheckExactly(render: Render, document: Json, constraints: Members, context: Context,
                                        at: seq<Segment>)
    requires document.Object?
    ensures Check(render, document, constraints, context, at).Ok? <==>
            Admits(true, render, document, constraints, context)
    decreases document, 3
  {
    hide Resolve, Settle, T.Sorted, CheckNames, Resolvable, CheckMembers, AdmitsMembers, Check;
    ResolvesExactly(render, document.members, constraints, [], at);
    var resolutions := Resolve(render, document.members, constraints, [], at);
    if resolutions.Ok? {
      var rs := resolutions.value;
      forall i | 0 <= i < |rs|
        ensures CheckMembers(render, document, rs[i], context, at).Ok? <==>
                AdmitsMembers(true, render, document, rs[i], context)
      {
        MembersExactly(render, document, rs[i], context, at);
      }
      OneSettles(render, document, constraints, context, at, rs);
    } else {
      CheckFaults(render, document, constraints, context, at);
    }
  }

  lemma CheckFaults(render: Render, document: Json, constraints: Members, context: Context, at: seq<Segment>)
    requires document.Object? && Resolve(render, document.members, constraints, [], at).Err?
    ensures Check(render, document, constraints, context, at).Err?
  {
    hide Resolve, TryAll;
  }

  // With the members of each resolution checked exactly, an object passes exactly when some choice does.
  lemma OneSettles(render: Render, document: Json, constraints: Members, context: Context, at: seq<Segment>,
                   rs: seq<Resolution>)
    requires document.Object? && Resolve(render, document.members, constraints, [], at) == Ok(rs)
    requires forall i | 0 <= i < |rs| :: CheckMembers(render, document, rs[i], context, at).Ok? <==>
               AdmitsMembers(true, render, document, rs[i], context)
    ensures Check(render, document, constraints, context, at).Ok? <==>
            exists choice, resolution ::
              && SettlesOn(render, document.members, constraints, choice, resolution)
              && AdmitsMembers(true, render, document, resolution, context)
  {
    hide Resolve, Settle, T.Sorted, CheckNames, CheckMembers, AdmitsMembers;
    ResolveYields(render, document.members, constraints, [], at);
    PassesIfOneDoes(render, document, rs, context, at);
    if exists i | 0 <= i < |rs| :: CheckMembers(render, document, rs[i], context, at).Ok? {
      var i :| 0 <= i < |rs| && CheckMembers(render, document, rs[i], context, at).Ok?;
      var choice := ResolvedBySome(render, document.members, constraints, [], at, rs[i]);
      assert SettlesOn(render, document.members, constraints, choice, rs[i]);
    }
    forall choice, r | SettlesOn(render, document.members, constraints, choice, r)
        && AdmitsMembers(true, render, document, r, context)
      ensures exists i | 0 <= i < |rs| :: CheckMembers(render, document, rs[i], context, at).Ok?
    {
      SettledIsResolved(render, document.members, constraints, [], at, choice);
      var i :| 0 <= i < |rs| && rs[i] == r;
      assert CheckMembers(render, document, rs[i], context, at).Ok?;
    }
  }

  lemma {:induction false} MembersExactly(render: Render, document: Json, resolution: Resolution, context: Context,
                                          at: seq<Segment>)
    requires document.Object?
    ensures CheckMembers(render, document, resolution, context, at).Ok? <==>
            AdmitsMembers(true, render, document, resolution, context)
    decreases document, 2
  {
    var kind := KindOf(document.members);
    EveryName(render, document, T.Sorted(document.members.Keys), resolution, context, at);
    forall name | name in document.members && Checked(document.members, name, resolution)
      ensures CheckMember(render, name, document.members[name], resolution, context, kind, at).Ok? <==>
              AdmitsMember(true, render, name, document.members[name], resolution, context, kind)
    {
      var value := document.members[name];
      var here := at + [Name(name)];
      if name in resolution.constraints {
        ValueExactly(render, value, resolution.constraints[name], context.Child(name), here);
      } else {
        ValueExactly(render, value, Object(map[]), context.Child(name), here);
      }
    }
  }

  lemma {:induction false} ValueExactly(render: Render, value: Json, constraint: Json, context: Context,
                                        at: seq<Segment>)
    ensures CheckValue(render, value, constraint, context, at).Ok? <==>
            AdmitsValue(true, render, value, constraint, context)
    decreases value, 4
  {
    if constraint == Bool(true) {
    } else if value.Array? {
      EveryItem(render, value, 0, constraint, context, at);
      forall i | 0 <= i < |value.items|
        ensures CheckValue(render, value.items[i], constraint, context, at + [Index(i)]).Ok? <==>
                AdmitsValue(true, render, value.items[i], constraint, context)
      {
        ValueExactly(render, value.items[i], constraint, context, at + [Index(i)]);
      }
    } else if value.Object? && constraint.Object? {
      CheckExactly(render, value, constraint.members, context, at);
    }
  }

  // ---- Soundness, and completeness where no key faults -------------------------------------------------

  lemma {:induction false} StrictIsMore(render: Render, document: Json, constraints: Members, context: Context)
    requires document.Object? && Admits(true, render, document, constraints, context)
    ensures Admits(false, render, document, constraints, context)
    decreases document, 3
  {
    hide Settle, Resolvable;
    var choice, r :| SettlesOn(render, document.members, constraints, choice, r)
                     && AdmitsMembers(true, render, document, r, context);
    forall name | name in document.members && Checked(document.members, name, r)
      ensures AdmitsMember(false, render, name, document.members[name], r, context, KindOf(document.members))
    {
      var value := document.members[name];
      assert AdmitsMember(true, render, name, value, r, context, KindOf(document.members));
      if name in r.constraints {
        StrictValueIsMore(render, value, r.constraints[name], context.Child(name));
      } else if HoldsObjects(value) {
        StrictValueIsMore(render, value, Object(map[]), context.Child(name));
      }
    }
    assert AdmitsMembers(false, render, document, r, context);
  }

  lemma {:induction false} StrictValueIsMore(render: Render, value: Json, constraint: Json, context: Context)
    requires AdmitsValue(true, render, value, constraint, context)
    ensures AdmitsValue(false, render, value, constraint, context)
    decreases value, 4
  {
    if constraint == Bool(true) {
    } else if value.Array? {
      forall i | 0 <= i < |value.items| ensures AdmitsValue(false, render, value.items[i], constraint, context) {
        assert AdmitsValue(true, render, value.items[i], constraint, context);
        StrictValueIsMore(render, value.items[i], constraint, context);
      }
    } else if value.Object? && constraint.Object? {
      StrictIsMore(render, value, constraint.members, context);
    }
  }

  /** No key faults anywhere: at every object met under some choice that settles the objects above it,
      either no choice settles, or no key of a selector left unset faults. */
  ghost predicate Faultless(render: Render, document: Json, constraints: Members, context: Context)
    requires document.Object?
    decreases document, 1
  {
    forall choice, r | SettlesOn(render, document.members, constraints, choice, r) ::
      && Resolvable(render, document.members, constraints, [])
      && FaultlessMembers(render, document, r, context)
  }

  ghost predicate FaultlessMembers(render: Render, document: Json, r: Resolution, context: Context)
    requires document.Object?
    decreases document, 0
  {
    forall name | name in document.members && Checked(document.members, name, r) ::
      var constraint := if name in r.constraints then r.constraints[name] else Object(map[]);
      FaultlessValue(render, document.members[name], constraint, context.Child(name))
  }

  ghost predicate FaultlessValue(render: Render, value: Json, constraint: Json, context: Context)
    decreases value, 2
  {
    && (value.Array? ==>
          forall i | 0 <= i < |value.items| :: FaultlessValue(render, value.items[i], constraint, context))
    && (value.Object? && constraint.Object? ==> Faultless(render, value, constraint.members, context))
  }

  lemma {:induction false} FaultlessIsStrict(render: Render, document: Json, constraints: Members, context: Context)
    requires document.Object? && Faultless(render, document, constraints, context)
    requires Admits(false, render, document, constraints, context)
    ensures Admits(true, render, document, constraints, context)
    decreases document, 3
  {
    hide Settle, Resolvable;
    var choice, r :| SettlesOn(render, document.members, constraints, choice, r)
                     && AdmitsMembers(false, render, document, r, context);
    assert FaultlessMembers(render, document, r, context);
    forall name | name in document.members && Checked(document.members, name, r)
      ensures AdmitsMember(true, render, name, document.members[name], r, context, KindOf(document.members))
    {
      var value := document.members[name];
      assert AdmitsMember(false, render, name, value, r, context, KindOf(document.members));
      var constraint := if name in r.constraints then r.constraints[name] else Object(map[]);
      assert FaultlessValue(render, value, constraint, context.Child(name));
      if name in r.constraints || HoldsObjects(value) {
        FaultlessValueIsStrict(render, value, constraint, context.Child(name));
      }
    }
    assert AdmitsMembers(true, render, document, r, context);
  }

  lemma {:induction false} FaultlessValueIsStrict(render: Render, value: Json, constraint: Json, context: Context)
    requires FaultlessValue(render, value, constraint, context)
    requires AdmitsValue(false, render, value, constraint, context)
    ensures AdmitsValue(true, render, value, constraint, context)
    decreases value, 4
  {
    if constraint == Bool(true) {
    } else if value.Array? {
      forall i | 0 <= i < |value.items| ensures AdmitsValue(true, render, value.items[i], constraint, context) {
        assert AdmitsValue(false, render, value.items[i], constraint, context);
        assert FaultlessValue(render, value.items[i], constraint, context);
        FaultlessValueIsStrict(render, value.items[i], constraint, context);
      }
    } else if value.Object? && constraint.Object? {
      FaultlessIsStrict(render, value, constraint.members, context);
    }
  }

  /** The checker never accepts what is outside capabilities, and refuses nothing within them where no key the
      document leads it to faults. */
  lemma SoundAndComplete(render: Render, document: Json, capabilities: Members)
    requires document.Object?
    ensures var accepted := Check(render, document, capabilities, Document, []).Ok?;
            var admitted := Admits(false, render, document, capabilities, Document);
            && (accepted ==> admitted)
            && (Faultless(render, document, capabilities, Document) ==> (accepted <==> admitted))
  {
    hide Admits, Check, Faultless;
    CheckExactly(render, document, capabilities, Document, []);
    if Admits(true, render, document, capabilities, Document) {
      StrictIsMore(render, document, capabilities, Document);
    }
    if Faultless(render, document, capabilities, Document) && Admits(false, render, document, capabilities, Document) {
      FaultlessIsStrict(render, document, capabilities, Document);
    }
  }

  // ---- Where a fault is -------------------------------------------------------------------------------

  // A node of the document, or a selector an object of the document leaves unset.
  ghost predicate Place(root: Json, path: seq<Segment>)
  {
    IsNode(root, path) || (IsMember(root, path) && path[|path| - 1].name in SELECTORS)
  }

  // The fault names a place at or below the node the walk had reached, as deep as its progress says.
  ghost predicate Located(root: Json, at: seq<Segment>, fault: Fault)
  {
    exists path :: LocatedAt(root, at, fault, path)
  }

  ghost predicate LocatedAt(root: Json, at: seq<Segment>, fault: Fault, path: seq<Segment>)
  {
    at <= path && fault.invalid.at == Text(path) && Place(root, path) && Reasoned(root, path, fault.invalid.reason)
    && fault.progress == 2 * |path| + (if AtSelector(fault.invalid.reason) then 0 else 1)
  }

  // The reason given is true of the place: the selector there is not set, or is set to that, or the member there has
  // that name, or the value there is that.
  ghost predicate Reasoned(root: Json, path: seq<Segment>, reason: Reason)
  {
    match reason
    case NoneSupported(selector) => path != [] && path[|path| - 1] == Name(selector) && UnsetAt(root, path)
    case NotAKey(value, selector) =>
      path != [] && path[|path| - 1] == Name(selector) && NodeAt(root, path) == Some(value) && !value.Null?
    case NoSuchMember(name) => path != [] && path[|path| - 1] == Name(name) && IsNode(root, path)
    case NoSuchValue(value) => NodeAt(root, path) == Some(value)
  }

  // Whether a reason is of a selector, which stands short of one as deep among members.
  predicate AtSelector(reason: Reason)
  {
    reason.NoneSupported? || reason.NotAKey?
  }

  ghost predicate UnsetAt(root: Json, path: seq<Segment>)
  {
    IsMember(root, path) && Unset(NodeAt(root, path[..|path| - 1]).value.members, path[|path| - 1].name)
  }

  lemma HereIsLocated(root: Json, at: seq<Segment>, reason: Reason)
    requires NodeAt(root, at).Some? && Reasoned(root, at, reason) && !AtSelector(reason)
    ensures Located(root, at, Outside(at, reason))
  {
    hide Text;
    assert LocatedAt(root, at, Outside(at, reason), at);
  }

  lemma SelectorIsLocated(root: Json, at: seq<Segment>, selector: string, reason: Reason)
    requires NodeAt(root, at).Some? && NodeAt(root, at).value.Object? && selector in SELECTORS
    requires var members := NodeAt(root, at).value.members;
             if Unset(members, selector) then reason == NoneSupported(selector)
             else reason == NotAKey(members[selector], selector)
    ensures Located(root, at, OutsideAt(at, selector, reason))
  {
    hide Text;
    var path := at + [Name(selector)];
    NodeBelow(root, at, Name(selector));
    assert path[..|at|] == at;
    assert LocatedAt(root, at, OutsideAt(at, selector, reason), path);
  }

  lemma LocatedBelow(root: Json, at: seq<Segment>, s: Segment, fault: Fault)
    requires Located(root, at + [s], fault)
    ensures Located(root, at, fault)
  {
    hide Place, Text, Reasoned;
    var path :| LocatedAt(root, at + [s], fault, path);
    assert LocatedAt(root, at, fault, path);
  }

  lemma {:induction false} ResolveLocated(root: Json, render: Render, document: Members, constraints: Members,
                                          consumed: seq<string>, at: seq<Segment>)
    requires NodeAt(root, at) == Some(Object(document))
    ensures var r := Resolve(render, document, constraints, consumed, at); r.Err? ==> Located(root, at, r.error)
    decreases Left(consumed), 1, 0
  {
    hide Located, Text, NodeAt, T.Sorted;
    var next := NextSelector(constraints, consumed);
    if next.Some? {
      var selector := next.value;
      LeftFalls(consumed, selector);
      var keyed, base := constraints[selector].members, constraints - {selector};
      if Unset(document, selector) {
        SelectorIsLocated(root, at, selector, NoneSupported(selector));
        KeysLocated(root, render, document, base, keyed, T.Sorted(keyed.Keys), consumed + [selector], at);
      } else {
        SelectorIsLocated(root, at, selector, NotAKey(document[selector], selector));
        var key := KeyOf(render, document[selector]);
        if key in keyed && keyed[key].Object? {
          ResolveLocated(root, render, document, Merged(base, keyed[key].members), consumed + [selector], at);
        }
      }
    }
  }

  lemma {:induction false} KeysLocated(root: Json, render: Render, document: Members, base: Members, keyed: Members,
                                       keys: seq<string>, consumed: seq<string>, at: seq<Segment>)
    requires NodeAt(root, at) == Some(Object(document)) && forall k | k in keys :: k in keyed
    ensures var r := ResolveKeys(render, document, base, keyed, keys, consumed, at);
            r.Err? ==> Located(root, at, r.error)
    decreases Left(consumed), 2, |keys|
  {
    hide Located, Text, NodeAt;
    if keys != [] {
      if keyed[keys[0]].Object? {
        ResolveLocated(root, render, document, Merged(base, keyed[keys[0]].members), consumed, at);
      }
      KeysLocated(root, render, document, base, keyed, keys[1..], consumed, at);
    }
  }

  /** Every fault names a real place: a node of the document, or a selector left unset on an object of it. */
  lemma {:induction false} CheckLocated(root: Json, render: Render, document: Json, constraints: Members,
                                        context: Context, at: seq<Segment>)
    requires document.Object? && NodeAt(root, at) == Some(document)
    ensures var r := Check(render, document, constraints, context, at); r.Err? ==> Located(root, at, r.error)
    decreases document, 4, 0
  {
    hide Located, Text, NodeAt, Resolve, TryAll;
    ResolveLocated(root, render, document.members, constraints, [], at);
    var rs := Resolve(render, document.members, constraints, [], at);
    if rs.Ok? {
      AllLocated(root, render, document, rs.value, context, at);
    }
  }

  lemma {:induction false} AllLocated(root: Json, render: Render, document: Json, rs: seq<Resolution>,
                                      context: Context, at: seq<Segment>)
    requires document.Object? && NodeAt(root, at) == Some(document)
    ensures var best := TryAll(render, document, rs, context, at); best.Some? ==> Located(root, at, best.value)
    decreases document, 3, |rs|
  {
    hide Located, Text, NodeAt, T.Sorted, CheckNames;
    if rs != [] {
      AllLocated(root, render, document, rs[..|rs| - 1], context, at);
      NamesLocated(root, render, document, T.Sorted(document.members.Keys), rs[|rs| - 1], context, at);
    }
  }

  lemma {:induction false} NamesLocated(root: Json, render: Render, document: Json, names: seq<string>,
                                        resolution: Resolution, context: Context, at: seq<Segment>)
    requires document.Object? && NodeAt(root, at) == Some(document)
    requires forall name | name in names :: name in document.members
    ensures var r := CheckNames(render, document, names, resolution, context, at);
            r.Err? ==> Located(root, at, r.error)
    decreases document, 1, |names|
  {
    hide Located, Text, CheckValue;
    if names != [] {
      var name := names[0];
      var value, here := document.members[name], at + [Name(name)];
      NodeBelow(root, at, Name(name));
      hide NodeAt;
      HereIsLocated(root, here, NoSuchMember(name));
      if name in resolution.constraints {
        ValueLocated(root, render, value, resolution.constraints[name], context.Child(name), here);
      } else {
        ValueLocated(root, render, value, Object(map[]), context.Child(name), here);
      }
      var outcome := CheckMember(render, name, value, resolution, context, KindOf(document.members), at);
      if outcome.Err? {
        LocatedBelow(root, at, Name(name), outcome.error);
      }
      NamesLocated(root, render, document, names[1..], resolution, context, at);
    }
  }

  lemma {:induction false} ValueLocated(root: Json, render: Render, value: Json, constraint: Json, context: Context,
                                        at: seq<Segment>)
    requires NodeAt(root, at) == Some(value)
    ensures var r := CheckValue(render, value, constraint, context, at); r.Err? ==> Located(root, at, r.error)
    decreases value, 5, 0
  {
    hide Located, Text, NodeAt, CheckItems, Check;
    HereIsLocated(root, at, NoSuchValue(value));
    if constraint == Bool(true) {
    } else if value.Array? {
      ItemsLocated(root, render, value, 0, constraint, context, at);
    } else if value.Object? && constraint.Object? {
      CheckLocated(root, render, value, constraint.members, context, at);
    }
  }

  lemma {:induction false} ItemsLocated(root: Json, render: Render, value: Json, from: nat, constraint: Json,
                                        context: Context, at: seq<Segment>)
    requires value.Array? && from <= |value.items| && NodeAt(root, at) == Some(value)
    ensures var r := CheckItems(render, value, from, constraint, context, at); r.Err? ==> Located(root, at, r.error)
    decreases value, 4, |value.items| - from
  {
    hide Located, Text, CheckValue;
    if from < |value.items| {
      NodeBelow(root, at, Index(from));
      ValueLocated(root, render, value.items[from], constraint, context, at + [Index(from)]);
      var outcome := CheckValue(render, value.items[from], constraint, context, at + [Index(from)]);
      if outcome.Err? {
        LocatedBelow(root, at, Index(from), outcome.error);
      }
      ItemsLocated(root, render, value, from + 1, constraint, context, at);
    }
  }

  // So the string a refusal carries can be read back into the one place it names.
  lemma RefusalNamesAPlace(render: Render, document: Json, capabilities: Members)
    requires document.Object? && Check(render, document, capabilities, Document, []).Err?
    ensures var at := Check(render, document, capabilities, Document, []).error.invalid.at;
            Read(at).Some? && Place(document, Read(at).value)
    ensures var invalid := Check(render, document, capabilities, Document, []).error.invalid;
            Reasoned(document, Read(invalid.at).value, invalid.reason)
  {
    hide Check, Text, Read, Place, Reasoned;
    var fault := Check(render, document, capabilities, Document, []).error;
    CheckLocated(document, render, document, capabilities, Document, []);
    var path :| LocatedAt(document, [], fault, path);
    ReadsBack(path);
  }

  // ---- Which fault is reported -------------------------------------------------------------------------

  /** Of the faults its resolutions meet, an object reports the first of those that got furthest. */
  lemma {:induction false} FurthestFirst(render: Render, document: Json, rs: seq<Resolution>, context: Context,
                                         at: seq<Segment>) returns (i: nat)
    requires document.Object? && rs != []
    requires TryAll(render, document, rs, context, at).Some?
    ensures i < |rs| && CheckMembers(render, document, rs[i], context, at) ==
                        Err(TryAll(render, document, rs, context, at).value)
    ensures forall j | 0 <= j < |rs| :: Behind(render, document, rs, context, at, j, i)
    decreases |rs|
  {
    hide CheckMembers;
    var last := |rs| - 1;
    var before := rs[..last];
    var latest := CheckMembers(render, document, rs[last], context, at);
    i := last;
    if before != [] {
      var k := FurthestFirst(render, document, before, context, at);
      var best := CheckMembers(render, document, rs[k], context, at);
      assert before[k] == rs[k];
      if latest.error.progress <= best.error.progress {
        i := k;
      }
      forall j | 0 <= j < |rs| ensures Behind(render, document, rs, context, at, j, i) {
        if j < last {
          assert before[j] == rs[j] && Behind(render, document, before, context, at, j, k);
        }
      }
    }
  }

  // The `j`th resolution faults too, and did not get as far as the `i`th, or no further where it is later.
  ghost predicate Behind(render: Render, document: Json, rs: seq<Resolution>, context: Context, at: seq<Segment>,
                         j: nat, i: nat)
    requires document.Object? && j < |rs| && i < |rs|
  {
    var mine := CheckMembers(render, document, rs[j], context, at);
    var best := CheckMembers(render, document, rs[i], context, at);
    mine.Err? && best.Err? && mine.error.progress <= best.error.progress
    && (j < i ==> mine.error.progress < best.error.progress)
  }
}
