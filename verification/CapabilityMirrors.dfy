/** Which mirrors the checker is complete for, said of the mirror alone: those none of whose objects has a way of
    setting its selectors that is within it and yet meets a key that faults. */
module CapabilityMirrors {
  import opened Wrappers
  import opened Json
  import opened Path
  import opened Capabilities
  import opened CapabilityTheorems

  // The key a selector is resolved by, where it is.
  function KeyFor(render: Render, document: Members, choice: map<string, string>, selector: string): Option<string>
  {
    if !Unset(document, selector) then Some(KeyOf(render, document[selector]))
    else if selector in choice then Some(choice[selector])
    else None
  }

  lemma {:induction false} SettleConsumes(render: Render, document: Members, constraints: Members,
                                          consumed: seq<string>, choice: map<string, string>)
    requires Settle(render, document, constraints, consumed, choice).Some?
    ensures consumed <= Settle(render, document, constraints, consumed, choice).value.consumed
    decreases Left(consumed)
  {
    var next := NextSelector(constraints, consumed);
    if next.Some? {
      var selector := next.value;
      LeftFalls(consumed, selector);
      var key := KeyFor(render, document, choice, selector).value;
      var under := constraints[selector].members[key].members;
      SettleConsumes(render, document, Merged(constraints - {selector}, under), consumed + [selector], choice);
    }
  }

  // Settling looks at nothing but the keys of the selectors it consumes.
  lemma {:induction false} SettleSame(render: Render, a: Members, x: map<string, string>, b: Members,
                                      y: map<string, string>, constraints: Members, consumed: seq<string>)
    requires Settle(render, a, constraints, consumed, x).Some?
    requires var r := Settle(render, a, constraints, consumed, x).value;
             forall n | n in r.consumed && n !in consumed :: KeyFor(render, a, x, n) == KeyFor(render, b, y, n)
    ensures Settle(render, b, constraints, consumed, y) == Settle(render, a, constraints, consumed, x)
    decreases Left(consumed)
  {
    var next := NextSelector(constraints, consumed);
    if next.Some? {
      var selector := next.value;
      LeftFalls(consumed, selector);
      var key := KeyFor(render, a, x, selector).value;
      var under := Merged(constraints - {selector}, constraints[selector].members[key].members);
      SettleConsumes(render, a, under, consumed + [selector], x);
      assert selector in (consumed + [selector]);
      assert KeyFor(render, b, y, selector) == Some(key);
      SettleSame(render, a, x, b, y, under, consumed + [selector]);
    }
  }

  // So does what resolves, of the selectors a document sets.
  lemma {:induction false} ResolvableSame(render: Render, a: Members, b: Members, constraints: Members,
                                          consumed: seq<string>)
    requires forall n | n in SELECTORS :: KeyFor(render, a, map[], n) == KeyFor(render, b, map[], n)
    ensures Resolvable(render, a, constraints, consumed) <==> Resolvable(render, b, constraints, consumed)
    decreases Left(consumed)
  {
    var next := NextSelector(constraints, consumed);
    if next.Some? {
      var selector := next.value;
      LeftFalls(consumed, selector);
      assert KeyFor(render, a, map[], selector) == KeyFor(render, b, map[], selector);
      var keyed, base := constraints[selector].members, constraints - {selector};
      forall k | k in keyed && keyed[k].Object?
        ensures Resolvable(render, a, Merged(base, keyed[k].members), consumed + [selector]) <==>
                Resolvable(render, b, Merged(base, keyed[k].members), consumed + [selector])
      {
        ResolvableSame(render, a, b, Merged(base, keyed[k].members), consumed + [selector]);
      }
    }
  }

  // With every selector met set, settling is resolving.
  lemma {:induction false} SetIsResolvable(render: Render, document: Members, constraints: Members,
                                           consumed: seq<string>, choice: map<string, string>)
    requires Settle(render, document, constraints, consumed, choice).Some?
    requires var r := Settle(render, document, constraints, consumed, choice).value;
             forall n | n in r.consumed && n !in consumed :: !Unset(document, n)
    ensures Resolvable(render, document, constraints, consumed)
    decreases Left(consumed)
  {
    var next := NextSelector(constraints, consumed);
    if next.Some? {
      var selector := next.value;
      LeftFalls(consumed, selector);
      var key := KeyFor(render, document, choice, selector).value;
      var under := Merged(constraints - {selector}, constraints[selector].members[key].members);
      SettleConsumes(render, document, under, consumed + [selector], choice);
      assert selector in (consumed + [selector]);
      SetIsResolvable(render, document, under, consumed + [selector], choice);
    }
  }

  // ---- The objects of a mirror -------------------------------------------------------------------------

  // A document that sets some selectors, each to the text of a key.
  function Setting(keys: map<string, string>): Members
  {
    map n | n in keys :: String(keys[n])
  }

  // One turn down a mirror: a setting of an object's selectors, and a member of what it then allows.
  datatype Turn = Turn(keys: map<string, string>, name: string)

  // What an object is held to with its selectors set so.
  function Under(render: Render, constraints: Members, keys: map<string, string>): Option<Resolution>
  {
    Settle(render, Setting(keys), constraints, [], map[])
  }

  predicate Turns(render: Render, constraints: Members, turn: Turn)
  {
    var r := Under(render, constraints, turn.keys);
    && r.Some? && turn.keys.Keys == (set n | n in r.value.consumed)
    && turn.name in r.value.constraints && turn.name !in r.value.consumed && r.value.constraints[turn.name].Object?
  }

  // The object constraints some turns lead to.
  function Descend(render: Render, constraints: Members, context: Context, trail: seq<Turn>): Option<(Members, Context)>
    decreases |trail|
  {
    if trail == [] then Some((constraints, context))
    else if !Turns(render, constraints, trail[0]) then None
    else
      var inner := Under(render, constraints, trail[0].keys).value.constraints[trail[0].name].members;
      Descend(render, inner, context.Child(trail[0].name), trail[1..])
  }

  predicate OnlySelectors(members: Members)
  {
    forall n | n in members :: n in SELECTORS
  }

  // No way of setting its selectors alone is within the object and meets a key that faults.
  ghost predicate Steady(render: Render, constraints: Members, context: Context)
  {
    forall s: Members | OnlySelectors(s) ::
      Admits(false, render, Object(s), constraints, context) ==> Resolvable(render, s, constraints, [])
  }

  ghost predicate SteadyThroughout(render: Render, constraints: Members, context: Context)
  {
    forall trail :: SteadyAt(render, constraints, context, trail)
  }

  ghost predicate SteadyAt(render: Render, constraints: Members, context: Context, trail: seq<Turn>)
  {
    var there := Descend(render, constraints, context, trail);
    there.Some? ==> Steady(render, there.value.0, there.value.1)
  }

  // ---- Down one turn -----------------------------------------------------------------------------------

  // A document that takes the turn and nothing else.
  function Wrapped(turn: Turn, inner: Json): Json
  {
    Object(Setting(turn.keys)[turn.name := inner])
  }

  lemma WrappedSettles(render: Render, constraints: Members, turn: Turn, inner: Json, choice: map<string, string>)
    requires Turns(render, constraints, turn)
    ensures Settle(render, Wrapped(turn, inner).members, constraints, [], choice) ==
            Under(render, constraints, turn.keys)
    ensures Resolvable(render, Wrapped(turn, inner).members, constraints, [])
  {
    var document, r := Wrapped(turn, inner).members, Under(render, constraints, turn.keys).value;
    forall n | n in r.consumed
      ensures KeyFor(render, Setting(turn.keys), map[], n) == KeyFor(render, document, choice, n) && !Unset(document, n)
    {
      assert n in turn.keys && n != turn.name;
    }
    SettleSame(render, Setting(turn.keys), map[], document, choice, constraints, []);
    SetIsResolvable(render, document, constraints, [], choice);
  }

  // It is within the mirror exactly where what it wraps is within what the turn leads to.
  lemma WrappedAdmits(strict: bool, render: Render, constraints: Members, context: Context, turn: Turn, inner: Json)
    requires Turns(render, constraints, turn) && inner.Object?
    ensures var below := Under(render, constraints, turn.keys).value.constraints[turn.name].members;
            Admits(strict, render, Wrapped(turn, inner), constraints, context) <==>
            Admits(strict, render, inner, below, context.Child(turn.name))
  {
    var document, r := Wrapped(turn, inner), Under(render, constraints, turn.keys).value;
    forall choice ensures Settle(render, document.members, constraints, [], choice) == Some(r) {
      WrappedSettles(render, constraints, turn, inner, choice);
    }
    WrappedSettles(render, constraints, turn, inner, map[]);
    assert SettlesOn(render, document.members, constraints, map[], r);
    hide Settle, Resolvable, Under, Required;
    WrappedMembers(strict, render, context, turn, inner, r);
  }

  lemma WrappedMembers(strict: bool, render: Render, context: Context, turn: Turn, inner: Json, r: Resolution)
    requires turn.keys.Keys == (set n | n in r.consumed) && inner.Object?
    requires turn.name in r.constraints && turn.name !in r.consumed && r.constraints[turn.name].Object?
    ensures AdmitsMembers(strict, render, Wrapped(turn, inner), r, context) <==>
            Admits(strict, render, inner, r.constraints[turn.name].members, context.Child(turn.name))
  {
    hide Admits, Required;
    var document := Wrapped(turn, inner).members;
    assert forall n | n in document && Checked(document, n, r) :: n == turn.name;
    assert Checked(document, turn.name, r);
    assert AdmitsMember(strict, render, turn.name, inner, r, context, KindOf(document)) <==>
           AdmitsValue(strict, render, inner, r.constraints[turn.name], context.Child(turn.name));
  }

  // A document within the mirror all along the way down and out at the end of it.
  lemma {:induction false} Deep(render: Render, constraints: Members, context: Context, trail: seq<Turn>, inner: Json)
    returns (document: Json)
    requires inner.Object? && Descend(render, constraints, context, trail).Some?
    ensures document.Object?
    ensures forall strict ::
              var (below, beneath) := Descend(render, constraints, context, trail).value;
              Admits(strict, render, document, constraints, context) <==> Admits(strict, render, inner, below, beneath)
    decreases |trail|
  {
    hide Admits;
    if trail == [] {
      document := inner;
    } else {
      var turn := trail[0];
      var below := Under(render, constraints, turn.keys).value.constraints[turn.name].members;
      var next := Deep(render, below, context.Child(turn.name), trail[1..], inner);
      document := Wrapped(turn, next);
      forall strict ensures Admits(strict, render, document, constraints, context) <==>
                            Admits(strict, render, next, below, context.Child(turn.name))
      {
        WrappedAdmits(strict, render, constraints, context, turn, next);
      }
    }
  }

  // ---- Steady throughout, and so complete --------------------------------------------------------------

  // Every selector consumed had a key.
  lemma {:induction false} ConsumedIsKeyed(render: Render, document: Members, constraints: Members,
                                           consumed: seq<string>, choice: map<string, string>)
    requires Settle(render, document, constraints, consumed, choice).Some?
    ensures forall n | n in Settle(render, document, constraints, consumed, choice).value.consumed ::
              n in consumed || KeyFor(render, document, choice, n).Some?
    decreases Left(consumed)
  {
    var next := NextSelector(constraints, consumed);
    if next.Some? {
      var selector := next.value;
      LeftFalls(consumed, selector);
      var key := KeyFor(render, document, choice, selector).value;
      var under := Merged(constraints - {selector}, constraints[selector].members[key].members);
      ConsumedIsKeyed(render, document, under, consumed + [selector], choice);
    }
  }

  // Each member an object constrains with an object is a turn of its mirror.
  lemma MemberIsATurn(render: Render, document: Members, constraints: Members, choice: map<string, string>,
                      r: Resolution, name: string) returns (turn: Turn)
    requires SettlesOn(render, document, constraints, choice, r)
    requires name in r.constraints && name !in r.consumed && r.constraints[name].Object?
    ensures turn.name == name && Turns(render, constraints, turn)
    ensures Under(render, constraints, turn.keys) == Some(r)
  {
    hide Settle;
    ConsumedIsKeyed(render, document, constraints, [], choice);
    var keys := map n | n in r.consumed :: KeyFor(render, document, choice, n).value;
    forall n | n in r.consumed
      ensures KeyFor(render, document, choice, n) == KeyFor(render, Setting(keys), map[], n)
    {
      assert n in keys;
    }
    SettleSame(render, document, choice, Setting(keys), map[], constraints, []);
    turn := Turn(keys, name);
  }

  lemma SteadyBelow(render: Render, constraints: Members, context: Context, turn: Turn)
    requires SteadyThroughout(render, constraints, context) && Turns(render, constraints, turn)
    ensures SteadyThroughout(render, Under(render, constraints, turn.keys).value.constraints[turn.name].members,
                             context.Child(turn.name))
  {
    hide Steady, Under;
    var below := Under(render, constraints, turn.keys).value.constraints[turn.name].members;
    forall trail: seq<Turn> ensures SteadyAt(render, below, context.Child(turn.name), trail) {
      assert ([turn] + trail)[1..] == trail;
      assert SteadyAt(render, constraints, context, [turn] + trail);
    }
  }

  // A mirror that says nothing has no selector to fault.
  lemma EmptyIsSteady(render: Render, context: Context)
    ensures SteadyThroughout(render, map[], context)
  {
    forall trail: seq<Turn> ensures SteadyAt(render, map[], context, trail) {
      if trail != [] {
        assert Under(render, map[], trail[0].keys) == Some(Resolution(map[], []));
      }
    }
  }

  // The selectors a document sets, alone.
  function SelectorsOf(document: Members): Members
  {
    map n | n in document && n in SELECTORS :: document[n]
  }

  // What settles a document settles its selectors, and they are admitted where it is.
  lemma SteadyIsResolvable(render: Render, document: Json, constraints: Members, context: Context)
    requires document.Object? && Steady(render, constraints, context)
    requires Admits(false, render, document, constraints, context)
    ensures Resolvable(render, document.members, constraints, [])
  {
    var whole, part := document.members, SelectorsOf(document.members);
    var choice, r :| SettlesOn(render, whole, constraints, choice, r)
                     && AdmitsMembers(false, render, document, r, context);
    ConsumedAreSelectors(render, whole, constraints, [], choice);
    SettleSame(render, whole, choice, part, choice, constraints, []);
    ResolvableSame(render, whole, part, constraints, []);
    hide Settle, Resolvable, AdmitsMember;
    assert KindOf(part) == KindOf(whole);
    assert AdmitsMembers(false, render, Object(part), r, context);
    assert SettlesOn(render, part, constraints, choice, r);
    assert Admits(false, render, Object(part), constraints, context);
  }

  lemma {:induction false} ConsumedAreSelectors(render: Render, document: Members, constraints: Members,
                                                consumed: seq<string>, choice: map<string, string>)
    requires Settle(render, document, constraints, consumed, choice).Some?
    ensures forall n | n in Settle(render, document, constraints, consumed, choice).value.consumed ::
              n in consumed || n in SELECTORS
    decreases Left(consumed)
  {
    var next := NextSelector(constraints, consumed);
    if next.Some? {
      var selector := next.value;
      LeftFalls(consumed, selector);
      var key := KeyFor(render, document, choice, selector).value;
      var under := Merged(constraints - {selector}, constraints[selector].members[key].members);
      ConsumedAreSelectors(render, document, under, consumed + [selector], choice);
    }
  }

  lemma {:induction false} SteadyIsStrict(render: Render, document: Json, constraints: Members, context: Context)
    requires document.Object? && SteadyThroughout(render, constraints, context)
    requires Admits(false, render, document, constraints, context)
    ensures Admits(true, render, document, constraints, context)
    decreases document, 3
  {
    hide Settle, Resolvable, Steady, SteadyThroughout, Required, Under;
    SteadyHere(render, constraints, context);
    SteadyIsResolvable(render, document, constraints, context);
    var choice, r :| SettlesOn(render, document.members, constraints, choice, r)
                     && AdmitsMembers(false, render, document, r, context);
    forall name | name in document.members && Checked(document.members, name, r)
      ensures AdmitsMember(true, render, name, document.members[name], r, context, KindOf(document.members))
    {
      var value := document.members[name];
      assert AdmitsMember(false, render, name, value, r, context, KindOf(document.members));
      if name in r.constraints {
        if r.constraints[name].Object? {
          var turn := MemberIsATurn(render, document.members, constraints, choice, r, name);
          SteadyBelow(render, constraints, context, turn);
        }
        SteadyValueIsStrict(render, value, r.constraints[name], context.Child(name));
      } else if HoldsObjects(value) {
        EmptyIsSteady(render, context.Child(name));
        SteadyValueIsStrict(render, value, Object(map[]), context.Child(name));
      }
    }
    assert AdmitsMembers(true, render, document, r, context);
  }

  lemma {:induction false} SteadyValueIsStrict(render: Render, value: Json, constraint: Json, context: Context)
    requires constraint.Object? ==> SteadyThroughout(render, constraint.members, context)
    requires AdmitsValue(false, render, value, constraint, context)
    ensures AdmitsValue(true, render, value, constraint, context)
    decreases value, 4
  {
    hide SteadyThroughout;
    if constraint == Bool(true) {
    } else if value.Array? {
      forall i | 0 <= i < |value.items| ensures AdmitsValue(true, render, value.items[i], constraint, context) {
        assert AdmitsValue(false, render, value.items[i], constraint, context);
        SteadyValueIsStrict(render, value.items[i], constraint, context);
      }
    } else if value.Object? && constraint.Object? {
      SteadyIsStrict(render, value, constraint.members, context);
    }
  }

  lemma SteadyHere(render: Render, constraints: Members, context: Context)
    requires SteadyThroughout(render, constraints, context)
    ensures Steady(render, constraints, context)
  {
    assert SteadyAt(render, constraints, context, []);
  }

  // ---- Which mirrors the checker is complete for -------------------------------------------------------

  // The checker's answer on this document is what is asked of it.
  ghost predicate Agrees(render: Render, capabilities: Members, document: Json)
    requires document.Object?
  {
    Check(render, document, capabilities, Document, []).Ok? <==> Admits(false, render, document, capabilities, Document)
  }

  ghost predicate Complete(render: Render, capabilities: Members)
  {
    forall document: Json | document.Object? :: Agrees(render, capabilities, document)
  }

  // An object that is not steady, wherever it is in the mirror, has a document wrongly refused.
  lemma UnsteadyIsIncomplete(render: Render, capabilities: Members, trail: seq<Turn>) returns (document: Json)
    requires !SteadyAt(render, capabilities, Document, trail)
    ensures document.Object? && !Agrees(render, capabilities, document)
  {
    hide Resolvable, Settle, Check, AdmitsMembers;
    var (below, beneath) := Descend(render, capabilities, Document, trail).value;
    var s: Members :| OnlySelectors(s) && Admits(false, render, Object(s), below, beneath)
                      && !Resolvable(render, s, below, []);
    assert !Admits(true, render, Object(s), below, beneath);
    hide Admits;
    document := Deep(render, capabilities, Document, trail, Object(s));
    assert Admits(false, render, document, capabilities, Document);
    assert !Admits(true, render, document, capabilities, Document);
    CheckExactly(render, document, capabilities, Document, []);
  }

  /** The checker accepts every document that is within a mirror and no other, exactly where no object of the
      mirror can have its selectors set, and nothing else, in a way that is within it and meets a key that faults. */
  lemma CompleteExactly(render: Render, capabilities: Members)
    ensures Complete(render, capabilities) <==> SteadyThroughout(render, capabilities, Document)
  {
    hide Admits, Check, SteadyAt;
    if SteadyThroughout(render, capabilities, Document) {
      forall document: Json | document.Object? ensures Agrees(render, capabilities, document) {
        CheckExactly(render, document, capabilities, Document, []);
        if Admits(true, render, document, capabilities, Document) {
          StrictIsMore(render, document, capabilities, Document);
        }
        if Admits(false, render, document, capabilities, Document) {
          SteadyIsStrict(render, document, capabilities, Document);
        }
      }
    } else {
      var trail :| !SteadyAt(render, capabilities, Document, trail);
      var document := UnsteadyIsIncomplete(render, capabilities, trail);
    }
  }
}
