/** Whether an object of a mirror is steady, decided from the mirror: by the finitely many ways of setting its
    selectors to keys it has, or to a value that is none of them. */
module CapabilitySettings {
  import opened Wrappers
  import opened Json
  import opened Capabilities
  import opened CapabilityTheorems
  import opened CapabilityMirrors

  // ---- The settings ------------------------------------------------------------------------------------

  // The kinds under which some selector is required, and so passes wherever it is.
  const KINDS: set<string> := {"wired-dynamic", "wired-static", "enterprise"}

  lemma RequiredByKind(context: Context, kind: Option<string>, selector: string)
    requires selector in SELECTORS && Required(context, kind, selector)
    ensures kind.Some? && kind.value in KINDS
  {
  }

  // Every key met in resolving an object's selectors, whichever are chosen.
  function Words(constraints: Members, consumed: seq<string>): set<string>
    decreases Left(consumed)
  {
    match NextSelector(constraints, consumed)
    case None => {}
    case Some(selector) =>
      LeftFalls(consumed, selector);
      var keyed, base := constraints[selector].members, constraints - {selector};
      keyed.Keys + set k, w | k in keyed && keyed[k].Object? &&
                              w in Words(Merged(base, keyed[k].members), consumed + [selector]) :: w
  }

  // Lists of nothing, one inside the other. Whatever a list is held to it passes if it holds nothing.
  function Nest(n: nat): Json
  {
    if n == 0 then Array([]) else Array([Nest(n - 1)])
  }

  predicate IsNest(value: Json)
  {
    value.Array? && forall i | 0 <= i < |value.items| :: IsNest(value.items[i])
  }

  // Such lists are written apart.
  ghost predicate Apart(render: Render)
  {
    forall i: nat, j: nat :: render(Nest(i)) == render(Nest(j)) ==> i == j
  }

  // The least of them from the `n`th on that is written as none of these words.
  function Odd(render: Render, words: set<string>, n: nat): (r: Json)
    requires Apart(render)
    ensures IsNest(r) && KeyOf(render, r) !in words
    decreases words - Before(render, n)
  {
    NestIsNest(n);
    if KeyOf(render, Nest(n)) !in words then Nest(n)
    else
      assert KeyOf(render, Nest(n)) in words - Before(render, n) && Before(render, n) < Before(render, n + 1);
      Odd(render, words, n + 1)
  }

  ghost function Before(render: Render, n: nat): set<string>
  {
    set i: nat | i < n :: render(Nest(i))
  }

  lemma {:induction false} NestIsNest(n: nat)
    ensures IsNest(Nest(n))
  {
    if n > 0 {
      NestIsNest(n - 1);
    }
  }

  // What a selector can be set to that could matter: nothing, a word the object has, or none of them.
  function Options(render: Render, constraints: Members): set<Option<Json>>
    requires Apart(render)
  {
    var words := Words(constraints, []) + KINDS;
    {None, Some(Odd(render, words, 0))} + set w | w in words :: Some(String(w))
  }

  function Put(members: Members, name: string, value: Option<Json>): Members
  {
    if value.Some? then members[name := value.value] else members
  }

  function Selected(kind: Option<Json>, interface: Option<Json>, band: Option<Json>): Members
  {
    Put(Put(Put(map[], "kind", kind), "interface", interface), "band", band)
  }

  // ---- Whether a setting is within the object ----------------------------------------------------------

  predicate Passes(name: string, value: Json, r: Resolution, context: Context, kind: Option<string>)
  {
    if name in r.constraints then
      value.Array? || r.constraints[name] == Bool(true)
      || (r.constraints[name].Array? && value in r.constraints[name].items)
    else Required(context, kind, name)
  }

  predicate AllPass(setting: Members, r: Resolution, context: Context)
  {
    forall n | n in setting && Checked(setting, n, r) :: Passes(n, setting[n], r, context, KindOf(setting))
  }

  predicate Within(render: Render, setting: Members, constraints: Members, consumed: seq<string>, context: Context)
    decreases Left(consumed)
  {
    match NextSelector(constraints, consumed)
    case None => AllPass(setting, Resolution(constraints, consumed), context)
    case Some(selector) =>
      LeftFalls(consumed, selector);
      var keyed, base := constraints[selector].members, constraints - {selector};
      if Unset(setting, selector) then
        exists k | k in keyed && keyed[k].Object? ::
          Within(render, setting, Merged(base, keyed[k].members), consumed + [selector], context)
      else
        var key := KeyOf(render, setting[selector]);
        && key in keyed && keyed[key].Object?
        && Within(render, setting, Merged(base, keyed[key].members), consumed + [selector], context)
  }

  /** The object is steady so far as its own keys can tell: a finite check, of nothing but the mirror. */
  predicate SteadyByKeys(render: Render, constraints: Members, context: Context)
    requires Apart(render)
  {
    var options := Options(render, constraints);
    forall kind, interface, band | kind in options && interface in options && band in options ::
      StillResolves(render, Selected(kind, interface, band), constraints, context)
  }

  predicate StillResolves(render: Render, setting: Members, constraints: Members, context: Context)
  {
    Within(render, setting, constraints, [], context) ==> Resolvable(render, setting, constraints, [])
  }

  // ---- Which is to be admitted -------------------------------------------------------------------------

  predicate Plain(setting: Members)
  {
    forall n | n in setting :: n in SELECTORS && (setting[n].String? || IsNest(setting[n]))
  }

  lemma {:induction false} NestPasses(render: Render, value: Json, constraint: Json, context: Context)
    requires IsNest(value)
    ensures AdmitsValue(false, render, value, constraint, context) && !HoldsObjects(value)
  {
    assert forall i | 0 <= i < |value.items| :: IsNest(value.items[i]);
    forall i | 0 <= i < |value.items| ensures AdmitsValue(false, render, value.items[i], constraint, context) {
      NestPasses(render, value.items[i], constraint, context);
    }
  }

  lemma PassesExactly(render: Render, setting: Members, r: Resolution, context: Context)
    requires Plain(setting)
    ensures AllPass(setting, r, context) <==> AdmitsMembers(false, render, Object(setting), r, context)
  {
    hide Required;
    forall n | n in setting && Checked(setting, n, r)
      ensures Passes(n, setting[n], r, context, KindOf(setting)) <==>
              AdmitsMember(false, render, n, setting[n], r, context, KindOf(setting))
    {
      var value := setting[n];
      if IsNest(value) {
        NestPasses(render, value, if n in r.constraints then r.constraints[n] else Null, context.Child(n));
      }
    }
  }

  lemma {:induction false} WithinSettles(render: Render, setting: Members, constraints: Members,
                                         consumed: seq<string>, context: Context) returns (choice: map<string, string>)
    requires Within(render, setting, constraints, consumed, context)
    ensures Settle(render, setting, constraints, consumed, choice).Some?
    ensures AllPass(setting, Settle(render, setting, constraints, consumed, choice).value, context)
    decreases Left(consumed)
  {
    hide AllPass;
    choice := map[];
    var next := NextSelector(constraints, consumed);
    if next.Some? {
      var selector := next.value;
      LeftFalls(consumed, selector);
      var keyed, base := constraints[selector].members, constraints - {selector};
      if Unset(setting, selector) {
        var k :| k in keyed && keyed[k].Object? &&
                 Within(render, setting, Merged(base, keyed[k].members), consumed + [selector], context);
        var under := Merged(base, keyed[k].members);
        choice := WithinSettles(render, setting, under, consumed + [selector], context);
        SpentChoice(render, setting, under, consumed + [selector], choice, selector, k);
        choice := choice[selector := k];
      } else {
        var under := Merged(base, keyed[KeyOf(render, setting[selector])].members);
        choice := WithinSettles(render, setting, under, consumed + [selector], context);
      }
    }
  }

  lemma {:induction false} SettledIsWithin(render: Render, setting: Members, constraints: Members,
                                           consumed: seq<string>, choice: map<string, string>, context: Context)
    requires Settle(render, setting, constraints, consumed, choice).Some?
    requires AllPass(setting, Settle(render, setting, constraints, consumed, choice).value, context)
    ensures Within(render, setting, constraints, consumed, context)
    decreases Left(consumed)
  {
    hide AllPass;
    var next := NextSelector(constraints, consumed);
    if next.Some? {
      var selector := next.value;
      LeftFalls(consumed, selector);
      var key := KeyFor(render, setting, choice, selector).value;
      var keyed, base := constraints[selector].members, constraints - {selector};
      SettledIsWithin(render, setting, Merged(base, keyed[key].members), consumed + [selector], choice, context);
    }
  }

  lemma WithinExactly(render: Render, setting: Members, constraints: Members, context: Context)
    requires Plain(setting)
    ensures Within(render, setting, constraints, [], context) <==>
            Admits(false, render, Object(setting), constraints, context)
  {
    hide Within, Settle, AdmitsMembers, AllPass;
    if Within(render, setting, constraints, [], context) {
      var choice := WithinSettles(render, setting, constraints, [], context);
      var r := Settle(render, setting, constraints, [], choice).value;
      PassesExactly(render, setting, r, context);
      assert SettlesOn(render, setting, constraints, choice, r);
    }
    if Admits(false, render, Object(setting), constraints, context) {
      var choice, r :| SettlesOn(render, setting, constraints, choice, r)
                       && AdmitsMembers(false, render, Object(setting), r, context);
      PassesExactly(render, setting, r, context);
      SettledIsWithin(render, setting, constraints, [], choice, context);
    }
  }

  // ---- No other setting matters ------------------------------------------------------------------------

  // The setting with each selector used for a key set to that key, and each other to a word that makes one
  // required, or to something written as none.
  function Evened(render: Render, setting: Members, consumed: seq<string>, odd: Json): Members
  {
    map n | n in setting && n in SELECTORS && !setting[n].Null? ::
      if n in consumed then String(KeyOf(render, setting[n]))
      else if n == "kind" && setting[n].String? && setting[n].text in KINDS then setting[n]
      else odd
  }

  lemma {:induction false} SettledInWords(render: Render, setting: Members, constraints: Members,
                                          consumed: seq<string>, choice: map<string, string>, n: string)
    requires Settle(render, setting, constraints, consumed, choice).Some?
    requires n in Settle(render, setting, constraints, consumed, choice).value.consumed && n !in consumed
    ensures KeyFor(render, setting, choice, n).Some?
    ensures KeyFor(render, setting, choice, n).value in Words(constraints, consumed)
    decreases Left(consumed)
  {
    var next := NextSelector(constraints, consumed);
    if next.Some? {
      var selector := next.value;
      LeftFalls(consumed, selector);
      var key := KeyFor(render, setting, choice, selector).value;
      if n != selector {
        var under := Merged(constraints - {selector}, constraints[selector].members[key].members);
        SettledInWords(render, setting, under, consumed + [selector], choice, n);
      }
    }
  }

  // Where the one setting resolves, so does one that differs only in where this one's values are no key.
  lemma {:induction false} OddResolvesLess(render: Render, even: Members, setting: Members, constraints: Members,
                                           consumed: seq<string>)
    requires Resolvable(render, even, constraints, consumed)
    requires forall n | n in SELECTORS ::
               var key := KeyFor(render, even, map[], n);
               && (key.None? <==> KeyFor(render, setting, map[], n).None?)
               && (key.Some? && key.value in Words(constraints, consumed) ==> key == KeyFor(render, setting, map[], n))
    ensures Resolvable(render, setting, constraints, consumed)
    decreases Left(consumed)
  {
    var next := NextSelector(constraints, consumed);
    if next.Some? {
      var selector := next.value;
      LeftFalls(consumed, selector);
      var keyed, base := constraints[selector].members, constraints - {selector};
      assert KeyFor(render, even, map[], selector).None? <==> KeyFor(render, setting, map[], selector).None?;
      forall k | k in keyed && keyed[k].Object? && Resolvable(render, even, Merged(base, keyed[k].members),
                                                              consumed + [selector])
        ensures Resolvable(render, setting, Merged(base, keyed[k].members), consumed + [selector])
      {
        assert Words(Merged(base, keyed[k].members), consumed + [selector]) <= Words(constraints, consumed);
        OddResolvesLess(render, even, setting, Merged(base, keyed[k].members), consumed + [selector]);
      }
    }
  }

  // A setting within the object is within it evened out.
  lemma EvenedIsWithin(render: Render, setting: Members, constraints: Members, context: Context,
                       choice: map<string, string>, r: Resolution, odd: Json)
    requires SettlesOn(render, setting, constraints, choice, r) && IsNest(odd)
    requires AdmitsMembers(false, render, Object(setting), r, context)
    ensures Within(render, Evened(render, setting, r.consumed, odd), constraints, [], context)
  {
    var even := Evened(render, setting, r.consumed, odd);
    hide Settle, Within;
    ConsumedAreSelectors(render, setting, constraints, [], choice);
    forall n | n in r.consumed ensures KeyFor(render, setting, choice, n) == KeyFor(render, even, choice, n) {
    }
    SettleSame(render, setting, choice, even, choice, constraints, []);
    EvenedPasses(render, setting, context, r, odd);
    SettledIsWithin(render, even, constraints, [], choice, context);
  }

  lemma EvenedPasses(render: Render, setting: Members, context: Context, r: Resolution, odd: Json)
    requires IsNest(odd) && AdmitsMembers(false, render, Object(setting), r, context)
    ensures AllPass(Evened(render, setting, r.consumed, odd), r, context)
  {
    var even := Evened(render, setting, r.consumed, odd);
    hide Required;
    forall n | n in even && Checked(even, n, r) ensures Passes(n, even[n], r, context, KindOf(even)) {
      assert AdmitsMember(false, render, n, setting[n], r, context, KindOf(setting));
      if n !in r.constraints {
        RequiredByKind(context, KindOf(setting), n);
        assert KindOf(even) == KindOf(setting);
      }
    }
  }

  lemma EvenedIsPlain(render: Render, setting: Members, consumed: seq<string>, odd: Json)
    requires IsNest(odd)
    ensures Plain(Evened(render, setting, consumed, odd))
  {
  }

  function Picked(members: Members, name: string): Option<Json>
  {
    if name in members then Some(members[name]) else None
  }

  lemma SelectedAgain(members: Members)
    requires OnlySelectors(members)
    ensures Selected(Picked(members, "kind"), Picked(members, "interface"), Picked(members, "band")) == members
  {
    assert SELECTORS == ["kind", "interface", "band"];
  }

  // And it is one of the settings tried.
  lemma EvenedIsAnOption(render: Render, setting: Members, constraints: Members, choice: map<string, string>,
                         r: Resolution, n: string)
    requires Apart(render) && SettlesOn(render, setting, constraints, choice, r)
    ensures var odd := Odd(render, Words(constraints, []) + KINDS, 0);
            Picked(Evened(render, setting, r.consumed, odd), n) in Options(render, constraints)
  {
    hide Odd, Settle, Words;
    if n in setting && n in SELECTORS && !setting[n].Null? && n in r.consumed {
      SettledInWords(render, setting, constraints, [], choice, n);
    }
  }

  // It resolves only where the setting does.
  lemma EvenedResolvesLess(render: Render, setting: Members, constraints: Members, consumed: seq<string>, odd: Json)
    requires Apart(render) && odd == Odd(render, Words(constraints, []) + KINDS, 0)
    requires Resolvable(render, Evened(render, setting, consumed, odd), constraints, [])
    ensures Resolvable(render, setting, constraints, [])
  {
    hide Words, Odd, Resolvable;
    var even := Evened(render, setting, consumed, odd);
    OddResolvesLess(render, even, setting, constraints, []);
  }

  /** An object of a mirror is steady exactly where its own keys say so: of the settings of its three selectors to
      a key it has, a kind that requires one, a value written as neither, or nothing, each that is within it
      resolves. */
  lemma SteadyExactly(render: Render, constraints: Members, context: Context)
    requires Apart(render)
    ensures Steady(render, constraints, context) <==> SteadyByKeys(render, constraints, context)
  {
    hide Within, Resolvable, Options, Selected, AdmitsMembers;
    if Steady(render, constraints, context) {
      var options := Options(render, constraints);
      forall kind, interface, band | kind in options && interface in options && band in options
        ensures StillResolves(render, Selected(kind, interface, band), constraints, context)
      {
        SelectedIsPlain(render, constraints, kind, interface, band);
        WithinExactly(render, Selected(kind, interface, band), constraints, context);
      }
    }
    if SteadyByKeys(render, constraints, context) {
      forall s: Members | OnlySelectors(s) && Admits(false, render, Object(s), constraints, context)
        ensures Resolvable(render, s, constraints, [])
      {
        TriedResolves(render, constraints, context, s);
      }
    }
  }

  lemma SelectedIsPlain(render: Render, constraints: Members, kind: Option<Json>, interface: Option<Json>,
                        band: Option<Json>)
    requires Apart(render)
    requires var options := Options(render, constraints); kind in options && interface in options && band in options
    ensures Plain(Selected(kind, interface, band)) && OnlySelectors(Selected(kind, interface, band))
  {
  }

  lemma TriedResolves(render: Render, constraints: Members, context: Context, s: Members)
    requires Apart(render) && SteadyByKeys(render, constraints, context)
    requires Admits(false, render, Object(s), constraints, context)
    ensures Resolvable(render, s, constraints, [])
  {
    hide Within, Resolvable, Options, Selected, Settle, Evened, Odd, AdmitsMembers, Picked;
    var choice, r :| SettlesOn(render, s, constraints, choice, r)
                     && AdmitsMembers(false, render, Object(s), r, context);
    var odd := Odd(render, Words(constraints, []) + KINDS, 0);
    EvenedIsWithin(render, s, constraints, context, choice, r, odd);
    var even := Evened(render, s, r.consumed, odd);
    EvenedIsPlain(render, s, r.consumed, odd);
    SelectedAgain(even);
    EvenedIsAnOption(render, s, constraints, choice, r, "kind");
    EvenedIsAnOption(render, s, constraints, choice, r, "interface");
    EvenedIsAnOption(render, s, constraints, choice, r, "band");
    assert StillResolves(render, even, constraints, context);
    EvenedResolvesLess(render, s, constraints, r.consumed, odd);
  }

  // ---- The whole mirror --------------------------------------------------------------------------------

  /** Every object of a mirror, down every way of setting selectors to its keys: a walk of the mirror alone. */
  predicate SteadyEverywhere(render: Render, mirror: Json, context: Context)
    requires Apart(render) && mirror.Object?
    decreases mirror, 4
  {
    SteadyByKeys(render, mirror.members, context) && SteadyBeneath(render, mirror, mirror.members, [], context)
  }

  // Every object constrained under every key of the selectors not yet consumed. All of it is part of `mirror`.
  predicate SteadyBeneath(render: Render, mirror: Json, constraints: Members, consumed: seq<string>, context: Context)
    requires Apart(render) && PartsOf(mirror, constraints)
    decreases mirror, Left(consumed)
  {
    match NextSelector(constraints, consumed)
    case None =>
      forall n | n in constraints && n !in consumed && constraints[n].Object? ::
        SteadyEverywhere(render, constraints[n], context.Child(n))
    case Some(selector) =>
      LeftFalls(consumed, selector);
      var keyed, base := constraints[selector].members, constraints - {selector};
      forall k | k in keyed && keyed[k].Object? ::
        SteadyBeneath(render, mirror, Merged(base, keyed[k].members), consumed + [selector], context)
  }

  ghost predicate PartsOf(mirror: Json, constraints: Members)
  {
    forall n | n in constraints :: (mirror decreases to constraints[n])
  }

  // Whatever settling leads to has been walked.
  lemma {:induction false} SettledIsWalked(render: Render, mirror: Json, constraints: Members, consumed: seq<string>,
                                           context: Context, setting: Members, r: Resolution, n: string)
    requires Apart(render) && PartsOf(mirror, constraints)
    requires SteadyBeneath(render, mirror, constraints, consumed, context)
    requires Settle(render, setting, constraints, consumed, map[]) == Some(r)
    requires n in r.constraints && n !in r.consumed && r.constraints[n].Object?
    ensures (mirror decreases to r.constraints[n])
    ensures SteadyEverywhere(render, r.constraints[n], context.Child(n))
    decreases Left(consumed)
  {
    hide SteadyEverywhere;
    var next := NextSelector(constraints, consumed);
    if next.Some? {
      var selector := next.value;
      LeftFalls(consumed, selector);
      var key := KeyFor(render, setting, map[], selector).value;
      var under := Merged(constraints - {selector}, constraints[selector].members[key].members);
      SettledIsWalked(render, mirror, under, consumed + [selector], context, setting, r, n);
    }
  }

  lemma {:induction false} WalkedIsSteady(render: Render, mirror: Json, context: Context, trail: seq<Turn>)
    requires Apart(render) && mirror.Object? && SteadyEverywhere(render, mirror, context)
    ensures SteadyAt(render, mirror.members, context, trail)
    decreases |trail|
  {
    hide Steady, SteadyByKeys, SteadyBeneath, Settle;
    if trail == [] {
      SteadyExactly(render, mirror.members, context);
    } else if Turns(render, mirror.members, trail[0]) {
      var turn := trail[0];
      var r := Under(render, mirror.members, turn.keys).value;
      SettledIsWalked(render, mirror, mirror.members, [], context, Setting(turn.keys), r, turn.name);
      WalkedIsSteady(render, r.constraints[turn.name], context.Child(turn.name), trail[1..]);
    }
  }

  // Setting these keys, and whatever others, leads from the one to the other.
  ghost predicate Leads(render: Render, from: Members, keys: map<string, string>, constraints: Members,
                        consumed: seq<string>)
  {
    forall all: map<string, string> | Extends(all, keys) ::
      Settle(render, Setting(all), from, [], map[]) == Settle(render, Setting(all), constraints, consumed, map[])
  }

  predicate Extends(all: map<string, string>, keys: map<string, string>)
  {
    forall n | n in keys :: n in all && all[n] == keys[n]
  }

  lemma LeadsOn(render: Render, from: Members, keys: map<string, string>, constraints: Members,
                consumed: seq<string>, k: string)
    requires Leads(render, from, keys, constraints, consumed) && keys.Keys == (set n | n in consumed)
    requires var next := NextSelector(constraints, consumed);
             next.Some? && k in constraints[next.value].members && constraints[next.value].members[k].Object?
    ensures var selector := NextSelector(constraints, consumed).value;
            var under := Merged(constraints - {selector}, constraints[selector].members[k].members);
            && keys[selector := k].Keys == (set n | n in consumed + [selector])
            && Leads(render, from, keys[selector := k], under, consumed + [selector])
  {
    var selector := NextSelector(constraints, consumed).value;
    LeftFalls(consumed, selector);
    var under := Merged(constraints - {selector}, constraints[selector].members[k].members);
    forall all: map<string, string> | Extends(all, keys[selector := k])
      ensures Settle(render, Setting(all), from, [], map[]) ==
              Settle(render, Setting(all), under, consumed + [selector], map[])
    {
      assert Extends(all, keys) && all[selector] == k;
      assert Settle(render, Setting(all), constraints, consumed, map[]) ==
             Settle(render, Setting(all), under, consumed + [selector], map[]);
      hide Settle;
    }
  }

  lemma {:induction false} SteadyIsWalked(render: Render, mirror: Json, context: Context)
    requires Apart(render) && mirror.Object? && SteadyThroughout(render, mirror.members, context)
    ensures SteadyEverywhere(render, mirror, context)
    decreases mirror, 4
  {
    hide Steady, SteadyByKeys, SteadyThroughout, SteadyBeneath, Settle;
    SteadyHere(render, mirror.members, context);
    SteadyExactly(render, mirror.members, context);
    SteadyIsWalkedBeneath(render, mirror, mirror.members, [], context, map[]);
  }

  lemma {:induction false} SteadyIsWalkedBeneath(render: Render, mirror: Json, constraints: Members,
                                                 consumed: seq<string>, context: Context, keys: map<string, string>)
    requires Apart(render) && mirror.Object? && SteadyThroughout(render, mirror.members, context)
    requires PartsOf(mirror, constraints) && keys.Keys == (set n | n in consumed)
    requires Leads(render, mirror.members, keys, constraints, consumed)
    ensures SteadyBeneath(render, mirror, constraints, consumed, context)
    decreases mirror, Left(consumed)
  {
    hide SteadyThroughout, SteadyEverywhere, Leads;
    var next := NextSelector(constraints, consumed);
    if next.None? {
      forall n | n in constraints && n !in consumed && constraints[n].Object?
        ensures SteadyEverywhere(render, constraints[n], context.Child(n))
      {
        LedThere(render, mirror.members, keys, constraints, consumed, n);
        SteadyBelow(render, mirror.members, context, Turn(keys, n));
        SteadyIsWalked(render, constraints[n], context.Child(n));
      }
    } else {
      var selector := next.value;
      LeftFalls(consumed, selector);
      var keyed, base := constraints[selector].members, constraints - {selector};
      forall k | k in keyed && keyed[k].Object?
        ensures SteadyBeneath(render, mirror, Merged(base, keyed[k].members), consumed + [selector], context)
      {
        LeadsOn(render, mirror.members, keys, constraints, consumed, k);
        SteadyIsWalkedBeneath(render, mirror, Merged(base, keyed[k].members), consumed + [selector], context,
                              keys[selector := k]);
      }
    }
  }

  lemma LedThere(render: Render, from: Members, keys: map<string, string>, constraints: Members,
                 consumed: seq<string>, n: string)
    requires Leads(render, from, keys, constraints, consumed) && keys.Keys == (set n | n in consumed)
    requires NextSelector(constraints, consumed).None?
    requires n in constraints && n !in consumed && constraints[n].Object?
    ensures Turns(render, from, Turn(keys, n))
    ensures Under(render, from, keys) == Some(Resolution(constraints, consumed))
  {
    assert Extends(keys, keys);
  }

  /** The checker answers as it is meant to for every document exactly where a walk of the mirror finds every
      object of it steady by its own keys. */
  lemma CompleteByKeys(render: Render, capabilities: Members)
    requires Apart(render)
    ensures Complete(render, capabilities) <==> SteadyEverywhere(render, Object(capabilities), Document)
  {
    hide Complete, SteadyEverywhere, SteadyAt;
    CompleteExactly(render, capabilities);
    if SteadyThroughout(render, capabilities, Document) {
      SteadyIsWalked(render, Object(capabilities), Document);
    }
    if SteadyEverywhere(render, Object(capabilities), Document) {
      forall trail: seq<Turn> ensures SteadyAt(render, capabilities, Document, trail) {
        WalkedIsSteady(render, Object(capabilities), Document, trail);
      }
    }
  }

  // Text that tells values apart tells these lists apart.
  lemma {:induction false} NestsDiffer(i: nat, j: nat)
    requires Nest(i) == Nest(j)
    ensures i == j
  {
    if i > 0 && j > 0 {
      assert Nest(i).items[0] == Nest(i - 1) && Nest(j).items[0] == Nest(j - 1);
      NestsDiffer(i - 1, j - 1);
    }
  }

  lemma InjectiveIsApart(render: Render)
    requires forall a, b :: render(a) == render(b) ==> a == b
    ensures Apart(render)
  {
    forall i: nat, j: nat | render(Nest(i)) == render(Nest(j)) ensures i == j {
      NestsDiffer(i, j);
    }
  }
}
