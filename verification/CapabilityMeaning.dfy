/** What the capability check comes to, said of the document and the mirror by their names: what a mirror that says
    nothing lets by, that a name no one knows is found wherever it is, and which members need no mirror. */
module CapabilityMeaning {
  import opened Wrappers
  import opened Json
  import T = Text
  import opened Path
  import opened Nodes
  import opened Capabilities
  import opened CapabilityTheorems

  // ---- A mirror that says nothing ----------------------------------------------------------------------

  // Nothing set: an object with no member but null ones, or lists of such.
  predicate Hollow(value: Json)
  {
    if value.Object? then forall n | n in value.members :: value.members[n].Null?
    else value.Array? && forall i | 0 <= i < |value.items| :: Hollow(value.items[i])
  }

  // Neither an object nor a list with an object in it.
  predicate NoObject(value: Json)
  {
    !value.Object? && !(value.Array? && exists i | 0 <= i < |value.items| :: value.items[i].Object?)
  }

  lemma NothingKeyed(render: Render, document: Members)
    ensures Resolvable(render, document, map[], [])
    ensures forall choice, r :: SettlesOn(render, document, map[], choice, r) <==> r == Resolution(map[], [])
  {
  }

  lemma {:induction false} EmptyAdmitsHollow(render: Render, value: Json, context: Context)
    requires context.Attachment? || context.Other?
    ensures AdmitsValue(true, render, value, Object(map[]), context) <==> Hollow(value)
  {
    if value.Array? {
      forall i | 0 <= i < |value.items|
        ensures AdmitsValue(true, render, value.items[i], Object(map[]), context) <==> Hollow(value.items[i])
      {
        EmptyAdmitsHollow(render, value.items[i], context);
      }
    } else if value.Object? {
      EmptyAdmitsObject(render, value, context);
    }
  }

  lemma EmptyAdmitsObject(render: Render, value: Json, context: Context)
    requires value.Object? && (context.Attachment? || context.Other?)
    ensures Admits(true, render, value, map[], context) <==> Hollow(value)
  {
    var r, kind := Resolution(map[], []), KindOf(value.members);
    NothingKeyed(render, value.members);
    assert SettlesOn(render, value.members, map[], map[], r);
    assert Admits(true, render, value, map[], context) <==> AdmitsMembers(true, render, value, r, context);
    hide AdmitsValue, SettlesOn, Admits;
    forall n | n in value.members && Checked(value.members, n, r)
      ensures AdmitsMember(true, render, n, value.members[n], r, context, kind) ==> kind.Some?
    {
    }
    if kind.Some? {
      assert Checked(value.members, "kind", r);
      assert !AdmitsMember(true, render, "kind", value.members["kind"], r, context, kind);
    }
  }

  /** A device that offers nothing takes a document exactly where it sets nothing but its candidates, and sets nothing
      in any of those: every object in a list of them is looked into. */
  lemma OfferingNothing(render: Render, document: Json)
    requires document.Object?
    ensures Check(render, document, map[], Document, []).Ok? <==>
            forall n | n in document.members && !document.members[n].Null? ::
              n == "attachments" && (NoObject(document.members[n]) || Hollow(document.members[n]))
  {
    CheckExactly(render, document, map[], Document, []);
    var r, kind := Resolution(map[], []), KindOf(document.members);
    NothingKeyed(render, document.members);
    assert SettlesOn(render, document.members, map[], map[], r);
    assert Admits(true, render, document, map[], Document) <==> AdmitsMembers(true, render, document, r, Document);
    hide AdmitsValue, SettlesOn, Admits, Check;
    forall n | n in document.members && Checked(document.members, n, r)
      ensures AdmitsMember(true, render, n, document.members[n], r, Document, kind) <==>
              n == "attachments" && (NoObject(document.members[n]) || Hollow(document.members[n]))
    {
      EmptyAdmitsHollow(render, document.members[n], Attachment);
    }
  }

  // ---- A name no one knows -----------------------------------------------------------------------------

  // Whether a mirror has the name anywhere in it.
  predicate Mentions(mirror: Json, name: string)
  {
    match mirror
    case Object(members) => name in members || exists k | k in members :: Mentions(members[k], name)
    case _ => false
  }

  // A mirror that takes nothing whole: it says what each member may be.
  predicate Spelt(mirror: Json)
  {
    match mirror
    case Object(members) => forall k | k in members :: Spelt(members[k])
    case Array(items) => forall i | 0 <= i < |items| :: !items[i].Object?
    case Bool(b) => !b
    case _ => true
  }

  // The names a document's form has of its own, outside an enterprise network's security.
  predicate OfTheForm(name: string)
  {
    name in {"attachments", "label", "enabled", "verify", "ssid", "security", "interface", "addresses", "gateway",
             "passphrase"}
  }

  // A way down by members and by items that are objects, through no selector and no security.
  predicate Straight(path: seq<Segment>)
  {
    path != [] && path[|path| - 1].Name?
    && (forall i | 0 <= i < |path| - 1 && path[i].Index? :: path[i + 1].Name?)
    && (forall i | 0 <= i < |path| && path[i].Name? ::
          path[i].name !in {"kind", "interface", "band", "security"})
  }

  lemma {:induction false} SettlesWithin(render: Render, document: Members, constraints: Members,
                                         consumed: seq<string>, choice: map<string, string>, name: string)
    requires Settle(render, document, constraints, consumed, choice).Some?
    requires Spelt(Object(constraints)) && !Mentions(Object(constraints), name)
    requires forall n | n in consumed :: n in SELECTORS
    ensures var r := Settle(render, document, constraints, consumed, choice).value;
            && Spelt(Object(r.constraints)) && !Mentions(Object(r.constraints), name)
            && forall n | n in r.consumed :: n in SELECTORS
    decreases Left(consumed)
  {
    var next := NextSelector(constraints, consumed);
    if next.Some? {
      var selector := next.value;
      LeftFalls(consumed, selector);
      var keyed, base := constraints[selector].members, constraints - {selector};
      var key := if Unset(document, selector) then choice[selector] else KeyOf(render, document[selector]);
      assert Spelt(constraints[selector]) && !Mentions(constraints[selector], name);
      assert Spelt(keyed[key]) && !Mentions(keyed[key], name);
      var under := Merged(base, keyed[key].members);
      SettlesWithin(render, document, under, consumed + [selector], choice, name);
    }
  }

  lemma {:induction false} StrangerInValue(render: Render, value: Json, constraint: Json, context: Context,
                                           path: seq<Segment>)
    requires Straight(path) && NodeAt(value, path).Some? && !NodeAt(value, path).value.Null?
    requires Spelt(constraint) && !Mentions(constraint, path[|path| - 1].name) && !OfTheForm(path[|path| - 1].name)
    requires !context.Security?
    ensures !AdmitsValue(true, render, value, constraint, context)
    decreases |path|, 2
  {
    var child := Step(value, path[0]).value;
    match path[0]
    case Index(i) =>
      assert path[1..][|path| - 2] == path[|path| - 1];
      StrangerInValue(render, child, constraint, context, path[1..]);
    case Name(_) =>
      if constraint.Object? && Admits(true, render, value, constraint.members, context) {
        var choice, r :| SettlesOn(render, value.members, constraint.members, choice, r)
                         && AdmitsMembers(true, render, value, r, context);
        SettlesWithin(render, value.members, constraint.members, [], choice, path[|path| - 1].name);
        StrangerInMembers(render, value, r, context, path);
      }
  }

  lemma {:induction false} StrangerInMembers(render: Render, value: Json, r: Resolution, context: Context,
                                             path: seq<Segment>)
    requires Straight(path) && path[0].Name? && value.Object?
    requires NodeAt(value, path).Some? && !NodeAt(value, path).value.Null?
    requires Spelt(Object(r.constraints)) && !Mentions(Object(r.constraints), path[|path| - 1].name)
    requires !OfTheForm(path[|path| - 1].name) && forall n | n in r.consumed :: n in SELECTORS
    requires !context.Security?
    ensures !AdmitsMembers(true, render, value, r, context)
    decreases |path|, 1
  {
    var name, kind := path[0].name, KindOf(value.members);
    var child := value.members[name];
    assert Step(value, path[0]) == Some(child);
    assert !child.Null? by {
      if |path| > 1 {
        assert Step(child, path[1]).Some?;
      }
    }
    assert Checked(value.members, name, r);
    if |path| == 1 {
      assert !AdmitsMember(true, render, name, child, r, context, kind);
    } else {
      assert path[1..][|path| - 2] == path[|path| - 1];
      if name in r.constraints {
        StrangerInValue(render, child, r.constraints[name], context.Child(name), path[1..]);
      } else {
        assert HoldsObjects(child) by {
          if path[1].Index? {
            var item, rest := child.items[path[1].index], path[1..][1..];
            assert NodeAt(child, path[1..]) == NodeAt(item, rest);
            assert rest[0] == path[2] && path[2].Name?;
            assert Step(item, rest[0]).Some?;
          }
        }
        StrangerInValue(render, child, Object(map[]), context.Child(name), path[1..]);
      }
      assert !AdmitsMember(true, render, name, child, r, context, kind);
    }
  }

  /** A member whose name is no part of a document's form and nowhere in the mirror is found and refused wherever it
      is: in the document, under its members, and in the objects of its lists. */
  lemma StrangerIsRefused(render: Render, document: Json, capabilities: Members, path: seq<Segment>)
    requires document.Object? && Straight(path)
    requires NodeAt(document, path).Some? && !NodeAt(document, path).value.Null?
    requires Spelt(Object(capabilities)) && !Mentions(Object(capabilities), path[|path| - 1].name)
    requires !OfTheForm(path[|path| - 1].name)
    ensures Check(render, document, capabilities, Document, []).Err?
  {
    CheckExactly(render, document, capabilities, Document, []);
    hide Check, Admits, Spelt, Mentions, NodeAt;
    StrangerInValue(render, document, Object(capabilities), Document, path);
    assert Admits(true, render, document, capabilities, Document) ==>
             AdmitsValue(true, render, document, Object(capabilities), Document);
  }

  // ---- What a key lays over ----------------------------------------------------------------------------

  /** An object that sets one selector is held to what its own mirror says, and over that to what it says under the key
      of the value set: its text where it is text, and otherwise what it is written as. */
  lemma KeyLaysOver(render: Render, document: Members, constraints: Members, selector: string, key: string,
                    choice: map<string, string>, r: Resolution)
    requires selector in {"kind", "interface", "band"} && selector in constraints && constraints[selector].Object?
    requires key in constraints[selector].members && constraints[selector].members[key].Object?
    requires !Unset(document, selector)
    requires if document[selector].String? then document[selector].text == key else render(document[selector]) == key
    requires var under := constraints[selector].members[key].members;
             forall s | s in {"kind", "interface", "band"} && s != selector ::
               && (s in constraints ==> !constraints[s].Object?)
               && (s in under ==> !under[s].Object?)
    ensures SettlesOn(render, document, constraints, choice, r) <==>
            var under := constraints[selector].members[key].members;
            && r.consumed == [selector]
            && (forall n :: n in r.constraints <==> n in under || (n in constraints && n != selector))
            && (forall n | n in r.constraints :: r.constraints[n] == if n in under then under[n] else constraints[n])
  {
    hide Settle, NextSelector, Merged;
    OneSelector(constraints, selector, key);
    SettlesOnce(render, document, constraints, selector, key, choice);
    LaidIs(constraints, selector, constraints[selector].members[key].members, r.constraints);
  }

  lemma OneSelector(constraints: Members, selector: string, key: string)
    requires selector in {"kind", "interface", "band"} && selector in constraints && constraints[selector].Object?
    requires key in constraints[selector].members && constraints[selector].members[key].Object?
    requires var under := constraints[selector].members[key].members;
             forall s | s in {"kind", "interface", "band"} && s != selector ::
               && (s in constraints ==> !constraints[s].Object?)
               && (s in under ==> !under[s].Object?)
    ensures NextSelector(constraints, []) == Some(selector)
    ensures NextSelector(Merged(constraints - {selector}, constraints[selector].members[key].members), [selector]).None?
  {
  }

  lemma SettlesOnce(render: Render, document: Members, constraints: Members, selector: string, key: string,
                    choice: map<string, string>)
    requires NextSelector(constraints, []) == Some(selector) && !Unset(document, selector)
    requires key in constraints[selector].members && constraints[selector].members[key].Object?
    requires if document[selector].String? then document[selector].text == key else render(document[selector]) == key
    requires var laid := Merged(constraints - {selector}, constraints[selector].members[key].members);
             NextSelector(laid, [selector]).None?
    ensures Settle(render, document, constraints, [], choice) ==
            Some(Resolution(Merged(constraints - {selector}, constraints[selector].members[key].members), [selector]))
  {
    hide NextSelector, Merged;
    var laid := Merged(constraints - {selector}, constraints[selector].members[key].members);
    assert [] + [selector] == [selector];
    assert Settle(render, document, laid, [selector], choice) == Some(Resolution(laid, [selector]));
  }

  lemma LaidIs(constraints: Members, selector: string, under: Members, laid: Members)
    ensures laid == Merged(constraints - {selector}, under) <==>
            && (forall n :: n in laid <==> n in under || (n in constraints && n != selector))
            && (forall n | n in laid :: laid[n] == if n in under then under[n] else constraints[n])
  {
  }

  /** Of several selectors, `kind` is settled before `interface`, and that before `band`. */
  lemma InTurn(constraints: Members, consumed: seq<string>)
    ensures forall s, t | s in {"kind", "interface", "band"} && t in {"kind", "interface", "band"}
                          && Selects(constraints, consumed, s) && Selects(constraints, consumed, t)
                          && (s == "kind" || (s == "interface" && t == "band")) && s != t ::
              NextSelector(constraints, consumed) != Some(t)
  {
  }

  // ---- Where it is refused -----------------------------------------------------------------------------

  lemma {:induction false} SortedInOrder(keys: set<string>, i: nat, j: nat)
    requires i < j < |T.Sorted(keys)|
    ensures T.Below(T.Sorted(keys)[i], T.Sorted(keys)[j])
    decreases |keys|
  {
    hide T.Below, T.Sorted;
    T.LeastExists(keys);
    var k :| T.IsLeast(k, keys);
    T.NextSorted(k, keys);
    var rest := T.Sorted(keys - {k});
    if i == 0 {
      assert rest[j - 1] in rest;
    } else {
      SortedInOrder(keys - {k}, i - 1, j - 1);
    }
  }

  // Names passed over until the first that is checked, which faults.
  lemma {:induction false} FirstToFault(render: Render, document: Json, names: seq<string>, resolution: Resolution,
                                        context: Context, at: seq<Segment>, i: nat)
    requires document.Object? && (forall n | n in names :: n in document.members) && i < |names|
    requires forall j | 0 <= j < i :: !Checked(document.members, names[j], resolution)
    requires Checked(document.members, names[i], resolution)
    requires CheckMember(render, names[i], document.members[names[i]], resolution, context, KindOf(document.members),
                         at).Err?
    ensures CheckNames(render, document, names, resolution, context, at) ==
            CheckMember(render, names[i], document.members[names[i]], resolution, context, KindOf(document.members), at)
    decreases |names|
  {
    hide CheckMember;
    if i > 0 {
      FirstToFault(render, document, names[1..], resolution, context, at, i - 1);
    }
  }

  lemma EmptyChecks(render: Render, document: Json, context: Context, at: seq<Segment>)
    requires document.Object?
    ensures Check(render, document, map[], context, at) ==
            CheckMembers(render, document, Resolution(map[], []), context, at)
  {
    hide CheckMembers;
    var rs := [Resolution(map[], [])];
    assert Resolve(render, document.members, map[], [], at) == Ok(rs);
    assert rs[..0] == [];
    assert TryAll(render, document, [], context, at).None?;
    var outcome := CheckMembers(render, document, rs[0], context, at);
    assert outcome.Ok? ==> outcome.value == ();
    assert TryAll(render, document, rs, context, at) == if outcome.Ok? then None else Some(outcome.error);
  }

  // The fault of an object with a kind and nothing before it, held to nothing.
  lemma KindIsRefused(render: Render, m: Members, at: seq<Segment>)
    requires "kind" in m && !m["kind"].Null?
    requires forall n | n in m && !m[n].Null? :: n == "kind" || T.Below("kind", n)
    ensures Check(render, Object(m), map[], Attachment, at) ==
            Err(Outside(at + [Name("kind")], NoSuchMember("kind")))
  {
    EmptyChecks(render, Object(m), Attachment, at);
    var names, r := T.Sorted(m.Keys), Resolution(map[], []);
    hide Text, T.Sorted, Check;
    var i :| 0 <= i < |names| && names[i] == "kind";
    forall j | 0 <= j < i ensures !Checked(m, names[j], r) {
      SortedInOrder(m.Keys, j, i);
      assert names[j] in names;
      NotBothWays(names[j], "kind");
    }
    FirstToFault(render, Object(m), names, r, Attachment, at, i);
  }

  lemma {:induction false} NotBothWays(a: string, b: string)
    requires T.Below(a, b)
    ensures a != b && !T.Below(b, a)
    decreases |a|
  {
    if a != [] && a[0] == b[0] {
      NotBothWays(a[1..], b[1..]);
    }
  }

  lemma {:induction false} FirstItemToFault(render: Render, items: seq<Json>, i: nat, from: nat, at: seq<Segment>)
    requires from <= i < |items| && forall j | 0 <= j < i :: Hollow(items[j])
    requires CheckValue(render, items[i], Object(map[]), Attachment, at + [Index(i)]).Err?
    ensures CheckItems(render, Array(items), from, Object(map[]), Attachment, at) ==
            CheckValue(render, items[i], Object(map[]), Attachment, at + [Index(i)])
    decreases i - from
  {
    hide CheckValue;
    if from < i {
      ValueExactly(render, items[from], Object(map[]), Attachment, at + [Index(from)]);
      EmptyAdmitsHollow(render, items[from], Attachment);
      FirstItemToFault(render, items, i, from + 1, at);
    }
  }

  lemma CandidatesRefused(render: Render, items: seq<Json>, i: nat, kind: Option<string>)
    requires i < |items| && (forall j | 0 <= j < i :: Hollow(items[j])) && items[i].Object?
    requires "kind" in items[i].members && !items[i].members["kind"].Null?
    requires forall n | n in items[i].members && !items[i].members[n].Null? :: n == "kind" || T.Below("kind", n)
    ensures CheckMember(render, "attachments", Array(items), Resolution(map[], []), Document, kind, []) ==
            Err(Outside([Name("attachments"), Index(i), Name("kind")], NoSuchMember("kind")))
  {
    hide Text, Check, CheckItems, T.Below;
    var at := [Name("attachments")];
    KindIsRefused(render, items[i].members, at + [Index(i)]);
    FirstItemToFault(render, items, i, 0, at);
    assert at + [Index(i)] + [Name("kind")] == [Name("attachments"), Index(i), Name("kind")];
    assert [] + [Name("attachments")] == at;
    assert HoldsObjects(Array(items));
  }

  /** A device that offers nothing refuses the first candidate that says its kind, at its kind, in whatever list of
      candidates and with whatever else it sets, so long as nothing of it comes before. */
  lemma KindIsNamed(render: Render, items: seq<Json>, i: nat)
    requires i < |items| && (forall j | 0 <= j < i :: Hollow(items[j])) && items[i].Object?
    requires "kind" in items[i].members && !items[i].members["kind"].Null?
    requires forall n | n in items[i].members && !items[i].members[n].Null? :: n == "kind" || T.Below("kind", n)
    ensures var document := Object(map["attachments" := Array(items)]);
            Check(render, document, map[], Document, []) ==
            Err(Outside([Name("attachments"), Index(i), Name("kind")], NoSuchMember("kind")))
  {
    var document, r := Object(map["attachments" := Array(items)]), Resolution(map[], []);
    EmptyChecks(render, document, Document, []);
    hide Text, T.Sorted, Check, CheckMember, T.Below;
    CandidatesRefused(render, items, i, KindOf(document.members));
    var names := T.Sorted(document.members.Keys);
    assert names[0] in names && names[0] == "attachments";
    FirstToFault(render, document, names, r, Document, [], 0);
  }
}
