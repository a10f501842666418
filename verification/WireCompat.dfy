/** The oracle two builds are compared by: what one build said, and the other lost in saying it again. */
module WireCompat {
  import opened Json
  import opened Path
  import opened Nodes
  import opened Names
  import opened Envelope
  import T = Text

  // ---- Folding the case of names -----------------------------------------------------------------------

  ghost function FoldCase(value: Json): Json
    decreases value, 1
  {
    match value
    case Object(members) => Object(FoldNames(value, T.Sorted(members.Keys)))
    case Array(items) => Array(seq(|items|, i requires 0 <= i < |items| => FoldCase(items[i])))
    case _ => value
  }

  // Of names that differ only in case, the last in order stands.
  ghost function FoldNames(value: Json, names: seq<string>): Members
    requires value.Object? && forall n | n in names :: n in value.members
    decreases value, 0, |names|
  {
    if names == [] then map[]
    else
      var last := names[|names| - 1];
      FoldNames(value, names[..|names| - 1])[Lower(last) := FoldCase(value.members[last])]
  }

  method Fold(value: Json) returns (r: Json)
    ensures r == FoldCase(value)
    decreases value
  {
    hide T.Sorted, Lower;
    if value.Object? {
      var names := T.SortedKeys(value.members.Keys);
      var members: Members := map[];
      for i := 0 to |names|
        invariant members == FoldNames(value, names[..i])
      {
        var inner := Fold(value.members[names[i]]);
        assert names[..i + 1][..i] == names[..i];
        members := members[Lower(names[i]) := inner];
      }
      assert names[..|names|] == names;
      return Object(members);
    } else if value.Array? {
      var items := [];
      for i := 0 to |value.items|
        invariant |items| == i && forall j | 0 <= j < i :: items[j] == FoldCase(value.items[j])
      {
        var inner := Fold(value.items[i]);
        items := items + [inner];
      }
      return Array(items);
    } else {
      return value;
    }
  }

  // ---- The walk ----------------------------------------------------------------------------------------

  // What was lost below a node at `path`, in the order the walk meets it.
  ghost function Lost(render: Render, sent: Json, back: Json, path: string): seq<string>
    decreases sent, 1
  {
    if sent.Object? && back.Object? then LostMembers(render, sent, back, T.Sorted(sent.members.Keys), path)
    else if sent.Array? && back.Array? then LostItems(render, sent, back, |sent.items|, path)
    else if sent != back then [path + " (value changed: " + render(sent) + " to " + render(back) + ")"]
    else []
  }

  ghost function LostMember(render: Render, sent: Json, back: Json, name: string, path: string): seq<string>
    requires sent.Object? && back.Object? && name in sent.members
    decreases sent, 0, 0
  {
    if name !in back.members then [Join(path, name)]
    else Lost(render, sent.members[name], back.members[name], Join(path, name))
  }

  ghost function LostMembers(render: Render, sent: Json, back: Json, names: seq<string>, path: string): seq<string>
    requires sent.Object? && back.Object? && forall n | n in names :: n in sent.members
    decreases sent, 0, 1, |names|
  {
    if names == [] then []
    else
      LostMembers(render, sent, back, names[..|names| - 1], path)
      + LostMember(render, sent, back, names[|names| - 1], path)
  }

  ghost function LostItem(render: Render, sent: Json, back: Json, i: nat, path: string): seq<string>
    requires sent.Array? && back.Array? && i < |sent.items|
    decreases sent, 0, 0
  {
    if i >= |back.items| then [Join(path, T.Decimal(i))]
    else Lost(render, sent.items[i], back.items[i], Join(path, T.Decimal(i)))
  }

  ghost function LostItems(render: Render, sent: Json, back: Json, n: nat, path: string): seq<string>
    requires sent.Array? && back.Array? && n <= |sent.items|
    decreases sent, 0, 1, n
  {
    if n == 0 then [] else LostItems(render, sent, back, n - 1, path) + LostItem(render, sent, back, n - 1, path)
  }

  class Walker {
    const render: Render
    var path: string
    var out: seq<string>

    constructor (render: Render)
      ensures this.render == render && path == "" && out == []
    {
      this.render, path, out := render, "", [];
    }

    // The path is what it was on return, whichever branch was taken.
    method Walk(sent: Json, back: Json)
      modifies this
      ensures path == old(path)
      ensures out == old(out) + Lost(render, sent, back, old(path))
      decreases sent, 1
    {
      hide T.Sorted, LostMembers, LostItems;
      if sent.Object? && back.Object? {
        WalkMembers(sent, back);
      } else if sent.Array? && back.Array? {
        WalkItems(sent, back);
      } else if sent != back {
        out := out + [path + " (value changed: " + render(sent) + " to " + render(back) + ")"];
      }
    }

    method WalkMembers(sent: Json, back: Json)
      requires sent.Object? && back.Object?
      modifies this
      ensures path == old(path)
      ensures out == old(out) + Lost(render, sent, back, old(path))
      decreases sent, 0, 1
    {
      hide T.Sorted, LostMember;
      var names := T.SortedKeys(sent.members.Keys);
      for i := 0 to |names|
        invariant path == old(path)
        invariant out == old(out) + LostMembers(render, sent, back, names[..i], path)
      {
        WalkMember(sent, back, names[i]);
        assert names[..i + 1][..i] == names[..i];
      }
      assert names[..|names|] == names;
    }

    method WalkMember(sent: Json, back: Json, name: string)
      requires sent.Object? && back.Object? && name in sent.members
      modifies this
      ensures path == old(path)
      ensures out == old(out) + LostMember(render, sent, back, name, old(path))
      decreases sent, 0, 0
    {
      hide Lost;
      var restore := path;
      path := Join(path, name);
      if name !in back.members {
        out := out + [path];
      } else {
        Walk(sent.members[name], back.members[name]);
      }
      path := path[..|restore|];
      assert path == restore;
    }

    method WalkItems(sent: Json, back: Json)
      requires sent.Array? && back.Array?
      modifies this
      ensures path == old(path)
      ensures out == old(out) + Lost(render, sent, back, old(path))
      decreases sent, 0, 1
    {
      hide LostItem;
      for i := 0 to |sent.items|
        invariant path == old(path)
        invariant out == old(out) + LostItems(render, sent, back, i, path)
      {
        WalkItem(sent, back, i);
      }
    }

    method WalkItem(sent: Json, back: Json, i: nat)
      requires sent.Array? && back.Array? && i < |sent.items|
      modifies this
      ensures path == old(path)
      ensures out == old(out) + LostItem(render, sent, back, i, old(path))
      decreases sent, 0, 0
    {
      hide Lost, T.Decimal;
      var restore := path;
      path := Join(path, T.Decimal(i));
      if i >= |back.items| {
        out := out + [path];
      } else {
        Walk(sent.items[i], back.items[i]);
      }
      path := path[..|restore|];
      assert path == restore;
    }
  }

  ghost function Omitted(render: Render, sent: Json, back: Json): seq<string>
  {
    Lost(render, FoldCase(sent), FoldCase(back), "")
  }

  method Omissions(render: Render, sent: Json, back: Json) returns (lost: seq<string>)
    ensures lost == Omitted(render, sent, back)
  {
    hide FoldCase, Lost;
    var foldedSent := Fold(sent);
    var foldedBack := Fold(back);
    var walker := new Walker(render);
    walker.Walk(foldedSent, foldedBack);
    lost := walker.out;
  }

  // ---- What the walk finds -----------------------------------------------------------------------------

  lemma {:induction false} LostNothing(render: Render, sent: Json, back: Json, path: string)
    ensures Lost(render, sent, back, path) == [] <==> Contained(sent, back, false)
    decreases sent, 1
  {
    hide T.Sorted, T.Decimal, Join;
    if sent.Object? && back.Object? {
      LostNoMember(render, sent, back, T.Sorted(sent.members.Keys), path);
    } else if sent.Array? && back.Array? {
      LostNoItem(render, sent, back, |sent.items|, path);
      assert (forall i | 0 <= i < |sent.items| :: ItemContained(sent, back, i)) <==> Contained(sent, back, false) by {
        ItemsContained(sent, back);
      }
    }
  }

  lemma ItemsContained(sent: Json, back: Json)
    requires sent.Array? && back.Array?
    ensures (forall i | 0 <= i < |sent.items| :: ItemContained(sent, back, i)) <==> Contained(sent, back, false)
  {
    if (forall i | 0 <= i < |sent.items| :: ItemContained(sent, back, i)) && sent.items != [] {
      forall i | 0 <= i < |sent.items| ensures i < |back.items| && Contained(sent.items[i], back.items[i], false) {
        assert ItemContained(sent, back, i);
      }
      assert ItemContained(sent, back, |sent.items| - 1);
    }
  }

  lemma {:induction false} LostNoMember(render: Render, sent: Json, back: Json, names: seq<string>, path: string)
    requires sent.Object? && back.Object? && forall n | n in names :: n in sent.members
    ensures LostMembers(render, sent, back, names, path) == [] <==>
            forall n | n in names :: n in back.members && Contained(sent.members[n], back.members[n], false)
    decreases sent, 0, |names|
  {
    hide T.Sorted, Join, Contained, Lost;
    if names != [] {
      var last := names[|names| - 1];
      LostNoMember(render, sent, back, names[..|names| - 1], path);
      if last in back.members {
        LostNothing(render, sent.members[last], back.members[last], Join(path, last));
      }
      assert forall n :: n in names <==> n in names[..|names| - 1] || n == last;
    }
  }

  predicate ItemContained(sent: Json, back: Json, i: nat)
    requires sent.Array? && back.Array? && i < |sent.items|
  {
    i < |back.items| && Contained(sent.items[i], back.items[i], false)
  }

  lemma {:induction false} LostNoItem(render: Render, sent: Json, back: Json, n: nat, path: string)
    requires sent.Array? && back.Array? && n <= |sent.items|
    ensures LostItems(render, sent, back, n, path) == [] <==> forall i | 0 <= i < n :: ItemContained(sent, back, i)
    decreases sent, 0, n
  {
    if n > 0 {
      assert LostItem(render, sent, back, n - 1, path) == [] <==> ItemContained(sent, back, n - 1) by {
        hide T.Decimal, Join, Contained, Lost;
        if n - 1 < |back.items| {
          LostNothing(render, sent.items[n - 1], back.items[n - 1], Join(path, T.Decimal(n - 1)));
        }
      }
      hide LostItem, ItemContained;
      LostNoItem(render, sent, back, n - 1, path);
    }
  }

  /** Whatever the envelope cannot find again, the oracle reports lost. */
  lemma {:induction false} UnknownIsLost(render: Render, sent: Json, back: Json, path: string, p: string)
    requires p in UnknownBelow(sent, back, path)
    ensures p in Lost(render, sent, back, path)
    decreases sent
  {
    hide T.Sorted, T.Decimal, Join;
    if sent.Object? && back.Object? {
      if k :| k in sent.members && k !in back.members && p == Join(path, k) {
        MemberLost(render, sent, back, T.Sorted(sent.members.Keys), path, k, p);
      } else {
        var k :| k in sent.members && k in back.members
                 && p in UnknownBelow(sent.members[k], back.members[k], Join(path, k));
        UnknownIsLost(render, sent.members[k], back.members[k], Join(path, k), p);
        MemberLost(render, sent, back, T.Sorted(sent.members.Keys), path, k, p);
      }
    } else {
      var i :| 0 <= i < |sent.items| && i < |back.items|
               && p in UnknownBelow(sent.items[i], back.items[i], Join(path, T.Decimal(i)));
      UnknownIsLost(render, sent.items[i], back.items[i], Join(path, T.Decimal(i)), p);
      ItemLost(render, sent, back, |sent.items|, path, i, p);
    }
  }

  lemma {:induction false} MemberLost(render: Render, sent: Json, back: Json, names: seq<string>, path: string,
                                      k: string, p: string)
    requires sent.Object? && back.Object? && forall n | n in names :: n in sent.members
    requires k in names && p in LostMember(render, sent, back, k, path)
    ensures p in LostMembers(render, sent, back, names, path)
    decreases |names|
  {
    hide LostMember;
    if k != names[|names| - 1] {
      MemberLost(render, sent, back, names[..|names| - 1], path, k, p);
    }
  }

  lemma {:induction false} ItemLost(render: Render, sent: Json, back: Json, n: nat, path: string, i: nat, p: string)
    requires sent.Array? && back.Array? && i < n <= |sent.items| && p in LostItem(render, sent, back, i, path)
    ensures p in LostItems(render, sent, back, n, path)
    decreases n
  {
    hide LostItem;
    if i < n - 1 {
      ItemLost(render, sent, back, n - 1, path, i, p);
    }
  }

  // ---- What is reported, and where ---------------------------------------------------------------------

  // The node at `address` is in the one and, with all above it in both, not in the other.
  predicate Gone(sent: Json, back: Json, address: seq<Segment>)
    decreases |address|
  {
    address != [] &&
    match address[0]
    case Name(name) =>
      && sent.Object? && back.Object? && name in sent.members
      && if |address| == 1 then name !in back.members
         else name in back.members && Gone(sent.members[name], back.members[name], address[1..])
    case Index(i) =>
      && sent.Array? && back.Array? && i < |sent.items|
      && if |address| == 1 then i >= |back.items|
         else i < |back.items| && Gone(sent.items[i], back.items[i], address[1..])
  }

  // The nodes at `address` differ, and are not two objects or two lists.
  predicate Changed(sent: Json, back: Json, address: seq<Segment>)
    decreases |address|
  {
    if address == [] then sent != back && !(sent.Object? && back.Object?) && !(sent.Array? && back.Array?)
    else match address[0]
      case Name(name) =>
        && sent.Object? && back.Object? && name in sent.members && name in back.members
        && Changed(sent.members[name], back.members[name], address[1..])
      case Index(i) =>
        && sent.Array? && back.Array? && i < |sent.items| && i < |back.items|
        && Changed(sent.items[i], back.items[i], address[1..])
  }

  function From(value: Json, address: seq<Segment>): Json
    requires IsNode(value, address)
  {
    NodeAt(value, address).value
  }

  lemma {:induction false} ChangedAreNodes(sent: Json, back: Json, address: seq<Segment>)
    requires Changed(sent, back, address)
    ensures IsNode(sent, address) && IsNode(back, address)
    decreases |address|
  {
    if address != [] {
      match address[0]
      case Name(name) => ChangedAreNodes(sent.members[name], back.members[name], address[1..]);
      case Index(i) => ChangedAreNodes(sent.items[i], back.items[i], address[1..]);
    }
  }

  // What is said of a node reported.
  ghost predicate Reports(render: Render, sent: Json, back: Json, path: string, address: seq<Segment>, p: string)
  {
    || (Gone(sent, back, address) && p == Below(path, address))
    || (Changed(sent, back, address) && IsNode(sent, address) && IsNode(back, address)
        && p == Below(path, address) + " (value changed: " + render(From(sent, address)) + " to "
                + render(From(back, address)) + ")")
  }

  lemma ReportsBelow(render: Render, sent: Json, back: Json, path: string, s: Segment, rest: seq<Segment>, p: string)
    requires Step(sent, s).Some? && Step(back, s).Some?
    ensures Reports(render, sent, back, path, [s] + rest, p) <==>
            Reports(render, Step(sent, s).value, Step(back, s).value, Join(path, SegmentWord(s)), rest, p)
  {
    hide Join, SegmentWord;
    var address := [s] + rest;
    assert address[1..] == rest && address[0] == s;
    assert Below(path, address) == Below(Join(path, SegmentWord(s)), rest);
    assert NodeAt(sent, address) == NodeAt(Step(sent, s).value, rest);
    assert NodeAt(back, address) == NodeAt(Step(back, s).value, rest);
    assert Gone(sent, back, address) <==> Gone(Step(sent, s).value, Step(back, s).value, rest);
    assert Changed(sent, back, address) <==> Changed(Step(sent, s).value, Step(back, s).value, rest);
  }

  /** Every string reported is of a place: a node that is gone, by its path, or one that changed, by its path and what
      it was and is; */
  lemma {:induction false} ReportedIsThere(render: Render, sent: Json, back: Json, path: string, p: string)
    returns (address: seq<Segment>)
    requires p in Lost(render, sent, back, path)
    ensures Reports(render, sent, back, path, address, p)
    decreases sent
  {
    hide T.Sorted, T.Decimal, Join;
    if sent.Object? && back.Object? {
      var name := MemberOf(render, sent, back, T.Sorted(sent.members.Keys), path, p);
      address := [Name(name)];
      if name in back.members {
        var rest := ReportedIsThere(render, sent.members[name], back.members[name], Join(path, name), p);
        ReportsBelow(render, sent, back, path, Name(name), rest, p);
        address := [Name(name)] + rest;
      } else {
        OneDown(path, Name(name));
      }
    } else if sent.Array? && back.Array? {
      var i := ItemOf(render, sent, back, |sent.items|, path, p);
      address := [Index(i)];
      if i < |back.items| {
        var rest := ReportedIsThere(render, sent.items[i], back.items[i], Join(path, T.Decimal(i)), p);
        ReportsBelow(render, sent, back, path, Index(i), rest, p);
        address := [Index(i)] + rest;
      } else {
        OneDown(path, Index(i));
      }
    } else {
      address := [];
      assert Below(path, []) == path;
    }
  }

  lemma OneDown(path: string, s: Segment)
    ensures Below(path, [s]) == Join(path, SegmentWord(s))
  {
    assert [s][1..] == [];
  }

  lemma {:induction false} MemberOf(render: Render, sent: Json, back: Json, names: seq<string>, path: string, p: string)
    returns (name: string)
    requires sent.Object? && back.Object? && forall n | n in names :: n in sent.members
    requires p in LostMembers(render, sent, back, names, path)
    ensures name in names && p in LostMember(render, sent, back, name, path)
    decreases |names|
  {
    hide LostMember;
    name := names[|names| - 1];
    if p !in LostMember(render, sent, back, name, path) {
      name := MemberOf(render, sent, back, names[..|names| - 1], path, p);
    }
  }

  lemma {:induction false} ItemOf(render: Render, sent: Json, back: Json, n: nat, path: string, p: string)
    returns (i: nat)
    requires sent.Array? && back.Array? && n <= |sent.items| && p in LostItems(render, sent, back, n, path)
    ensures i < n && p in LostItem(render, sent, back, i, path)
    decreases n
  {
    hide LostItem;
    i := n - 1;
    if p !in LostItem(render, sent, back, i, path) {
      i := ItemOf(render, sent, back, n - 1, path, p);
    }
  }

  /** and every such place is reported. */
  lemma {:induction false} ThereIsReported(render: Render, sent: Json, back: Json, path: string,
                                           address: seq<Segment>, p: string)
    requires Reports(render, sent, back, path, address, p)
    ensures p in Lost(render, sent, back, path)
    decreases |address|
  {
    hide T.Sorted, T.Decimal, Join;
    if address == [] {
      assert Below(path, []) == path;
    } else {
      var s, rest := address[0], address[1..];
      assert address == [s] + rest;
      if Step(sent, s).Some? && Step(back, s).Some? {
        ReportsBelow(render, sent, back, path, s, rest, p);
        ThereIsReported(render, Step(sent, s).value, Step(back, s).value, Join(path, SegmentWord(s)), rest, p);
      } else {
        OneDown(path, s);
        assert address == [s];
      }
      match s
      case Name(name) => MemberLost(render, sent, back, T.Sorted(sent.members.Keys), path, name, p);
      case Index(i) => ItemLost(render, sent, back, |sent.items|, path, i, p);
    }
  }

  // ---- Containment, whatever the case of names ---------------------------------------------------------

  // No two names of one object differ only in case, at any depth.
  predicate CaseFree(value: Json)
  {
    match value
    case Object(members) =>
      && (forall k | k in members :: CaseFree(members[k]))
      && (forall k, l | k in members && l in members && Lower(k) == Lower(l) :: k == l)
    case Array(items) => forall i | 0 <= i < |items| :: CaseFree(items[i])
    case _ => true
  }

  // Everything `a` says `b` says, under some casing of its name.
  predicate Said(a: Json, b: Json)
  {
    match a
    case Object(members) =>
      b.Object? && forall k | k in members :: exists l | l in b.members :: SaidAs(members, k, b.members, l)
    case Array(items) => b.Array? && |items| <= |b.items| && forall i | 0 <= i < |items| :: Said(items[i], b.items[i])
    case _ => a == b
  }

  predicate SaidAs(a: Members, k: string, b: Members, l: string)
    requires k in a && l in b
    decreases a[k]
  {
    Lower(l) == Lower(k) && Said(a[k], b[l])
  }

  lemma {:induction false} FoldedNames(value: Json, names: seq<string>)
    requires value.Object? && CaseFree(value) && forall n | n in names :: n in value.members
    ensures forall n | n in names ::
              Lower(n) in FoldNames(value, names) && FoldNames(value, names)[Lower(n)] == FoldCase(value.members[n])
    ensures forall l | l in FoldNames(value, names) :: exists n | n in names :: Lower(n) == l
    decreases |names|
  {
    hide Lower, FoldCase;
    if names != [] {
      var last := names[|names| - 1];
      FoldedNames(value, names[..|names| - 1]);
      assert forall n | n in names :: n in names[..|names| - 1] || n == last;
      forall l | l in FoldNames(value, names) ensures exists n | n in names :: Lower(n) == l {
        if l == Lower(last) {
          assert last in names;
        } else {
          assert l in FoldNames(value, names[..|names| - 1]);
          var n :| n in names[..|names| - 1] && Lower(n) == l;
          assert n in names;
        }
      }
    }
  }

  lemma FoldedMembers(value: Json)
    requires value.Object? && CaseFree(value)
    ensures FoldCase(value).Object?
    ensures forall n | n in value.members ::
              Lower(n) in FoldCase(value).members && FoldCase(value).members[Lower(n)] == FoldCase(value.members[n])
    ensures forall l | l in FoldCase(value).members :: exists n | n in value.members :: Lower(n) == l
  {
    hide Lower, T.Sorted, FoldNames;
    FoldedNames(value, T.Sorted(value.members.Keys));
    assert FoldCase(value) == Object(FoldNames(value, T.Sorted(value.members.Keys)));
  }

  lemma FoldShape(value: Json)
    ensures FoldCase(value).Object? <==> value.Object?
    ensures FoldCase(value).Array? <==> value.Array?
    ensures !value.Object? && !value.Array? ==> FoldCase(value) == value
  {
    hide T.Sorted, FoldNames;
  }

  // Folding the case of both leaves the containment there was up to case.
  lemma {:induction false} FoldedContained(a: Json, b: Json)
    requires CaseFree(a) && CaseFree(b)
    ensures Contained(FoldCase(a), FoldCase(b), false) <==> Said(a, b)
    decreases a, 1
  {
    if a.Object? && b.Object? {
      FoldedMembersContained(a, b);
    } else if a.Array? && b.Array? {
      FoldedItemsContained(a, b);
    } else {
      FoldShape(a);
      FoldShape(b);
      hide FoldCase;
    }
  }

  lemma {:induction false} FoldedItemsContained(a: Json, b: Json)
    requires CaseFree(a) && CaseFree(b) && a.Array? && b.Array?
    ensures Contained(FoldCase(a), FoldCase(b), false) <==> Said(a, b)
    decreases a, 0
  {
    var x, y := FoldCase(a), FoldCase(b);
    assert x.Array? && |x.items| == |a.items| && forall i | 0 <= i < |a.items| :: x.items[i] == FoldCase(a.items[i]);
    assert y.Array? && |y.items| == |b.items| && forall i | 0 <= i < |b.items| :: y.items[i] == FoldCase(b.items[i]);
    hide FoldCase;
    forall i | 0 <= i < |a.items| && i < |b.items|
      ensures Contained(x.items[i], y.items[i], false) <==> Said(a.items[i], b.items[i])
    {
      FoldedContained(a.items[i], b.items[i]);
    }
  }

  lemma {:induction false} FoldedMembersContained(a: Json, b: Json)
    requires CaseFree(a) && CaseFree(b) && a.Object? && b.Object?
    ensures Contained(FoldCase(a), FoldCase(b), false) <==> Said(a, b)
    decreases a, 0, 2
  {
    FoldShape(a);
    FoldShape(b);
    var x, y := FoldCase(a).members, FoldCase(b).members;
    assert Contained(FoldCase(a), FoldCase(b), false) <==>
           forall m | m in x :: m in y && Contained(x[m], y[m], false) by {
      hide FoldCase;
    }
    hide FoldCase, Contained, CaseFree, Lower;
    if forall m | m in x :: m in y && Contained(x[m], y[m], false) {
      forall k | k in a.members ensures exists l | l in b.members :: SaidAs(a.members, k, b.members, l) {
        FoldedIsSaid(a, b, k);
      }
    }
    if Said(a, b) {
      forall m | m in x ensures m in y && Contained(x[m], y[m], false) {
        SaidIsFolded(a, b, m);
      }
    }
  }

  lemma {:induction false} FoldedIsSaid(a: Json, b: Json, k: string)
    requires CaseFree(a) && CaseFree(b) && a.Object? && b.Object? && k in a.members
    requires FoldCase(a).Object? && FoldCase(b).Object?
    requires var x, y := FoldCase(a).members, FoldCase(b).members;
             forall m | m in x :: m in y && Contained(x[m], y[m], false)
    ensures exists l | l in b.members :: SaidAs(a.members, k, b.members, l)
    decreases a, 0, 1
  {
    assert CaseFree(a.members[k]);
    FoldedMembers(a);
    FoldedMembers(b);
    hide Lower, FoldCase, Contained;
    var l :| l in b.members && Lower(l) == Lower(k);
    assert CaseFree(b.members[l]);
    hide CaseFree;
    FoldedContained(a.members[k], b.members[l]);
    assert SaidAs(a.members, k, b.members, l);
  }

  lemma {:induction false} SaidIsFolded(a: Json, b: Json, m: string)
    requires CaseFree(a) && CaseFree(b) && a.Object? && b.Object? && Said(a, b)
    requires FoldCase(a).Object? && FoldCase(b).Object? && m in FoldCase(a).members
    ensures m in FoldCase(b).members && Contained(FoldCase(a).members[m], FoldCase(b).members[m], false)
    decreases a, 0, 1
  {
    hide Lower, FoldCase, Contained, Said, CaseFree;
    FoldedMembers(a);
    var k :| k in a.members && Lower(k) == m;
    var l := SaidMember(a, b, k);
    FoldedMembers(b);
    FreeWithin(a, k);
    FreeWithin(b, l);
    FoldedContained(a.members[k], b.members[l]);
  }

  lemma SaidMember(a: Json, b: Json, k: string) returns (l: string)
    requires a.Object? && b.Object? && Said(a, b) && k in a.members
    ensures l in b.members && Lower(l) == Lower(k) && Said(a.members[k], b.members[l])
  {
    hide Lower;
    l :| l in b.members && SaidAs(a.members, k, b.members, l);
  }

  lemma FreeWithin(value: Json, k: string)
    requires value.Object? && CaseFree(value) && k in value.members
    ensures CaseFree(value.members[k])
  {
    hide Lower;
  }

  /** The oracle is exact: it reports nothing lost exactly where everything sent came back, up to the case of
      names and whatever else came back with it. */
  lemma OmitsExactly(render: Render, sent: Json, back: Json)
    requires CaseFree(sent) && CaseFree(back)
    ensures Omitted(render, sent, back) == [] <==> Said(sent, back)
  {
    hide Lost, Contained, Said, FoldCase, CaseFree;
    LostNothing(render, FoldCase(sent), FoldCase(back), "");
    FoldedContained(sent, back);
  }

  lemma {:induction false} SaidOfItself(value: Json)
    ensures Said(value, value)
    decreases value
  {
    match value
    case Object(members) =>
      forall k | k in members ensures exists l | l in members :: SaidAs(members, k, members, l) {
        SaidOfItself(members[k]);
        assert SaidAs(members, k, members, k);
      }
    case Array(items) =>
      forall i | 0 <= i < |items| ensures Said(items[i], items[i]) {
        SaidOfItself(items[i]);
      }
    case _ =>
  }

  /** A build that keeps what another keeps of a third keeps it of the third. */
  lemma {:induction false} SaidOn(a: Json, b: Json, c: Json)
    requires Said(a, b) && Said(b, c)
    ensures Said(a, c)
    decreases a
  {
    hide Lower;
    match a
    case Object(members) =>
      forall k | k in members ensures exists m | m in c.members :: SaidAs(members, k, c.members, m) {
        var l :| l in b.members && SaidAs(members, k, b.members, l);
        var m :| m in c.members && SaidAs(b.members, l, c.members, m);
        SaidOn(members[k], b.members[l], c.members[m]);
        assert SaidAs(members, k, c.members, m);
      }
    case Array(items) =>
      forall i | 0 <= i < |items| ensures Said(items[i], c.items[i]) {
        SaidOn(items[i], b.items[i], c.items[i]);
      }
    case _ =>
  }
}
