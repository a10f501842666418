/** Which nodes the envelope's strings are. */
module EnvelopeTheorems {
  import opened Wrappers
  import opened Json
  import opened Path
  import opened Nodes
  import opened Names
  import opened Envelope
  import T = Text

  // ---- What reads without a fault ----------------------------------------------------------------------

  // Every name is well formed, and no two names of one object differ only in case, at any depth.
  predicate Clean(raw: Raw)
  {
    match raw
    case RawObject(entries) =>
      && (forall i | 0 <= i < |entries| :: Classify(entries[i].0).Some? && Clean(entries[i].1))
      && (forall i, j | 0 <= i < j < |entries| :: Lower(entries[i].0) != Lower(entries[j].0))
    case RawArray(items) => forall i | 0 <= i < |items| :: Clean(items[i])
    case RawOther(_) => true
  }

  // What a parser leaves as it is carries no members of its own.
  predicate Parsed(raw: Raw)
  {
    match raw
    case RawObject(entries) => forall i | 0 <= i < |entries| :: Parsed(entries[i].1)
    case RawArray(items) => forall i | 0 <= i < |items| :: Parsed(items[i])
    case RawOther(value) => !value.Object? && !value.Array?
  }

  lemma {:induction false} FaultFreeIsClean(raw: Raw)
    ensures FirstFault(raw).None? <==> Clean(raw)
    decreases raw, 1
  {
    match raw
    case RawObject(entries) =>
      hide Lower, Classify;
      NoFaultAmong(raw, |entries|);
      if FirstFault(raw).None? {
        forall i, j | 0 <= i < j < |entries| ensures Lower(entries[i].0) != Lower(entries[j].0) {
          assert !Repeats(raw, j);
        }
      }
    case RawArray(items) =>
      NoFaultAmongItems(raw, |items|);
    case RawOther(_) =>
  }

  lemma {:induction false} NoFaultAmong(raw: Raw, n: nat)
    requires raw.RawObject? && n <= |raw.entries|
    ensures FaultAmong(raw, n).None? <==>
            forall i | 0 <= i < n :: Classify(raw.entries[i].0).Some? && !Repeats(raw, i) && Clean(raw.entries[i].1)
    decreases raw, 0, n
  {
    hide Classify, Repeats, Clean;
    if n > 0 {
      NoFaultAmong(raw, n - 1);
      FaultFreeIsClean(raw.entries[n - 1].1);
    }
  }

  lemma {:induction false} NoFaultAmongItems(raw: Raw, n: nat)
    requires raw.RawArray? && n <= |raw.items|
    ensures FaultAmongItems(raw, n).None? <==> forall i | 0 <= i < n :: Clean(raw.items[i])
    decreases raw, 0, n
  {
    hide Clean;
    if n > 0 {
      NoFaultAmongItems(raw, n - 1);
      FaultFreeIsClean(raw.items[n - 1]);
    }
  }

  // The members of a clean object are its entries, each under its lowered name.
  lemma EntriesLowered(raw: Raw, n: nat)
    requires raw.RawObject? && Clean(raw) && n <= |raw.entries|
    ensures forall i | 0 <= i < n ::
              Lower(raw.entries[i].0) in LoweredEntries(raw, n)
              && LoweredEntries(raw, n)[Lower(raw.entries[i].0)] == Lowered(raw.entries[i].1)
    ensures forall k | k in LoweredEntries(raw, n) :: exists i | 0 <= i < n :: k == Lower(raw.entries[i].0)
  {
    hide LoweredEntries;
    AllEntriesLowered(raw, n);
    OnlyEntriesLowered(raw, n);
  }

  lemma {:induction false} AllEntriesLowered(raw: Raw, n: nat)
    requires raw.RawObject? && Clean(raw) && n <= |raw.entries|
    ensures forall i | 0 <= i < n ::
              Lower(raw.entries[i].0) in LoweredEntries(raw, n)
              && LoweredEntries(raw, n)[Lower(raw.entries[i].0)] == Lowered(raw.entries[i].1)
    decreases n
  {
    hide Lower, Classify, Lowered;
    if n > 0 {
      AllEntriesLowered(raw, n - 1);
      assert !Repeats(raw, n - 1);
    }
  }

  lemma {:induction false} OnlyEntriesLowered(raw: Raw, n: nat)
    requires raw.RawObject? && n <= |raw.entries|
    ensures forall k | k in LoweredEntries(raw, n) :: exists i | 0 <= i < n :: k == Lower(raw.entries[i].0)
    decreases n
  {
    hide Lower, Lowered;
    if n > 0 {
      OnlyEntriesLowered(raw, n - 1);
    }
  }

  // ---- Nodes -------------------------------------------------------------------------------------------

  // Every member is named by a word a dotted path can carry.
  predicate Worded(value: Json)
  {
    match value
    case Object(members) => forall k | k in members :: k != "" && '.' !in k && Worded(members[k])
    case Array(items) => forall i | 0 <= i < |items| :: Worded(items[i])
    case _ => true
  }

  // The node at `address` is a member named in upper case.
  predicate Marked(raw: Raw, address: seq<Segment>)
    decreases |address|
  {
    address != [] &&
    match address[0]
    case Name(name) =>
      raw.RawObject? && exists i | 0 <= i < |raw.entries| :: MarkedEntry(raw, address, i)
    case Index(index) => raw.RawArray? && index < |raw.items| && Marked(raw.items[index], address[1..])
  }

  predicate MarkedEntry(raw: Raw, address: seq<Segment>, i: nat)
    requires address != [] && address[0].Name? && raw.RawObject? && i < |raw.entries|
    decreases |address|, 0
  {
    Lower(raw.entries[i].0) == address[0].name
    && (if |address| == 1 then IsCritical(raw.entries[i].0) else Marked(raw.entries[i].1, address[1..]))
  }

  // The node at `address` is a member of `input` that `round` lacks, with all above it in both.
  predicate FirstAbsent(input: Json, round: Json, address: seq<Segment>)
    decreases |address|
  {
    address != [] &&
    match address[0]
    case Name(name) =>
      && input.Object? && round.Object? && name in input.members
      && if |address| == 1 then name !in round.members
         else name in round.members && FirstAbsent(input.members[name], round.members[name], address[1..])
    case Index(index) =>
      && input.Array? && round.Array? && index < |input.items| && index < |round.items|
      && FirstAbsent(input.items[index], round.items[index], address[1..])
  }

  ghost predicate PathOfMarked(raw: Raw, path: string, p: string)
  {
    exists address :: Marked(raw, address) && p == Below(path, address)
  }

  ghost predicate PathOfAbsent(input: Json, round: Json, path: string, p: string)
  {
    exists address :: FirstAbsent(input, round, address) && p == Below(path, address)
  }

  lemma BelowStep(path: string, s: Segment, address: seq<Segment>)
    ensures Below(path, [s] + address) == Below(Join(path, SegmentWord(s)), address)
    ensures Below(path, []) == path
  {
    assert ([s] + address)[1..] == address;
  }

  // The strings collected as unknown are the paths of the members first absent from the round trip.
  lemma UnknownAreAbsent(input: Json, round: Json, path: string, p: string)
    ensures p in UnknownBelow(input, round, path) <==> PathOfAbsent(input, round, path, p)
  {
    hide Join, T.Decimal;
    if p in UnknownBelow(input, round, path) {
      var address := AbsentOf(input, round, path, p);
    }
    if PathOfAbsent(input, round, path, p) {
      var address :| FirstAbsent(input, round, address) && p == Below(path, address);
      AbsentIsUnknown(input, round, path, address);
    }
  }

  // Likewise the strings recorded as critical are the paths of the members named in upper case.
  lemma CriticalAreMarked(raw: Raw, path: string, p: string)
    ensures p in CriticalBelow(raw, path) <==> PathOfMarked(raw, path, p)
  {
    hide CriticalBelow, Below, Marked;
    if p in CriticalBelow(raw, path) {
      var address := MarkedOf(raw, path, p);
    }
    if PathOfMarked(raw, path, p) {
      var address :| Marked(raw, address) && p == Below(path, address);
      MarkedIsCritical(raw, path, address);
    }
  }

  lemma {:induction false} AbsentOf(input: Json, round: Json, path: string, p: string) returns (address: seq<Segment>)
    requires p in UnknownBelow(input, round, path)
    ensures FirstAbsent(input, round, address) && p == Below(path, address)
    decreases input
  {
    hide Join, T.Decimal;
    if input.Object? && round.Object? {
      if k :| k in input.members && k !in round.members && p == Join(path, k) {
        BelowStep(path, Name(k), []);
        BelowStep(Join(path, k), Name(k), []);
        address := [Name(k)];
        assert [Name(k)] + [] == [Name(k)];
      } else {
        var k :| k in input.members && k in round.members
                 && p in UnknownBelow(input.members[k], round.members[k], Join(path, k));
        var rest := AbsentOf(input.members[k], round.members[k], Join(path, k), p);
        BelowStep(path, Name(k), rest);
        address := [Name(k)] + rest;
        assert address[1..] == rest;
      }
    } else {
      var i :| 0 <= i < |input.items| && i < |round.items|
               && p in UnknownBelow(input.items[i], round.items[i], Join(path, T.Decimal(i)));
      var rest := AbsentOf(input.items[i], round.items[i], Join(path, T.Decimal(i)), p);
      BelowStep(path, Index(i), rest);
      address := [Index(i)] + rest;
      assert address[1..] == rest;
    }
  }

  lemma {:induction false} AbsentIsUnknown(input: Json, round: Json, path: string, address: seq<Segment>)
    requires FirstAbsent(input, round, address)
    ensures Below(path, address) in UnknownBelow(input, round, path)
    decreases |address|
  {
    hide Join, T.Decimal;
    match address[0]
    case Name(name) =>
      if |address| == 1 {
        assert Below(path, address) == Join(path, name);
      } else {
        AbsentIsUnknown(input.members[name], round.members[name], Join(path, name), address[1..]);
      }
    case Index(index) =>
      AbsentIsUnknown(input.items[index], round.items[index], Join(path, T.Decimal(index)), address[1..]);
  }

  lemma {:induction false} MarkedOf(raw: Raw, path: string, p: string) returns (address: seq<Segment>)
    requires p in CriticalBelow(raw, path)
    ensures Marked(raw, address) && p == Below(path, address)
    decreases raw, 1
  {
    match raw
    case RawObject(entries) => address := MarkedAmong(raw, |entries|, path, p);
    case RawArray(items) => address := MarkedAmongItems(raw, |items|, path, p);
  }

  lemma {:induction false} MarkedAmong(raw: Raw, n: nat, path: string, p: string) returns (address: seq<Segment>)
    requires raw.RawObject? && n <= |raw.entries| && p in CriticalAmong(raw, n, path)
    ensures Marked(raw, address) && p == Below(path, address)
    decreases raw, 0, n
  {
    hide Join, Lower, Classify;
    var name, value := raw.entries[n - 1].0, raw.entries[n - 1].1;
    var here := Join(path, Lower(name));
    if p in CriticalAmong(raw, n - 1, path) {
      address := MarkedAmong(raw, n - 1, path, p);
    } else if IsCritical(name) && p == here {
      address := [Name(Lower(name))];
      assert MarkedEntry(raw, address, n - 1);
      BelowStep(path, Name(Lower(name)), []);
      BelowStep(here, Name(Lower(name)), []);
      assert [Name(Lower(name))] + [] == address;
    } else {
      var rest := MarkedOf(value, here, p);
      address := [Name(Lower(name))] + rest;
      assert address[1..] == rest;
      assert MarkedEntry(raw, address, n - 1);
      BelowStep(path, Name(Lower(name)), rest);
    }
  }

  lemma {:induction false} MarkedAmongItems(raw: Raw, n: nat, path: string, p: string) returns (address: seq<Segment>)
    requires raw.RawArray? && n <= |raw.items| && p in CriticalAmongItems(raw, n, path)
    ensures Marked(raw, address) && p == Below(path, address)
    decreases raw, 0, n
  {
    hide Join, T.Decimal;
    if p in CriticalAmongItems(raw, n - 1, path) {
      address := MarkedAmongItems(raw, n - 1, path, p);
    } else {
      var rest := MarkedOf(raw.items[n - 1], Join(path, T.Decimal(n - 1)), p);
      address := [Index(n - 1)] + rest;
      assert address[1..] == rest;
      BelowStep(path, Index(n - 1), rest);
    }
  }

  lemma {:induction false} MarkedIsCritical(raw: Raw, path: string, address: seq<Segment>)
    requires Marked(raw, address)
    ensures Below(path, address) in CriticalBelow(raw, path)
    decreases |address|
  {
    hide Join, T.Decimal, Lower, Classify;
    var next := Join(path, SegmentWord(address[0]));
    match address[0]
    case Name(name) =>
      var i :| 0 <= i < |raw.entries| && MarkedEntry(raw, address, i);
      if |address| == 1 {
        assert Below(path, address) == next;
      } else {
        MarkedIsCritical(raw.entries[i].1, next, address[1..]);
      }
      CriticalKept(raw, i, |raw.entries|, path);
    case Index(index) =>
      MarkedIsCritical(raw.items[index], next, address[1..]);
      CriticalItemKept(raw, index, |raw.items|, path);
  }

  lemma {:induction false} CriticalKept(raw: Raw, i: nat, n: nat, path: string)
    requires raw.RawObject? && i < n <= |raw.entries|
    ensures var here := Join(path, Lower(raw.entries[i].0));
            && CriticalBelow(raw.entries[i].1, here) <= CriticalAmong(raw, n, path)
            && (IsCritical(raw.entries[i].0) ==> here in CriticalAmong(raw, n, path))
    decreases n
  {
    hide Join, Lower, Classify, CriticalBelow;
    if i < n - 1 {
      CriticalKept(raw, i, n - 1, path);
    }
  }

  lemma {:induction false} CriticalItemKept(raw: Raw, i: nat, n: nat, path: string)
    requires raw.RawArray? && i < n <= |raw.items|
    ensures CriticalBelow(raw.items[i], Join(path, T.Decimal(i))) <= CriticalAmongItems(raw, n, path)
    decreases n
  {
    hide Join, T.Decimal, CriticalBelow;
    if i < n - 1 {
      CriticalItemKept(raw, i, n - 1, path);
    }
  }

  // ---- One path, one node ------------------------------------------------------------------------------

  lemma {:induction false} AbsentIsNode(input: Json, round: Json, address: seq<Segment>)
    requires FirstAbsent(input, round, address)
    ensures IsNode(input, address)
    decreases |address|
  {
    if |address| > 1 {
      match address[0]
      case Name(name) => AbsentIsNode(input.members[name], round.members[name], address[1..]);
      case Index(index) => AbsentIsNode(input.items[index], round.items[index], address[1..]);
    }
  }

  lemma {:induction false} MarkedIsNode(raw: Raw, address: seq<Segment>)
    requires Clean(raw) && Marked(raw, address)
    ensures IsNode(Lowered(raw), address)
    decreases |address|
  {
    hide Lower, Classify;
    match address[0]
    case Name(name) =>
      var i :| 0 <= i < |raw.entries| && MarkedEntry(raw, address, i);
      EntriesLowered(raw, |raw.entries|);
      if |address| > 1 {
        MarkedIsNode(raw.entries[i].1, address[1..]);
      }
      assert IsNode(Lowered(raw.entries[i].1), address[1..]);
      hide Lowered, Marked;
    case Index(index) =>
      MarkedIsNode(raw.items[index], address[1..]);
  }

  lemma {:induction false} LoweredIsWorded(raw: Raw)
    requires Clean(raw) && Parsed(raw)
    ensures Worded(Lowered(raw))
  {
    match raw
    case RawObject(entries) =>
      EntriesLowered(raw, |entries|);
      var members := LoweredEntries(raw, |entries|);
      forall k | k in members ensures k != "" && '.' !in k && Worded(members[k]) {
        var i :| 0 <= i < |entries| && k == Lower(entries[i].0);
        LowerIsPlain(entries[i].0);
        LoweredIsWorded(entries[i].1);
      }
    case RawArray(items) =>
      forall i | 0 <= i < |items| ensures Worded(Lowered(items[i])) {
        LoweredIsWorded(items[i]);
      }
    case RawOther(_) =>
  }

  lemma {:induction false} DigitsHaveNoDot(text: string)
    requires T.AllDigits(text)
    ensures '.' !in text
  {
  }

  function FirstWord(text: string): string
  {
    if text == "" || text[0] == '.' then "" else [text[0]] + FirstWord(text[1..])
  }

  lemma {:induction false} FirstWordIs(word: string, after: string)
    requires '.' !in word && (after == "" || after[0] == '.')
    ensures FirstWord(word + after) == word
  {
    if word == "" {
      assert word + after == after;
    } else {
      assert (word + after)[1..] == word[1..] + after;
      FirstWordIs(word[1..], after);
      assert word == [word[0]] + word[1..];
    }
  }

  lemma SplitAtDot(a: string, b: string, x: string, y: string)
    requires '.' !in a && '.' !in b && a + x == b + y
    requires (x == "" || x[0] == '.') && (y == "" || y[0] == '.')
    ensures a == b && x == y
  {
    FirstWordIs(a, x);
    FirstWordIs(b, y);
    assert x == (a + x)[|a|..] && y == (b + y)[|b|..];
  }

  // What follows the first word of a dotted path.
  function After(address: seq<Segment>): string
    requires address != []
  {
    if |address| == 1 then "" else "." + Dotted(address[1..])
  }

  lemma WordOfNode(value: Json, address: seq<Segment>)
    requires Worded(value) && address != [] && IsNode(value, address)
    ensures SegmentWord(address[0]) != "" && '.' !in SegmentWord(address[0])
    ensures Dotted(address) == SegmentWord(address[0]) + After(address)
  {
    if address[0].Index? {
      DigitsHaveNoDot(T.Decimal(address[0].index));
    }
    DottedSplits(address);
    hide Dotted, After, T.Decimal;
  }

  lemma DottedSplits(address: seq<Segment>)
    requires address != []
    ensures Dotted(address) == SegmentWord(address[0]) + After(address)
  {
    hide SegmentWord;
    if |address| == 1 {
      assert Dotted(address) == SegmentWord(address[0]);
    } else {
      assert SegmentWord(address[0]) + "." + Dotted(address[1..])
          == SegmentWord(address[0]) + ("." + Dotted(address[1..]));
    }
  }

  /** Dotted paths tell the nodes of one value apart: a name of digits cannot be taken for an index, since a
      node is either an object or an array. */
  lemma {:induction false} DottedInjective(value: Json, a: seq<Segment>, b: seq<Segment>)
    requires Worded(value) && IsNode(value, a) && IsNode(value, b)
    requires Dotted(a) == Dotted(b)
    ensures a == b
    decreases |a|
  {
    hide SegmentWord;
    if a == [] {
      if b != [] {
        WordOfNode(value, b);
        assert false;
      }
    } else if b == [] {
      WordOfNode(value, a);
      assert false;
    } else {
      hide Dotted;
      HeadsAgree(value, a, b);
      var child := if a[0].Name? then value.members[a[0].name] else value.items[a[0].index];
      DottedInjective(child, a[1..], b[1..]);
      assert a == [a[0]] + a[1..] && b == [b[0]] + b[1..];
    }
  }

  lemma HeadsAgree(value: Json, a: seq<Segment>, b: seq<Segment>)
    requires Worded(value) && a != [] && b != [] && IsNode(value, a) && IsNode(value, b)
    requires Dotted(a) == Dotted(b)
    ensures a[0] == b[0] && Dotted(a[1..]) == Dotted(b[1..])
  {
    WordOfNode(value, a);
    WordOfNode(value, b);
    hide T.Decimal, Dotted, Worded;
    SplitAtDot(SegmentWord(a[0]), SegmentWord(b[0]), After(a), After(b));
    if a[0].Index? {
      T.DecimalInjective(a[0].index, b[0].index);
    }
    RestAgree(a, b);
  }

  lemma RestAgree(a: seq<Segment>, b: seq<Segment>)
    requires a != [] && b != [] && After(a) == After(b)
    ensures Dotted(a[1..]) == Dotted(b[1..])
  {
    hide T.Decimal;
    if |a| > 1 && |b| > 1 {
      assert After(a)[1..] == Dotted(a[1..]) && After(b)[1..] == Dotted(b[1..]);
    }
  }

  /** Intersecting the recorded strings intersects the nodes: something both marked critical and unknown is
      recorded exactly when one node of the message is both. */
  lemma CriticalAndUnknown(raw: Raw, round: Json)
    requires Clean(raw) && Parsed(raw)
    ensures CriticalBelow(raw, "") * UnknownBelow(Lowered(raw), round, "") != {} <==>
            exists address :: Marked(raw, address) && FirstAbsent(Lowered(raw), round, address)
  {
    hide Lowered, Marked, FirstAbsent, CriticalBelow, UnknownBelow, Worded, IsNode;
    var input := Lowered(raw);
    LoweredIsWorded(raw);
    var both := CriticalBelow(raw, "") * UnknownBelow(input, round, "");
    if both != {} {
      var p :| p in both;
      var a := MarkedOf(raw, "", p);
      var b := AbsentOf(input, round, "", p);
      MarkedIsNode(raw, a);
      AbsentIsNode(input, round, b);
      RootPath(raw, input, round, a, b);
      DottedInjective(input, a, b);
      assert Marked(raw, a) && FirstAbsent(input, round, a);
    }
    if address :| Marked(raw, address) && FirstAbsent(input, round, address) {
      MarkedIsCritical(raw, "", address);
      AbsentIsUnknown(input, round, "", address);
      assert Below("", address) in both;
    }
  }

  lemma RootPath(raw: Raw, input: Json, round: Json, a: seq<Segment>, b: seq<Segment>)
    requires Worded(input) && IsNode(input, a) && IsNode(input, b)
    requires Marked(raw, a) && FirstAbsent(input, round, b)
    ensures Below("", a) == Dotted(a) && Below("", b) == Dotted(b)
  {
    WordOfNode(input, a);
    WordOfNode(input, b);
    BelowIs("", a);
    BelowIs("", b);
  }
}
