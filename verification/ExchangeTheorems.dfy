/** What reading and writing promise each other. */
module ExchangeTheorems {
  import opened Wrappers
  import opened Json
  import opened Path
  import opened Names
  import opened Envelope
  import opened EnvelopeTheorems
  import opened Readings
  import opened Messages
  import opened Exchange
  import T = Text

  /** A message of a known, unpinned type that parses is refused exactly where one of its nodes is both named
      in upper case and first absent from the round trip, and is understood otherwise. */
  lemma RefusedExactly(raw: Raw, typeName: string, m: Message)
    requires Parsed(raw) && Clean(raw) && Lowered(raw).Object?
    requires HasText(Lowered(raw).members, "type") && Lowered(raw).members["type"].text == typeName
    requires typeName in KNOWN && Pinned(typeName).None? && FromMembers(Lowered(raw).members) == Some(m)
    ensures var refused := exists address ::
              Marked(raw, address) && FirstAbsent(Lowered(raw), Object(m.ToMembers()), address);
            && (refused <==> ReadOutcome(raw).Ok? && ReadOutcome(raw).value.RefusedMembers?)
            && (!refused <==> ReadOutcome(raw) == Ok(Understood(m)))
  {
    hide Lowered, CriticalBelow, UnknownBelow, FirstFault, FromMembers, Message.ToMembers, Marked, FirstAbsent;
    FaultFreeIsClean(raw);
    CriticalAndUnknown(raw, Object(m.ToMembers()));
  }

  // Nothing is absent from itself.
  lemma {:induction false} NothingUnknown(value: Json, path: string)
    ensures UnknownBelow(value, value, path) == {}
    decreases value
  {
    hide Join;
    match value
    case Object(members) =>
      forall k | k in members ensures UnknownBelow(members[k], members[k], Join(path, k)) == {} {
        NothingUnknown(members[k], Join(path, k));
      }
    case Array(items) =>
      forall i | 0 <= i < |items| ensures UnknownBelow(items[i], items[i], Join(path, T.Decimal(i))) == {} {
        NothingUnknown(items[i], Join(path, T.Decimal(i)));
      }
    case _ =>
  }

  // ---- Listings ----------------------------------------------------------------------------------------

  // A value whose names are well formed, no two of one object differing only in case.
  predicate CleanValue(value: Json)
  {
    match value
    case Object(members) =>
      && (forall k | k in members :: Classify(k).Some? && CleanValue(members[k]))
      && (forall k, l | k in members && l in members && Lower(k) == Lower(l) :: k == l)
    case Array(items) => forall i | 0 <= i < |items| :: CleanValue(items[i])
    case _ => true
  }

  // A member that lowers to this name.
  ghost function NameFor(members: Members, lowered: string): (k: string)
    requires exists k | k in members :: Lower(k) == lowered
    ensures k in members && Lower(k) == lowered
  {
    var k :| k in members && Lower(k) == lowered;
    k
  }

  // The value with every name in lower case.
  ghost function LowerValue(value: Json): Json
  {
    match value
    case Object(members) =>
      Object(map l | l in (set k | k in members :: Lower(k)) :: LowerValue(members[NameFor(members, l)]))
    case Array(items) => Array(seq(|items|, i requires 0 <= i < |items| => LowerValue(items[i])))
    case _ => value
  }

  predicate MarkedValue(value: Json, address: seq<Segment>)
    decreases |address|
  {
    address != [] &&
    match address[0]
    case Name(name) =>
      value.Object? && exists k | k in value.members :: MarkedMember(value, address, k)
    case Index(index) => value.Array? && index < |value.items| && MarkedValue(value.items[index], address[1..])
  }

  predicate MarkedMember(value: Json, address: seq<Segment>, k: string)
    requires address != [] && address[0].Name? && value.Object? && k in value.members
    decreases |address|, 0
  {
    Lower(k) == address[0].name
    && (if |address| == 1 then IsCritical(k) else MarkedValue(value.members[k], address[1..]))
  }

  // Every listing of a value is clean exactly where the value is, and says the same of it.
  lemma {:induction false} ListedClean(raw: Raw, value: Json)
    requires Lists(raw, value)
    ensures Parsed(raw)
    ensures Clean(raw) <==> CleanValue(value)
    decreases value
  {
    hide Lower, Classify;
    match value
    case Object(members) =>
      forall i | 0 <= i < |raw.entries|
        ensures Parsed(raw.entries[i].1)
        ensures Clean(raw.entries[i].1) <==> CleanValue(members[raw.entries[i].0])
      {
        ListedClean(raw.entries[i].1, members[raw.entries[i].0]);
      }
      if Clean(raw) {
        forall k | k in members ensures Classify(k).Some? && CleanValue(members[k]) {
          var i :| 0 <= i < |raw.entries| && raw.entries[i].0 == k;
        }
        forall k, l | k in members && l in members && Lower(k) == Lower(l) ensures k == l {
          var i :| 0 <= i < |raw.entries| && raw.entries[i].0 == k;
          var j :| 0 <= j < |raw.entries| && raw.entries[j].0 == l;
          if i != j {
            assert false;
          }
        }
      }
    case Array(items) =>
      forall i | 0 <= i < |items| ensures Parsed(raw.items[i]) && (Clean(raw.items[i]) <==> CleanValue(items[i])) {
        ListedClean(raw.items[i], items[i]);
      }
    case _ =>
  }

  // The members of a lowered value, name by name.
  lemma MembersOfLowered(value: Json)
    requires value.Object? && CleanValue(value)
    ensures LowerValue(value).Object?
    ensures forall k | k in value.members ::
              && Lower(k) in LowerValue(value).members
              && LowerValue(value).members[Lower(k)] == LowerValue(value.members[k])
    ensures forall l | l in LowerValue(value).members :: exists k | k in value.members :: Lower(k) == l
  {
    hide Lower, Classify;
    forall k | k in value.members ensures NameFor(value.members, Lower(k)) == k {
    }
  }

  lemma {:induction false} ListedLowered(raw: Raw, value: Json)
    requires Lists(raw, value) && Clean(raw) && CleanValue(value)
    ensures Lowered(raw) == LowerValue(value)
    decreases value, 1
  {
    match value
    case Object(members) => ListedMembersLowered(raw, value);
    case Array(items) =>
      forall i | 0 <= i < |items| ensures Lowered(raw.items[i]) == LowerValue(items[i]) {
        ListedLowered(raw.items[i], items[i]);
      }
    case _ =>
  }

  lemma {:induction false} ListedMembersLowered(raw: Raw, value: Json)
    requires Lists(raw, value) && Clean(raw) && CleanValue(value) && value.Object?
    ensures Lowered(raw) == LowerValue(value)
    decreases value, 0
  {
    EntriesLowered(raw, |raw.entries|);
    MembersOfLowered(value);
    var a, b := LoweredEntries(raw, |raw.entries|), LowerValue(value).members;
    assert Lowered(raw) == Object(a);
    hide Lower, Classify, Lowered, LowerValue, LoweredEntries;
    forall i | 0 <= i < |raw.entries|
      ensures Lowered(raw.entries[i].1) == LowerValue(value.members[raw.entries[i].0])
    {
      ListedLowered(raw.entries[i].1, value.members[raw.entries[i].0]);
    }
    hide Clean, CleanValue;
    SameMembers(raw.entries, value.members, a, b);
  }

  lemma SameMembers(entries: seq<(string, Raw)>, members: Members, a: Members, b: Members)
    requires forall i | 0 <= i < |entries| :: entries[i].0 in members
    requires forall k | k in members :: exists i | 0 <= i < |entries| :: entries[i].0 == k
    requires forall i | 0 <= i < |entries| ::
               Lower(entries[i].0) in a && Lower(entries[i].0) in b && a[Lower(entries[i].0)] == b[Lower(entries[i].0)]
    requires forall l | l in a :: exists i | 0 <= i < |entries| :: l == Lower(entries[i].0)
    requires forall l | l in b :: exists k | k in members :: Lower(k) == l
    ensures a == b
  {
    hide Lower;
    forall l | l in b ensures l in a {
      var k :| k in members && Lower(k) == l;
      var i :| 0 <= i < |entries| && entries[i].0 == k;
    }
    forall l | l in a ensures l in b && a[l] == b[l] {
      var i :| 0 <= i < |entries| && l == Lower(entries[i].0);
    }
  }

  lemma {:induction false} ListedMarked(raw: Raw, value: Json, address: seq<Segment>)
    requires Lists(raw, value)
    ensures Marked(raw, address) <==> MarkedValue(value, address)
    decreases |address|
  {
    hide Lower, Classify;
    if address != [] {
      match address[0]
      case Index(index) =>
        if raw.RawArray? && value.Array? && index < |raw.items| {
          ListedMarked(raw.items[index], value.items[index], address[1..]);
        }
      case Name(name) =>
        if value.Object? {
          forall i | 0 <= i < |raw.entries|
            ensures MarkedEntry(raw, address, i) <==> MarkedMember(value, address, raw.entries[i].0)
          {
            if |address| > 1 {
              ListedMarked(raw.entries[i].1, value.members[raw.entries[i].0], address[1..]);
            }
          }
        }
    }
  }

  lemma ListedCritical(a: Raw, b: Raw, value: Json)
    requires Lists(a, value) && Lists(b, value)
    ensures CriticalBelow(a, "") == CriticalBelow(b, "")
  {
    hide Lists, CriticalBelow, Marked, MarkedValue, Below;
    forall p ensures p in CriticalBelow(a, "") <==> p in CriticalBelow(b, "") {
      CriticalAreMarked(a, "", p);
      CriticalAreMarked(b, "", p);
      if PathOfMarked(a, "", p) {
        var address :| Marked(a, address) && p == Below("", address);
        ListedMarked(a, value, address);
        ListedMarked(b, value, address);
      }
      if PathOfMarked(b, "", p) {
        var address :| Marked(b, address) && p == Below("", address);
        ListedMarked(a, value, address);
        ListedMarked(b, value, address);
      }
    }
  }

  /** The order of members carries no meaning, at any depth: two listings of one value read alike, or, where
      the value is not clean, both fault. */
  lemma OrderIsNothing(a: Raw, b: Raw, value: Json)
    requires Lists(a, value) && Lists(b, value)
    ensures CleanValue(value) ==> ReadOutcome(a) == ReadOutcome(b)
    ensures !CleanValue(value) ==> ReadOutcome(a).Err? && ReadOutcome(b).Err?
  {
    hide Lists, CriticalBelow, Lowered, LowerValue, CleanValue, Clean, FirstFault, Weigh;
    ListedClean(a, value);
    ListedClean(b, value);
    FaultFreeIsClean(a);
    FaultFreeIsClean(b);
    if CleanValue(value) {
      ListedLowered(a, value);
      ListedLowered(b, value);
      ListedCritical(a, b, value);
    }
  }

  // ---- Casing ------------------------------------------------------------------------------------------

  // `b` is `a` with some of its members' names in lower case.
  predicate Uncapitalised(a: Raw, b: Raw)
  {
    match a
    case RawObject(entries) =>
      && b.RawObject? && |b.entries| == |entries|
      && forall i | 0 <= i < |entries| ::
           && (b.entries[i].0 == entries[i].0 || b.entries[i].0 == Lower(entries[i].0))
           && Uncapitalised(entries[i].1, b.entries[i].1)
    case RawArray(items) =>
      && b.RawArray? && |b.items| == |items|
      && forall i | 0 <= i < |items| :: Uncapitalised(items[i], b.items[i])
    case RawOther(_) => b == a
  }

  lemma {:induction false} UncapitalisedClean(a: Raw, b: Raw)
    requires Clean(a) && Uncapitalised(a, b)
    ensures Clean(b)
    ensures Lowered(b) == Lowered(a)
    decreases a
  {
    hide Lower, Classify;
    match a
    case RawObject(entries) =>
      forall i | 0 <= i < |entries|
        ensures Lower(b.entries[i].0) == Lower(entries[i].0) && Classify(b.entries[i].0).Some?
        ensures Clean(b.entries[i].1) && Lowered(b.entries[i].1) == Lowered(entries[i].1)
      {
        LowerIsPlain(entries[i].0);
        UncapitalisedClean(entries[i].1, b.entries[i].1);
      }
      assert Clean(b);
      SameEntries(a, b, |entries|);
    case RawArray(items) =>
      forall i | 0 <= i < |items| ensures Clean(b.items[i]) && Lowered(b.items[i]) == Lowered(items[i]) {
        UncapitalisedClean(items[i], b.items[i]);
      }
    case RawOther(_) =>
  }

  lemma {:induction false} SameEntries(a: Raw, b: Raw, n: nat)
    requires a.RawObject? && b.RawObject? && n <= |a.entries| == |b.entries|
    requires forall i | 0 <= i < n :: Lower(b.entries[i].0) == Lower(a.entries[i].0)
    requires forall i | 0 <= i < n :: Lowered(b.entries[i].1) == Lowered(a.entries[i].1)
    ensures LoweredEntries(a, n) == LoweredEntries(b, n)
    decreases n
  {
    hide Lower, Lowered;
    if n > 0 {
      SameEntries(a, b, n - 1);
    }
  }

  lemma {:induction false} UncapitalisedMarked(a: Raw, b: Raw, address: seq<Segment>)
    requires Clean(a) && Uncapitalised(a, b) && Marked(b, address)
    ensures Marked(a, address)
    decreases |address|
  {
    hide Lower, Classify;
    match address[0]
    case Index(index) =>
      UncapitalisedMarked(a.items[index], b.items[index], address[1..]);
    case Name(name) =>
      var i :| 0 <= i < |b.entries| && MarkedEntry(b, address, i);
      LowerIsPlain(a.entries[i].0);
      if |address| > 1 {
        UncapitalisedMarked(a.entries[i].1, b.entries[i].1, address[1..]);
      }
      assert MarkedEntry(a, address, i);
  }

  lemma UncapitalisedCritical(a: Raw, b: Raw)
    requires Clean(a) && Uncapitalised(a, b)
    ensures CriticalBelow(b, "") <= CriticalBelow(a, "")
  {
    hide CriticalBelow, Marked, Uncapitalised, Clean, Below;
    forall p | p in CriticalBelow(b, "") ensures p in CriticalBelow(a, "") {
      var address := MarkedOf(b, "", p);
      UncapitalisedMarked(a, b, address);
      MarkedIsCritical(a, "", address);
    }
  }

  /** Case marks criticality and nothing else: a message understood is understood alike with any of its
      names in lower case, unless its type is one whose marks are pinned. */
  lemma CasingIsOnlyCriticality(a: Raw, b: Raw, m: Message)
    requires Uncapitalised(a, b) && ReadOutcome(a) == Ok(Understood(m)) && Pinned(m.TypeName()).None?
    ensures ReadOutcome(b) == Ok(Understood(m))
  {
    hide CriticalBelow, UnknownBelow, Uncapitalised, Clean, Lowered, FirstFault, Message.ToMembers;
    FaultFreeIsClean(a);
    UncapitalisedClean(a, b);
    FaultFreeIsClean(b);
    UncapitalisedCritical(a, b);
    TypeIsRead(Lowered(a).members, m);
  }

  lemma TypeIsRead(members: Members, m: Message)
    requires FromMembers(members) == Some(m)
    ensures HasText(members, "type") && members["type"].text == m.TypeName()
  {
  }

  // ---- Write, then read --------------------------------------------------------------------------------

  // The parts of a message kept as raw JSON.
  predicate CleanMessage(m: Message)
  {
    match m
    case Fact(entry) => CleanEntry(entry)
    case Reading(entry) => CleanEntry(entry)
    case Configuration(document, capabilities) =>
      CleanValue(Object(document)) && (capabilities.Some? ==> CleanValue(Object(capabilities.value)))
    case Curves(curve, _, _) => curve.Some? ==> CleanValue(curve.value)
    case Load(document) => CleanValue(document)
    case _ => true
  }

  predicate CleanEntry(entry: Entry)
  {
    CleanValue(Object(entry.traits)) && (entry.value.Some? ==> CleanValue(entry.value.value))
  }

  ghost function LowerMembers(m: Members): Members
  {
    LowerValue(Object(m)).members
  }

  ghost function LowerEntry(entry: Entry): Entry
  {
    entry.(traits := LowerMembers(entry.traits),
           value := if entry.value.Some? then Some(LowerValue(entry.value.value)) else None)
  }

  // The message with the names in its raw parts in lower case.
  ghost function LowerMessage(m: Message): Message
  {
    match m
    case Fact(entry) => Fact(LowerEntry(entry))
    case Reading(entry) => Reading(LowerEntry(entry))
    case Configuration(document, capabilities) =>
      Configuration(LowerMembers(document),
                    if capabilities.Some? then Some(LowerMembers(capabilities.value)) else None)
    case Curves(curve, _, _) => m.(curve := if curve.Some? then Some(LowerValue(curve.value)) else None)
    case Load(document) => Load(LowerValue(document))
    case _ => m
  }
}
