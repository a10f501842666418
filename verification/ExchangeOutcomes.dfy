/** Which outcome a message read comes to, said of its names and its members and of nothing the reading computes. */
module ExchangeOutcomes {
  import opened Wrappers
  import opened Json
  import opened Path
  import opened Names
  import opened Nodes
  import opened Envelope
  import opened EnvelopeTheorems
  import opened Readings
  import opened Messages
  import opened Exchange

  // ---- A mark on a member of the message itself --------------------------------------------------------

  // A message as far as it can be one: named well throughout, and an object.
  ghost predicate Formed(raw: Raw)
  {
    Parsed(raw) && Clean(raw) && Lowered(raw).Object?
  }

  ghost predicate Typed(raw: Raw, typeName: string)
  {
    Formed(raw) && HasText(Lowered(raw).members, "type") && Lowered(raw).members["type"].text == typeName
  }

  // A node of an object goes by a word alone only where it is the member of that name.
  lemma AloneIsMember(value: Json, address: seq<Segment>, word: string)
    requires Worded(value) && value.Object? && IsNode(value, address) && address != [] && '.' !in word
    ensures Below("", address) == Dotted(address)
    ensures Dotted(address) == word <==> address == [Name(word)]
  {
    WordOfNode(value, address);
    BelowIs("", address);
    hide Dotted;
    if Dotted(address) == word {
      assert word + "" == SegmentWord(address[0]) + After(address);
      AfterBegins(address);
      SplitAtDot(word, SegmentWord(address[0]), "", After(address));
      assert |address| == 1;
    }
  }

  lemma AfterBegins(address: seq<Segment>)
    requires address != []
    ensures After(address) == "" || After(address)[0] == '.'
  {
  }

  lemma MarkedMembers(raw: Raw, word: string)
    requires Formed(raw) && '.' !in word
    ensures word in CriticalBelow(raw, "") <==> Marked(raw, [Name(word)])
    ensures forall p :: p in CriticalBelow(raw, "") - {word} <==> MarkedBesides(raw, word, p)
  {
    hide CriticalBelow, Lowered, Marked, Dotted, Below, IsNode, Clean, Worded;
    LoweredIsWorded(raw);
    forall address | Marked(raw, address)
      ensures Below("", address) in CriticalBelow(raw, "") && (Below("", address) == word <==> address == [Name(word)])
    {
      MarkedIsNode(raw, address);
      NoMark(raw);
      AloneIsMember(Lowered(raw), address, word);
      MarkedIsCritical(raw, "", address);
    }
    forall p | p in CriticalBelow(raw, "") ensures exists address :: Marked(raw, address) && p == Below("", address) {
      var address := MarkedOf(raw, "", p);
    }
    OneWord(word);
  }

  lemma NoMark(raw: Raw)
    ensures !Marked(raw, [])
  {
  }

  lemma OneWord(word: string)
    ensures Below("", [Name(word)]) == word
  {
    assert [Name(word)][1..] == [];
  }

  // The path of a node named in upper case other than the member of this name.
  ghost predicate MarkedBesides(raw: Raw, word: string, p: string)
  {
    exists address :: Marked(raw, address) && address != [Name(word)] && p == Below("", address)
  }

  ghost predicate AnyMarked(raw: Raw)
  {
    exists address :: Marked(raw, address)
  }

  ghost predicate AnyMarkedBesides(raw: Raw, word: string)
  {
    exists address :: Marked(raw, address) && address != [Name(word)]
  }

  lemma NoFault(raw: Raw)
    requires Formed(raw)
    ensures FirstFault(raw).None?
  {
    FaultFreeIsClean(raw);
  }

  // ---- Short of a type ---------------------------------------------------------------------------------

  /** A value that is not an object, an object without a type, or one whose type is no text, is each its own
      fault. */
  lemma NoMessage(raw: Raw)
    requires Parsed(raw) && Clean(raw)
    ensures ReadOutcome(raw) == Err(NotObject) <==> !Lowered(raw).Object?
    ensures ReadOutcome(raw) == Err(NoType) <==> Lowered(raw).Object? && "type" !in Lowered(raw).members
    ensures ReadOutcome(raw) == Err(TypeNotString) <==>
            && Lowered(raw).Object? && "type" in Lowered(raw).members
            && !Lowered(raw).members["type"].String?
  {
    hide Lowered, CriticalBelow, UnknownBelow, FromMembers, Message.ToMembers, FirstFault;
    FaultFreeIsClean(raw);
  }

  // ---- Unknown types -----------------------------------------------------------------------------------

  /** Every type of a message is known, and no other. */
  lemma KnownIsAType(typeName: string)
    ensures typeName in KNOWN <==> exists m: Message :: m.TypeName() == typeName
  {
    var all := [Hello("", ""), Subscribe(""), Fact(Entry(0, "", map[], "", None, None)),
                Reading(Entry(0, "", map[], "", None, None)), EndOfBatch, Configuration(map[], None), Acts([]), Act(""),
                Curves(None, None, None), Load(Null), TailscaleAct("", None, None, None, None)];
    if typeName in KNOWN {
      assert all[0].TypeName() == "hello" && all[1].TypeName() == "subscribe" && all[2].TypeName() == "fact";
      assert all[3].TypeName() == "reading" && all[4].TypeName() == "end-of-batch";
      assert all[5].TypeName() == "configuration" && all[6].TypeName() == "acts" && all[7].TypeName() == "act";
      assert all[8].TypeName() == "curves" && all[9].TypeName() == "load" && all[10].TypeName() == "tailscale-act";
    }
  }

  /** A message of a type unknown is refused exactly where its type is marked critical, and skipped otherwise. */
  lemma UnknownType(raw: Raw, typeName: string)
    requires Typed(raw, typeName) && typeName !in KNOWN
    ensures ReadOutcome(raw) == Ok(RefusedType(typeName)) <==> Marked(raw, [Name("type")])
    ensures ReadOutcome(raw) == Ok(Outcome.Skipped(typeName)) <==> !Marked(raw, [Name("type")])
  {
    NoFault(raw);
    MarkedMembers(raw, "type");
    hide Lowered, CriticalBelow, FirstFault, Marked, Clean;
  }

  // ---- A type whose marks are pinned -------------------------------------------------------------------

  // What a message comes to that bears only the marks it may.
  ghost predicate Taken(raw: Raw, typeName: string)
    requires Typed(raw, typeName)
  {
    var m := FromMembers(Lowered(raw).members);
    ReadOutcome(raw) == if m.None? then Err(Malformed(typeName)) else Ok(Understood(m.value))
  }

  ghost predicate SurplusFault(raw: Raw, typeName: string, names: iset<string>)
  {
    && ReadOutcome(raw).Err? && ReadOutcome(raw).error.CriticalNotAllowed?
    && ReadOutcome(raw).error.typeName == typeName
    && forall p :: p in ReadOutcome(raw).error.names <==> p in names
  }

  // What the two pins find wrong, and how they say it.
  lemma PinsFind(members: Members, critical: set<string>)
    ensures PinFault("hello", members, critical) ==
            if critical == {} then None else Some(CriticalNotAllowed("hello", critical))
    ensures PinFault("subscribe", members, critical) ==
            if critical - {"topic"} != {} then Some(CriticalNotAllowed("subscribe", critical - {"topic"}))
            else if "topic" in members && "topic" !in critical then Some(CriticalRequired("subscribe", {"topic"}))
            else None
  {
    assert critical - {} == critical;
    var pin := Pinned("subscribe");
    var unmarked := set n | n in pin.value && n in members && n !in critical;
    assert unmarked == if "topic" in members && "topic" !in critical then {"topic"} else {};
  }

  /** A hello marks nothing: where anything in it is marked it is a fault, which names all that is. */
  lemma HelloMarksNothing(raw: Raw)
    requires Typed(raw, "hello")
    ensures AnyMarked(raw) ==> SurplusFault(raw, "hello", iset p | PathOfMarked(raw, "", p))
    ensures !AnyMarked(raw) ==> Taken(raw, "hello")
  {
    NoFault(raw);
    forall p ensures p in CriticalBelow(raw, "") <==> PathOfMarked(raw, "", p) {
      CriticalAreMarked(raw, "", p);
    }
    hide Lowered, CriticalBelow, UnknownBelow, FromMembers, Message.ToMembers, FirstFault, Marked, Clean, Below,
         PinFault;
    PinsFind(Lowered(raw).members, CriticalBelow(raw, ""));
    if AnyMarked(raw) {
      var address :| Marked(raw, address);
      assert PathOfMarked(raw, "", Below("", address));
    } else {
      assert CriticalBelow(raw, "") == {};
    }
  }

  /** A subscribe marks its topic and nothing else: anything else marked is one fault, which names all that is; a
      topic there and not marked is another. */
  lemma SubscribeMarksItsTopic(raw: Raw)
    requires Typed(raw, "subscribe")
    ensures AnyMarkedBesides(raw, "topic") ==>
              SurplusFault(raw, "subscribe", iset p | MarkedBesides(raw, "topic", p))
    ensures !AnyMarkedBesides(raw, "topic") && "topic" in Lowered(raw).members && !Marked(raw, [Name("topic")]) ==>
              ReadOutcome(raw) == Err(CriticalRequired("subscribe", {"topic"}))
    ensures !AnyMarkedBesides(raw, "topic") && ("topic" in Lowered(raw).members ==> Marked(raw, [Name("topic")])) ==>
              Taken(raw, "subscribe")
  {
    NoFault(raw);
    MarkedMembers(raw, "topic");
    var critical, members := CriticalBelow(raw, ""), Lowered(raw).members;
    hide Lowered, CriticalBelow, UnknownBelow, Message.ToMembers, FirstFault, Marked, Clean, Below, IsNode, PinFault;
    assert critical - {"topic"} != {} <==> AnyMarkedBesides(raw, "topic") by {
      if address :| Marked(raw, address) && address != [Name("topic")] {
        assert MarkedBesides(raw, "topic", Below("", address));
      }
      if critical - {"topic"} != {} {
        var p :| p in critical - {"topic"};
      }
    }
    PinsFind(members, critical);
    if FromMembers(members).Some? {
      TopicIsKnown(raw, FromMembers(members).value);
    }
    hide FromMembers;
  }

  // The topic of a subscribe is in its round trip.
  lemma TopicIsKnown(raw: Raw, m: Message)
    requires Typed(raw, "subscribe") && FromMembers(Lowered(raw).members) == Some(m)
    ensures "topic" !in UnknownBelow(Lowered(raw), Object(m.ToMembers()), "")
  {
    var value, round := Lowered(raw), Object(m.ToMembers());
    assert "topic" in round.members;
    LoweredIsWorded(raw);
    hide Lowered, UnknownBelow, FromMembers, Message.ToMembers, Worded, IsNode, Clean, Below, Dotted;
    if "topic" in UnknownBelow(value, round, "") {
      var address := AbsentOf(value, round, "", "topic");
      AbsentIsNode(value, round, address);
      AloneIsMember(value, address, "topic");
      assert false;
    }
  }

  // ---- Any other known type ----------------------------------------------------------------------------

  /** A message of a known type without a pin is malformed exactly where its members cannot be read. */
  lemma MalformedExactly(raw: Raw, typeName: string)
    requires Typed(raw, typeName) && typeName in KNOWN && typeName != "hello" && typeName != "subscribe"
    ensures ReadOutcome(raw) == Err(Malformed(typeName)) <==> FromMembers(Lowered(raw).members).None?
  {
    NoFault(raw);
    hide Lowered, CriticalBelow, UnknownBelow, FromMembers, Message.ToMembers, FirstFault, Clean;
  }

  // ---- A name at fault ---------------------------------------------------------------------------------

  // Some object of the value has a member of this name, written so.
  predicate NamedSomewhere(raw: Raw, name: string)
  {
    match raw
    case RawObject(entries) =>
      exists i | 0 <= i < |entries| :: entries[i].0 == name || NamedSomewhere(entries[i].1, name)
    case RawArray(items) => exists i | 0 <= i < |items| :: NamedSomewhere(items[i], name)
    case RawOther(_) => false
  }

  // Some object of the value has two members of this name, whatever their case.
  predicate TwiceSomewhere(raw: Raw, lowered: string)
  {
    match raw
    case RawObject(entries) =>
      || (exists i, j | 0 <= i < j < |entries| :: Lower(entries[i].0) == lowered == Lower(entries[j].0))
      || (exists i | 0 <= i < |entries| :: TwiceSomewhere(entries[i].1, lowered))
    case RawArray(items) => exists i | 0 <= i < |items| :: TwiceSomewhere(items[i], lowered)
    case RawOther(_) => false
  }

  ghost predicate IsThere(raw: Raw, fault: Fault)
  {
    match fault
    case MalformedName(name) => Classify(name).None? && NamedSomewhere(raw, name)
    case DuplicateName(name) => TwiceSomewhere(raw, name)
    case _ => false
  }

  /** A fault of names says what it is: a name of the value that is malformed, or one an object has twice. */
  lemma {:induction false} FaultIsThere(raw: Raw)
    requires FirstFault(raw).Some?
    ensures IsThere(raw, FirstFault(raw).value)
    decreases raw, 1
  {
    hide Lower, Classify;
    match raw
    case RawObject(entries) => EntryFaultIsThere(raw, |entries|);
    case RawArray(items) => ItemFaultIsThere(raw, |items|);
    case RawOther(_) =>
  }

  lemma {:induction false} EntryFaultIsThere(raw: Raw, n: nat)
    requires raw.RawObject? && n <= |raw.entries| && FaultAmong(raw, n).Some?
    ensures IsThere(raw, FaultAmong(raw, n).value)
    decreases raw, 0, n
  {
    hide Lower, Classify;
    if FaultAmong(raw, n - 1).Some? {
      EntryFaultIsThere(raw, n - 1);
    } else if Classify(raw.entries[n - 1].0).Some? && !Repeats(raw, n - 1) {
      FaultIsThere(raw.entries[n - 1].1);
    } else if Classify(raw.entries[n - 1].0).Some? {
      var j :| 0 <= j < n - 1 && Lower(raw.entries[j].0) == Lower(raw.entries[n - 1].0);
      assert TwiceSomewhere(raw, Lower(raw.entries[n - 1].0));
    }
  }

  lemma {:induction false} ItemFaultIsThere(raw: Raw, n: nat)
    requires raw.RawArray? && n <= |raw.items| && FaultAmongItems(raw, n).Some?
    ensures IsThere(raw, FaultAmongItems(raw, n).value)
    decreases raw, 0, n
  {
    hide Lower, Classify;
    if FaultAmongItems(raw, n - 1).Some? {
      ItemFaultIsThere(raw, n - 1);
    } else {
      FaultIsThere(raw.items[n - 1]);
    }
  }
}
