/** A build and the oracle: what a build reads of what it wrote, and writes again, loses nothing. */
module WireCompatTheorems {
  import opened Wrappers
  import opened Json
  import opened Names
  import opened Envelope
  import opened Messages
  import opened Exchange
  import opened ExchangeTheorems
  import opened WriteRead
  import opened WireCompat

  lemma {:induction false} CleanIsFree(value: Json)
    requires CleanValue(value)
    ensures CaseFree(value)
    decreases value
  {
    hide Lower, Classify;
    match value
    case Object(members) =>
      forall k | k in members ensures CaseFree(members[k]) {
        CleanIsFree(members[k]);
      }
    case Array(items) =>
      forall i | 0 <= i < |items| ensures CaseFree(items[i]) {
        CleanIsFree(items[i]);
      }
    case _ =>
  }

  // What each name of a clean object lowers to, and back.
  lemma NamesLower(members: Members)
    requires CleanValue(Object(members))
    ensures forall k | k in members :: Plain(Lower(k)) && Lower(Lower(k)) == Lower(k)
  {
    hide Lower, Classify;
    forall k | k in members ensures Plain(Lower(k)) && Lower(Lower(k)) == Lower(k) {
      LowerIsPlain(k);
    }
  }

  lemma {:induction false} LoweredIsClean(value: Json)
    requires CleanValue(value)
    ensures CleanValue(LowerValue(value))
    decreases value, 1
  {
    match value
    case Object(members) => LoweredObjectIsClean(value);
    case Array(items) =>
      forall i | 0 <= i < |items| ensures CleanValue(LowerValue(items[i])) {
        LoweredIsClean(items[i]);
      }
    case _ =>
  }

  lemma {:induction false} LoweredObjectIsClean(value: Json)
    requires value.Object? && CleanValue(value)
    ensures CleanValue(LowerValue(value))
    decreases value, 0
  {
    NamesLower(value.members);
    MembersOfLowered(value);
    hide Lower, LowerValue;
    var low := LowerValue(value).members;
    forall l | l in low ensures Classify(l).Some? && Lower(l) == l && CleanValue(low[l]) {
      var k :| k in value.members && Lower(k) == l;
      LoweredIsClean(value.members[k]);
    }
  }

  lemma {:induction false} LoweredIsSaid(value: Json)
    requires CleanValue(value)
    ensures Said(value, LowerValue(value))
    decreases value, 1
  {
    match value
    case Object(members) => LoweredObjectIsSaid(value);
    case Array(items) =>
      forall i | 0 <= i < |items| ensures Said(items[i], LowerValue(items[i])) {
        LoweredIsSaid(items[i]);
      }
    case _ =>
  }

  lemma {:induction false} LoweredObjectIsSaid(value: Json)
    requires value.Object? && CleanValue(value)
    ensures Said(value, LowerValue(value))
    decreases value, 0
  {
    NamesLower(value.members);
    MembersOfLowered(value);
    hide Lower, LowerValue, Classify;
    var low := LowerValue(value).members;
    forall k | k in value.members ensures exists l | l in low :: SaidAs(value.members, k, low, l) {
      LoweredIsSaid(value.members[k]);
      assert SaidAs(value.members, k, low, Lower(k));
    }
  }

  lemma CasingsSay(members: Members, cased: Members, low: Members, lowCased: Members)
    requires CasingOf(members, cased) && CasingOf(low, lowCased) && EachLowers(members, low) && EachClean(members)
    ensures Said(Object(cased), Object(lowCased))
  {
    hide Lower, Classify, LowerValue, CleanValue;
    forall k | k in cased ensures exists l | l in lowCased :: SaidAs(cased, k, lowCased, l) {
      var n := Lower(k);
      var l :| l in lowCased && Lower(l) == n;
      LoweredIsSaid(members[n]);
      assert SaidAs(cased, k, lowCased, l);
    }
  }

  lemma WireCasings(m: Message)
    ensures Wire(m).Object? && CasingOf(m.ToMembers(), Wire(m).members)
  {
    hide CasingOf, Cased, Message.ToMembers, Message.TypeName;
    var names := CriticalMembers(m.TypeName());
    KeysAreWords(m);
    PlainIsCasing(m.ToMembers());
    CasedIsCasing(m.ToMembers(), m.ToMembers(), names);
  }

  lemma LowMembersClean(members: Members, low: Members)
    requires EachLowers(members, low) && EachClean(members)
    ensures EachClean(low)
  {
    hide LowerValue, CleanValue;
    forall n | n in low ensures CleanValue(low[n]) {
      LoweredIsClean(members[n]);
    }
  }

  /** What a build writes, reads back and writes again, the oracle finds whole. */
  lemma RoundTripIsWhole(render: Render, m: Message, raw: Raw)
    requires Lists(raw, Wire(m)) && CleanMessage(m) && Sayable(m)
    ensures ReadOutcome(raw).Ok? && ReadOutcome(raw).value.Understood?
    ensures Omitted(render, Wire(m), Wire(ReadOutcome(raw).value.message)) == []
  {
    hide CasingOf, EachLowers, EachClean, CleanValue, LowerValue, CleanMessage, Sayable, Lists, Wire, ReadOutcome, Said,
         CaseFree, Omitted, LowerMessage, Message.ToMembers;
    var low := LowerMessage(m);
    WriteThenRead(m, raw);
    WireCasings(m);
    WireCasings(low);
    MembersLower(m);
    LowMembersClean(m.ToMembers(), low.ToMembers());
    assert Wire(m) == Object(Wire(m).members) && Wire(low) == Object(Wire(low).members);
    CasingsSay(m.ToMembers(), Wire(m).members, low.ToMembers(), Wire(low).members);
    CasingClean(m.ToMembers(), Wire(m).members);
    CasingClean(low.ToMembers(), Wire(low).members);
    CleanIsFree(Wire(m));
    CleanIsFree(Wire(low));
    OmitsExactly(render, Wire(m), Wire(low));
  }
}
