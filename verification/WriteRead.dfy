/** Writing a message and reading it back. */
module WriteRead {
  import opened Wrappers
  import opened Json
  import opened Path
  import opened Names
  import opened Envelope
  import opened EnvelopeTheorems
  import opened Readings
  import opened Messages
  import opened Exchange
  import opened ExchangeTheorems

  // The names messages give their own members.
  const WORDS: set<string> :=
    {"type", "name", "version", "topic", "at", "fact", "measurement", "traits", "kind", "unit", "value", "document",
     "capabilities", "acts", "act", "lasts", "recharge", "duration", "margin", "method", "key", "peer"}

  predicate Letters(word: string)
  {
    word != "" && forall i | 0 <= i < |word| :: IsLower(word[i])
  }

  lemma LettersArePlain(word: string)
    requires Letters(word)
    ensures Plain(word) && IsCritical(Upper(word)) && Lower(Upper(word)) == word
  {
    assert IsLower(word[0]);
    UpperIsMarked(word);
  }

  lemma ShorterWords()
    ensures Letters("type") && Letters("name") && Letters("topic") && Letters("at") && Letters("fact")
    ensures Letters("kind") && Letters("unit") && Letters("value") && Letters("acts") && Letters("act")
    ensures Letters("lasts")
    ensures Letters("key") && Letters("peer")
  {
  }

  lemma LongerWords()
    ensures Letters("version") && Letters("measurement") && Letters("traits") && Letters("document")
    ensures Letters("capabilities") && Letters("recharge") && Letters("duration") && Letters("margin")
    ensures Letters("method")
  {
  }

  lemma WordsAreLetters(word: string)
    requires word in WORDS
    ensures Letters(word)
  {
    hide Letters;
    ShorterWords();
    LongerWords();
  }

  lemma WordsArePlain(words: set<string>)
    requires words <= WORDS
    ensures forall w | w in words :: Plain(w) && Lower(w) == w && IsCritical(Upper(w)) && Lower(Upper(w)) == w
  {
    hide Lower, Upper, Classify, Letters;
    forall w | w in words ensures Plain(w) && Lower(w) == w && IsCritical(Upper(w)) && Lower(Upper(w)) == w {
      WordsAreLetters(w);
      LettersArePlain(w);
      LowerIsPlain(w);
    }
  }

  lemma KeysAreWords(m: Message)
    ensures m.ToMembers().Keys <= WORDS
  {
  }

  // ---- Casing the critical members ---------------------------------------------------------------------

  // `cased` is `members` with some of its names in upper case.
  ghost predicate CasingOf(members: Members, cased: Members)
  {
    && (forall k | k in cased :: Classify(k).Some? && Lower(k) in members && cased[k] == members[Lower(k)])
    && (forall k, l | k in cased && l in cased && Lower(k) == Lower(l) :: k == l)
    && (forall n | n in members :: exists k | k in cased :: Lower(k) == n)
  }

  lemma CaseOne(members: Members, cased: Members, n: string)
    requires CasingOf(members, cased) && n in cased && n in WORDS
    ensures CasingOf(members, (cased - {n})[Upper(n) := cased[n]])
  {
    WordsArePlain({n});
    hide Lower, Upper, Classify;
    RenameOne(members, cased, n, Upper(n));
  }

  // One name put for another of the same word.
  lemma RenameOne(members: Members, cased: Members, n: string, up: string)
    requires CasingOf(members, cased) && n in cased && Classify(up).Some? && Lower(up) == Lower(n)
    ensures CasingOf(members, (cased - {n})[up := cased[n]])
  {
    hide Lower, Classify;
    var next := (cased - {n})[up := cased[n]];
    forall k | k in members ensures exists j | j in next :: Lower(j) == k {
      var j :| j in cased && Lower(j) == k;
      assert (if j == n then up else j) in next;
    }
    forall k, l | k in next && l in next && Lower(k) == Lower(l) ensures k == l {
      var k0, l0 := if k == up then n else k, if l == up then n else l;
      assert k0 in cased && l0 in cased && Lower(k0) == Lower(l0);
    }
  }

  lemma {:induction false} CasedIsCasing(members: Members, cased: Members, names: seq<string>)
    requires CasingOf(members, cased) && forall n | n in names :: n in WORDS
    ensures CasingOf(members, Cased(cased, names))
    decreases |names|
  {
    hide CasingOf, Upper;
    if names != [] {
      var n := names[0];
      if n in cased {
        CaseOne(members, cased, n);
      }
      CasedIsCasing(members, if n in cased then (cased - {n})[Upper(n) := cased[n]] else cased, names[1..]);
    }
  }

  lemma PlainIsCasing(members: Members)
    requires members.Keys <= WORDS
    ensures CasingOf(members, members)
  {
    WordsArePlain(members.Keys);
    hide Lower, Upper, Classify;
  }

  // ---- What a message's members lower to ---------------------------------------------------------------

  ghost predicate EachLowers(members: Members, low: Members)
  {
    members.Keys == low.Keys && forall n | n in members :: low[n] == LowerValue(members[n])
  }

  ghost predicate EachClean(members: Members)
  {
    forall n | n in members :: CleanValue(members[n])
  }

  lemma CasingClean(members: Members, cased: Members)
    requires CasingOf(members, cased)
    ensures CleanValue(Object(cased)) <==> EachClean(members)
  {
    hide Lower, Upper, Classify;
    if CleanValue(Object(cased)) {
      forall n | n in members ensures CleanValue(members[n]) {
        var k :| k in cased && Lower(k) == n;
      }
    }
  }

  lemma CasingLowers(members: Members, cased: Members, low: Members)
    requires CasingOf(members, cased) && CleanValue(Object(cased)) && EachLowers(members, low)
    ensures LowerValue(Object(cased)) == Object(low)
  {
    MembersOfLowered(Object(cased));
    hide Lower, Upper, Classify, LowerValue, CleanValue, CasingOf, EachLowers;
    SameLow(members, cased, low, LowerValue(Object(cased)).members);
  }

  lemma SameLow(members: Members, cased: Members, low: Members, lowered: Members)
    requires CasingOf(members, cased) && EachLowers(members, low)
    requires forall k | k in cased :: Lower(k) in lowered && lowered[Lower(k)] == LowerValue(cased[k])
    requires forall l | l in lowered :: exists k | k in cased :: Lower(k) == l
    ensures lowered == low
  {
    hide Lower, Upper, Classify, LowerValue;
    forall n | n in members ensures n in lowered && lowered[n] == LowerValue(members[n]) {
      var k :| k in cased && Lower(k) == n;
    }
    forall l | l in lowered ensures l in members {
      var k :| k in cased && Lower(k) == l;
    }
  }

  ghost function LowerMaybe(value: Option<Json>): Option<Json>
  {
    if value.Some? then Some(LowerValue(value.value)) else None
  }

  lemma PutLowers(members: Members, low: Members, n: string, v: Json)
    requires EachLowers(members, low) && n !in members
    ensures EachLowers(members[n := v], low[n := LowerValue(v)])
    ensures EachClean(members[n := v]) <==> EachClean(members) && CleanValue(v)
  {
    hide LowerValue, CleanValue;
    var put := members[n := v];
    if EachClean(put) {
      forall k | k in members ensures CleanValue(members[k]) {
        assert k in put && put[k] == members[k];
      }
      assert CleanValue(put[n]);
    }
  }

  lemma WithLowers(members: Members, low: Members, n: string, v: Option<Json>)
    requires EachLowers(members, low) && n !in members
    ensures EachLowers(With(members, n, v), With(low, n, LowerMaybe(v)))
    ensures EachClean(With(members, n, v)) <==> EachClean(members) && (v.Some? ==> CleanValue(v.value))
  {
    hide EachLowers, EachClean;
    if v.Some? {
      PutLowers(members, low, n, v.value);
    }
  }

  // A text or a number has no names within it.
  lemma ScalarStays(v: Json)
    requires !v.Object? && !v.Array?
    ensures LowerValue(v) == v && CleanValue(v)
  {
  }

  lemma PutScalar(members: Members, low: Members, n: string, v: Json)
    requires EachLowers(members, low) && n !in members && !v.Object? && !v.Array?
    ensures EachLowers(members[n := v], low[n := v])
    ensures EachClean(members[n := v]) <==> EachClean(members)
  {
    hide EachLowers, EachClean;
    ScalarStays(v);
    PutLowers(members, low, n, v);
  }

  lemma WithText(members: Members, low: Members, n: string, v: Option<string>)
    requires EachLowers(members, low) && n !in members
    ensures EachLowers(With(members, n, TextJson(v)), With(low, n, TextJson(v)))
    ensures EachClean(With(members, n, TextJson(v))) <==> EachClean(members)
  {
    hide EachLowers, EachClean;
    if v.Some? {
      PutScalar(members, low, n, String(v.value));
    }
  }

  lemma NoneLowers()
    ensures EachLowers(map[], map[]) && EachClean(map[])
  {
  }

  lemma ObjectOfWords(members: Members)
    requires members.Keys <= WORDS && EachLowers(members, members) && EachClean(members)
    ensures LowerValue(Object(members)) == Object(members) && CleanValue(Object(members))
  {
    hide LowerValue, CleanValue, CasingOf;
    PlainIsCasing(members);
    CasingClean(members, members);
    CasingLowers(members, members, members);
  }

  lemma SpanStays(span: Option<Span>)
    ensures LowerMaybe(SpanJson(span)) == SpanJson(span) && (span.Some? ==> CleanValue(SpanJson(span).value))
  {
    hide LowerValue, CleanValue, EachLowers, EachClean;
    if span.Some? {
      var d, m := FloatJson(span.value.duration), FloatJson(span.value.margin);
      NoneLowers();
      PutScalar(map[], map[], "duration", d);
      PutScalar(map["duration" := d], map["duration" := d], "margin", m);
      assert SpanJson(span).value.members == map["duration" := d]["margin" := m];
      ObjectOfWords(SpanJson(span).value.members);
    }
  }

  lemma TextsStay(acts: seq<string>)
    ensures var a := Array(seq(|acts|, i requires 0 <= i < |acts| => String(acts[i])));
            LowerValue(a) == a && CleanValue(a)
  {
  }

  // The body of the message lowered is the body of the message with its members lowered, and its members are
  // clean exactly where its raw parts are.
  lemma BodyLowers(m: Message)
    ensures EachLowers(m.Body(), LowerMessage(m).Body())
    ensures EachClean(m.Body()) <==> CleanMessage(m)
  {
    hide LowerValue, CleanValue, EachLowers, EachClean, Entry.Write;
    NoneLowers();
    match m
    case Hello(name, version) =>
      PutScalar(map[], map[], "name", String(name));
      PutScalar(map["name" := String(name)], map["name" := String(name)], "version", String(version));
      assert m.Body() == map["name" := String(name)]["version" := String(version)];
    case Subscribe(topic) =>
      PutScalar(map[], map[], "topic", String(topic));
    case Fact(entry) => EntryLowers(entry, "fact");
    case Reading(entry) => EntryLowers(entry, "measurement");
    case EndOfBatch =>
    case Configuration(document, capabilities) => ConfigurationLowers(m);
    case Acts(acts) =>
      TextsStay(acts);
      PutLowers(map[], map[], "acts", m.Body()["acts"]);
    case Act(act) =>
      PutScalar(map[], map[], "act", String(act));
    case Curves(curve, lasts, recharge) => CurvesLower(m);
    case Load(document) =>
      PutLowers(map[], map[], "document", document);
    case TailscaleAct(act, means, key, named, peer) => TailscaleLowers(m);
  }

  lemma ObjectStaysObject(members: Members)
    ensures LowerValue(Object(members)) == Object(LowerMembers(members))
  {
  }

  lemma EntryLowers(entry: Entry, nameMember: string)
    requires nameMember in {"fact", "measurement"}
    ensures EachLowers(entry.Write(nameMember), LowerEntry(entry).Write(nameMember))
    ensures EachClean(entry.Write(nameMember)) <==> CleanEntry(entry)
  {
    hide LowerValue, CleanValue, EachLowers, EachClean;
    NoneLowers();
    ObjectStaysObject(entry.traits);
    var a := map["at" := Number(Int(entry.at))];
    PutScalar(map[], map[], "at", Number(Int(entry.at)));
    var b := a[nameMember := String(entry.name)];
    PutScalar(a, a, nameMember, String(entry.name));
    var c, cLow := b["traits" := Object(entry.traits)], b["traits" := Object(LowerMembers(entry.traits))];
    PutLowers(b, b, "traits", Object(entry.traits));
    var kind := String(entry.kind);
    PutScalar(c, cLow, "kind", kind);
    WithText(c["kind" := kind], cLow["kind" := kind], "unit", entry.unit);
    WithLowers(With(c["kind" := kind], "unit", TextJson(entry.unit)),
               With(cLow["kind" := kind], "unit", TextJson(entry.unit)), "value", entry.value);
  }

  lemma ConfigurationLowers(m: Message)
    requires m.Configuration?
    ensures EachLowers(m.Body(), LowerMessage(m).Body())
    ensures EachClean(m.Body()) <==> CleanMessage(m)
  {
    hide LowerValue, CleanValue, EachLowers, EachClean;
    NoneLowers();
    ObjectStaysObject(m.document);
    var capabilities := if m.capabilities.Some? then Some(Object(m.capabilities.value)) else None;
    if m.capabilities.Some? {
      ObjectStaysObject(m.capabilities.value);
    }
    PutLowers(map[], map[], "document", Object(m.document));
    WithLowers(map["document" := Object(m.document)], map["document" := Object(LowerMembers(m.document))],
               "capabilities", capabilities);
  }

  lemma CurvesLower(m: Message)
    requires m.Curves?
    ensures EachLowers(m.Body(), LowerMessage(m).Body())
    ensures EachClean(m.Body()) <==> CleanMessage(m)
  {
    NoneLowers();
    SpanStays(m.lasts);
    SpanStays(m.recharge);
    hide LowerValue, CleanValue, EachLowers, EachClean, SpanJson;
    var a, aLow := With(map[], "document", m.curve), With(map[], "document", LowerMaybe(m.curve));
    WithLowers(map[], map[], "document", m.curve);
    WithLowers(a, aLow, "lasts", SpanJson(m.lasts));
    WithLowers(With(a, "lasts", SpanJson(m.lasts)), With(aLow, "lasts", SpanJson(m.lasts)),
               "recharge", SpanJson(m.recharge));
  }

  lemma TailscaleLowers(m: Message)
    requires m.TailscaleAct?
    ensures EachLowers(m.Body(), m.Body())
    ensures EachClean(m.Body())
  {
    hide LowerValue, CleanValue, EachLowers, EachClean;
    NoneLowers();
    PutScalar(map[], map[], "act", String(m.act));
    var a := map["act" := String(m.act)];
    var b := With(a, "method", TextJson(m.means));
    var c := With(b, "key", TextJson(m.key));
    var d := With(c, "name", TextJson(m.named));
    WithText(a, a, "method", m.means);
    WithText(b, b, "key", m.key);
    WithText(c, c, "name", m.named);
    WithText(d, d, "peer", m.peer);
  }

  lemma BodyHasNoType(m: Message)
    ensures "type" !in m.Body()
  {
  }

  lemma MembersLower(m: Message)
    ensures EachLowers(m.ToMembers(), LowerMessage(m).ToMembers())
    ensures EachClean(m.ToMembers()) <==> CleanMessage(m)
  {
    BodyLowers(m);
    BodyHasNoType(m);
    SameType(m);
    hide LowerValue, CleanValue, EachLowers, EachClean, Message.Body, CleanMessage, LowerMessage;
    PutScalar(m.Body(), LowerMessage(m).Body(), "type", String(m.TypeName()));
  }

  lemma SameType(m: Message)
    ensures LowerMessage(m).TypeName() == m.TypeName()
    ensures Sayable(m) && CleanMessage(m) ==> Sayable(LowerMessage(m))
    ensures Sayable(LowerMessage(m)) ==> Sayable(m)
  {
    hide CleanValue;
  }

  // ---- What is written on a stream ---------------------------------------------------------------------

  // The wire form, in any listing, normalises to the members of the message lowered, and does so exactly
  // where the raw parts of the message are clean.
  lemma WireLowers(m: Message, raw: Raw)
    requires Lists(raw, Wire(m))
    ensures FirstFault(raw).None? <==> CleanMessage(m)
    ensures CleanMessage(m) ==> Lowered(raw) == Object(LowerMessage(m).ToMembers())
  {
    hide LowerValue, CleanValue, EachLowers, EachClean, Message.ToMembers, CleanMessage, LowerMessage, CasingOf, Cased,
         Lists, Lowered, FirstFault, Clean, Message.TypeName;
    var members, names := m.ToMembers(), CriticalMembers(m.TypeName());
    var cased := Cased(members, names);
    KeysAreWords(m);
    PlainIsCasing(members);
    CasedIsCasing(members, members, names);
    CasingClean(members, cased);
    MembersLower(m);
    ListedClean(raw, Wire(m));
    FaultFreeIsClean(raw);
    if CleanMessage(m) {
      ListedLowered(raw, Wire(m));
      CasingLowers(members, cased, LowerMessage(m).ToMembers());
    }
  }

  predicate Flat(members: Members)
  {
    forall k | k in members :: !members[k].Object? && !members[k].Array?
  }

  // What an object of texts and numbers marks critical.
  lemma FlatCritical(raw: Raw, members: Members)
    requires Lists(raw, Object(members)) && Flat(members)
    ensures CriticalBelow(raw, "") == set k | k in members && IsCritical(k) :: Lower(k)
  {
    hide Lists, CriticalBelow, Marked, Lower, Classify;
    var value := Object(members);
    forall p ensures p in CriticalBelow(raw, "") <==> exists k | k in members && IsCritical(k) :: p == Lower(k) {
      CriticalAreMarked(raw, "", p);
      if PathOfMarked(raw, "", p) {
        var address :| Marked(raw, address) && p == Below("", address);
        ListedMarked(raw, value, address);
        FlatMarked(members, address);
      }
      if k :| k in members && IsCritical(k) && p == Lower(k) {
        var address := [Name(Lower(k))];
        assert MarkedMember(value, address, k);
        ListedMarked(raw, value, address);
        assert Below("", address) == p by {
          BelowStep("", Name(p), []);
          BelowStep(p, Name(p), []);
          assert [Name(p)] + [] == address;
        }
      }
    }
  }

  lemma FlatMarked(members: Members, address: seq<Segment>)
    requires Flat(members) && MarkedValue(Object(members), address)
    ensures exists k | k in members && IsCritical(k) :: Below("", address) == Lower(k)
  {
    hide Lower, Classify;
    forall k | k in members ensures !MarkedValue(members[k], address[1..]) {
    }
    var k :| k in members && MarkedMember(Object(members), address, k);
    BelowStep("", address[0], []);
    BelowStep(Lower(k), address[0], []);
    assert [address[0]] + [] == address;
    assert Below("", address) == Lower(k) && IsCritical(k);
  }

  // What a pinned type requires of its marks is what it is written with.
  lemma PinsMet(m: Message, raw: Raw)
    requires Lists(raw, Wire(m)) && Pinned(m.TypeName()).Some?
    ensures CriticalBelow(raw, "") == Pinned(m.TypeName()).value
  {
    hide Lists, CriticalBelow, Upper, Lower, Classify;
    ShorterWords();
    LongerWords();
    hide Letters;
    var members := Wire(m).members;
    WordsArePlain({"type", "name", "version", "topic"});
    if m.Hello? {
      assert members == m.ToMembers();
      assert members.Keys == {"type", "name", "version"};
      FlatCritical(raw, members);
    } else {
      assert Cased(m.ToMembers(), ["topic"]) == (m.ToMembers() - {"topic"})[Upper("topic") := String(m.topic)];
      assert members.Keys == {"type", Upper("topic")};
      FlatCritical(raw, members);
    }
  }

  /** Write, then read: what is read of a message written, whatever order its members were listed in, is that
      message with the names in its raw parts in lower case, exactly where those parts are clean and the
      message can say itself. It is then never skipped, refused or a fault. */
  lemma WriteThenRead(m: Message, raw: Raw)
    requires Lists(raw, Wire(m))
    ensures ReadOutcome(raw) == Ok(Understood(LowerMessage(m))) <==> CleanMessage(m) && Sayable(m)
  {
    hide LowerValue, CleanValue, Message.ToMembers, CleanMessage, LowerMessage, Lists, Lowered, FirstFault, Wire,
         FromMembers, Sayable, CriticalBelow, UnknownBelow, Message.TypeName;
    WireLowers(m, raw);
    if CleanMessage(m) {
      var low := LowerMessage(m);
      SameType(m);
      ReadsBackExactly(low);
      TypeIsWritten(low);
      NothingUnknown(Object(low.ToMembers()), "");
      if Pinned(m.TypeName()).Some? {
        PinsMet(m, raw);
      }
    }
  }

  lemma TypeIsWritten(m: Message)
    ensures "type" in m.ToMembers() && m.ToMembers()["type"] == String(m.TypeName())
  {
  }
}
