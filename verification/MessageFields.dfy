/** What each message says in its members and which of them it marks, member by member. Reading and writing each
    undo the other; this is what fixes the form between them. */
module MessageFields {
  import opened Wrappers
  import opened Json
  import opened Names
  import opened Readings
  import opened Messages
  import opened Exchange
  import opened WriteRead

  // ---- What the members are ----------------------------------------------------------------------------

  predicate Says(m: Members, name: string, text: string)
  {
    name in m && m[name] == String(text)
  }

  predicate MaySay(m: Members, name: string, text: Option<string>)
  {
    if text.Some? then Says(m, name, text.value) else name !in m || m[name].Null?
  }

  predicate EntryIs(m: Members, nameMember: string, entry: Entry)
  {
    && Says(m, nameMember, entry.name) && Says(m, "kind", entry.kind) && MaySay(m, "unit", entry.unit)
    && "at" in m && m["at"] == Number(Int(entry.at))
    && "traits" in m && m["traits"] == Object(entry.traits)
    && (if entry.value.Some? then "value" in m && m["value"] == entry.value.value else "value" !in m)
  }

  predicate FloatIs(value: Json, float: Float)
  {
    && value.Number? && float.Finite?
    && match value.number
       case Int(i) => float.digits == i && float.power == 0
       case Decimal(digits, power) => float.digits == digits && float.power == power
  }

  predicate SpanIs(m: Members, name: string, span: Option<Span>)
  {
    if span.None? then name !in m || m[name].Null?
    else
      && name in m && m[name].Object?
      && "duration" in m[name].members && FloatIs(m[name].members["duration"], span.value.duration)
      && "margin" in m[name].members && FloatIs(m[name].members["margin"], span.value.margin)
  }

  predicate TextsAre(value: Json, texts: seq<string>)
  {
    && value.Array? && |value.items| == |texts|
    && forall i | 0 <= i < |texts| :: value.items[i] == String(texts[i])
  }

  // The members of a message of each type, by the names they have on the wire.
  predicate Carries(m: Members, message: Message)
  {
    match message
    case Hello(name, version) => Says(m, "type", "hello") && Says(m, "name", name) && Says(m, "version", version)
    case Subscribe(topic) => Says(m, "type", "subscribe") && Says(m, "topic", topic)
    case Fact(entry) => Says(m, "type", "fact") && EntryIs(m, "fact", entry)
    case Reading(entry) => Says(m, "type", "reading") && EntryIs(m, "measurement", entry)
    case EndOfBatch => Says(m, "type", "end-of-batch")
    case Configuration(document, capabilities) =>
      && Says(m, "type", "configuration") && "document" in m && m["document"] == Object(document)
      && (if capabilities.Some? then "capabilities" in m && m["capabilities"] == Object(capabilities.value)
          else "capabilities" !in m || m["capabilities"].Null?)
    case Acts(acts) => Says(m, "type", "acts") && "acts" in m && TextsAre(m["acts"], acts)
    case Act(act) => Says(m, "type", "act") && Says(m, "act", act)
    case Curves(curve, lasts, recharge) =>
      && Says(m, "type", "curves") && SpanIs(m, "lasts", lasts) && SpanIs(m, "recharge", recharge)
      && (if curve.Some? then "document" in m && m["document"] == curve.value && !curve.value.Null?
          else "document" !in m || m["document"].Null?)
    case Load(document) => Says(m, "type", "load") && "document" in m && m["document"] == document
    case TailscaleAct(act, means, key, named, peer) =>
      && Says(m, "type", "tailscale-act") && Says(m, "act", act) && MaySay(m, "method", means)
      && MaySay(m, "key", key) && MaySay(m, "name", named) && MaySay(m, "peer", peer)
  }

  /** A message is read of members exactly where they carry it. */
  lemma ReadsWhatIsCarried(m: Members, message: Message)
    ensures FromMembers(m) == Some(message) <==> Carries(m, message)
  {
    match message
    case Fact(entry) => EntryRead(m, "fact", entry);
    case Reading(entry) => EntryRead(m, "measurement", entry);
    case Curves(_, lasts, recharge) =>
      SpanRead(m, "lasts", lasts);
      SpanRead(m, "recharge", recharge);
      hide MaySpan, MaybeSpan, SpanIs, Entry.Read;
    case Acts(acts) => ActsRead(m, acts);
    case TailscaleAct(_, _, _, _, _) => TailscaleRead(m, message);
    case _ => hide Entry.Read, MaySpan, MaybeSpan;
  }

  lemma EntryRead(m: Members, nameMember: string, entry: Entry)
    requires nameMember in {"fact", "measurement"}
    ensures Entry.Read(nameMember, m) == Some(entry) <==> EntryIs(m, nameMember, entry)
  {
  }

  lemma SpanRead(m: Members, name: string, span: Option<Span>)
    ensures MaySpan(m, name) && MaybeSpan(m, name) == span <==> SpanIs(m, name, span)
  {
  }

  lemma ActsRead(m: Members, acts: seq<string>)
    ensures FromMembers(m) == Some(Acts(acts)) <==> Carries(m, Acts(acts))
  {
    hide Entry.Read, MaySpan, MaybeSpan;
    if Says(m, "type", "acts") && "acts" in m && m["acts"].Array? {
      var items := m["acts"].items;
      if AllText(items) {
        var texts := seq(|items|, i requires 0 <= i < |items| => items[i].text);
        assert TextsAre(m["acts"], acts) <==> texts == acts;
      } else {
        assert !TextsAre(m["acts"], acts);
      }
    }
  }

  lemma MayTextRead(m: Members, name: string, text: Option<string>)
    ensures MayText(m, name) && MaybeText(m, name) == text <==> MaySay(m, name, text)
  {
  }

  lemma TailscaleRead(m: Members, message: Message)
    requires message.TailscaleAct?
    ensures FromMembers(m) == Some(message) <==> Carries(m, message)
  {
    MayTextRead(m, "method", message.means);
    MayTextRead(m, "key", message.key);
    MayTextRead(m, "name", message.named);
    MayTextRead(m, "peer", message.peer);
    hide Entry.Read, MaySpan, MaybeSpan, MayText, MaybeText, MaySay;
  }

  // ---- What is marked ----------------------------------------------------------------------------------

  // The members each type writes in upper case: those a peer that does not know must not act without.
  predicate WrittenLoud(message: Message, name: string)
  {
    || (message.Subscribe? && name == "topic")
    || (message.Configuration? && name == "document")
    || (message.Act? && name == "act")
    || (message.TailscaleAct? && name in {"act", "method", "key", "name", "peer"})
  }

  // `cased` is `members` with these names in upper case and the others as they were.
  ghost predicate Loud(members: Members, cased: Members, names: set<string>)
  {
    forall n | n in members ::
      if n in names then Upper(n) in cased && cased[Upper(n)] == members[n] && n !in cased
      else n in cased && cased[n] == members[n] && Upper(n) !in cased
  }

  lemma UpperApart(a: string, b: string)
    requires a in WORDS && b in WORDS
    ensures Upper(a) !in WORDS && (Upper(a) == Upper(b) ==> a == b)
  {
    WordsArePlain({a, b});
    hide Upper, Lower, Classify;
    if Upper(a) in WORDS {
      WordsArePlain({Upper(a)});
    }
  }

  lemma LoudOne(members: Members, cased: Members, done: set<string>, n: string)
    requires members.Keys <= WORDS && Loud(members, cased, done) && n in WORDS && (n in cased ==> n in members)
    ensures Loud(members, if n in cased then (cased - {n})[Upper(n) := cased[n]] else cased, done + {n})
  {
    hide Upper;
    forall k | k in members ensures Upper(k) != n && (Upper(k) == Upper(n) ==> k == n) && Upper(n) != k {
      UpperApart(k, n);
      UpperApart(n, k);
    }
  }

  lemma {:induction false} CasedIsLoud(members: Members, cased: Members, done: set<string>, names: seq<string>)
    requires members.Keys <= WORDS && Loud(members, cased, done)
    requires forall n | n in names :: n in WORDS && (n in cased ==> n in members)
    ensures Loud(members, Cased(cased, names), done + set n | n in names)
    decreases |names|
  {
    hide Upper;
    if names != [] {
      var n := names[0];
      var next := if n in cased then (cased - {n})[Upper(n) := cased[n]] else cased;
      LoudOne(members, cased, done, n);
      UpperApart(n, n);
      hide Loud;
      CasedIsLoud(members, next, done + {n}, names[1..]);
      assert (done + {n}) + (set m | m in names[1..]) == done + set m | m in names;
    }
  }

  /** On the wire each member goes by its name, in upper case exactly where its type is one that marks it. */
  lemma WireMarks(message: Message)
    ensures Wire(message).Object?
    ensures forall n | n in message.ToMembers() ::
              var members, wire := message.ToMembers(), Wire(message).members;
              if WrittenLoud(message, n) then Upper(n) in wire && wire[Upper(n)] == members[n] && n !in wire
              else n in wire && wire[n] == members[n] && Upper(n) !in wire
  {
    var members, names := message.ToMembers(), CriticalMembers(message.TypeName());
    KeysAreWords(message);
    NamesAreWords(message.TypeName());
    hide Message.ToMembers, Upper;
    forall n | n in members ensures Upper(n) !in members {
      UpperApart(n, n);
    }
    CasedIsLoud(members, members, {}, names);
    assert {} + (set n | n in names) == set n | n in names;
  }

  lemma NamesAreWords(typeName: string)
    ensures forall n | n in CriticalMembers(typeName) :: n in WORDS
  {
  }
}
