/** The messages, and the maps they are carried as. A representative part of the set: the two pinned types,
    the two that keep raw traits, those with one critical member and with several, the ones whose members
    may be absent, and the ones that keep raw documents. */
module Messages {
  import opened Wrappers
  import opened Json
  import opened Readings

  // A number JSON may or may not be able to carry.
  datatype Float = Finite(digits: int, power: int) | NotFinite

  datatype Span = Span(duration: Float, margin: Float)

  datatype Message =
    | Hello(name: string, version: string)
    | Subscribe(topic: string)
    | Fact(entry: Entry)
    | Reading(entry: Entry)
    | EndOfBatch
    | Configuration(document: Members, capabilities: Option<Members>)
    | Acts(acts: seq<string>)
    | Act(act: string)
    | Curves(curve: Option<Json>, lasts: Option<Span>, recharge: Option<Span>)
    | Load(load: Json)
    | TailscaleAct(act: string, means: Option<string>, key: Option<string>, named: Option<string>, peer: Option<string>)
  {
    function TypeName(): string
    {
      match this
      case Hello(_, _) => "hello"
      case Subscribe(_) => "subscribe"
      case Fact(_) => "fact"
      case Reading(_) => "reading"
      case EndOfBatch => "end-of-batch"
      case Configuration(_, _) => "configuration"
      case Acts(_) => "acts"
      case Act(_) => "act"
      case Curves(_, _, _) => "curves"
      case Load(_) => "load"
      case TailscaleAct(_, _, _, _, _) => "tailscale-act"
    }

    // The members of the message besides its type.
    function Body(): Members
    {
      match this
      case Hello(name, version) => map["name" := String(name), "version" := String(version)]
      case Subscribe(topic) => map["topic" := String(topic)]
      case Fact(entry) => entry.Write("fact")
      case Reading(entry) => entry.Write("measurement")
      case EndOfBatch => map[]
      case Configuration(document, capabilities) =>
        With(map["document" := Object(document)], "capabilities",
             if capabilities.Some? then Some(Object(capabilities.value)) else None)
      case Acts(acts) => map["acts" := Array(seq(|acts|, i requires 0 <= i < |acts| => String(acts[i])))]
      case Act(act) => map["act" := String(act)]
      case Curves(curve, lasts, recharge) =>
        With(With(With(map[], "document", curve), "lasts", SpanJson(lasts)), "recharge", SpanJson(recharge))
      case Load(document) => map["document" := document]
      case TailscaleAct(act, means, key, named, peer) =>
        With(With(With(With(map["act" := String(act)], "method", TextJson(means)), "key", TextJson(key)),
                  "name", TextJson(named)), "peer", TextJson(peer))
    }

    function ToMembers(): Members
    {
      Body()["type" := String(TypeName())]
    }
  }

  function TextJson(s: Option<string>): Option<Json>
  {
    if s.Some? then Some(String(s.value)) else None
  }

  function FloatJson(f: Float): Json
  {
    if f.Finite? then Number(Decimal(f.digits, f.power)) else Null
  }

  function SpanJson(span: Option<Span>): Option<Json>
  {
    if span.Some? then
      Some(Object(map["duration" := FloatJson(span.value.duration), "margin" := FloatJson(span.value.margin)]))
    else None
  }

  // ---- Reading the members back ------------------------------------------------------------------------

  predicate HasText(m: Members, name: string)
  {
    name in m && m[name].String?
  }

  predicate MayText(m: Members, name: string)
  {
    name in m ==> m[name].Null? || m[name].String?
  }

  function MaybeText(m: Members, name: string): Option<string>
  {
    if HasText(m, name) then Some(m[name].text) else None
  }

  predicate MayObject(m: Members, name: string)
  {
    name in m ==> m[name].Null? || m[name].Object?
  }

  function MaybeObject(m: Members, name: string): Option<Members>
  {
    if name in m && m[name].Object? then Some(m[name].members) else None
  }

  predicate AllText(items: seq<Json>)
  {
    forall i | 0 <= i < |items| :: items[i].String?
  }

  // A span member: absent or null for none, else an object of two numbers.
  predicate MaySpan(m: Members, name: string)
  {
    name in m && !m[name].Null? ==>
      && m[name].Object?
      && "duration" in m[name].members && m[name].members["duration"].Number?
      && "margin" in m[name].members && m[name].members["margin"].Number?
  }

  function AsFloat(n: Number): Float
  {
    match n
    case Int(i) => Finite(i, 0)
    case Decimal(digits, power) => Finite(digits, power)
  }

  function MaybeSpan(m: Members, name: string): Option<Span>
    requires MaySpan(m, name)
  {
    if name in m && !m[name].Null? then
      var span := m[name].members;
      Some(Span(AsFloat(span["duration"].number), AsFloat(span["margin"].number)))
    else None
  }

  function FromMembers(m: Members): Option<Message>
  {
    if !HasText(m, "type") then None
    else
      var t := m["type"].text;
      if t == "hello" then
        if HasText(m, "name") && HasText(m, "version") then Some(Hello(m["name"].text, m["version"].text)) else None
      else if t == "subscribe" then
        if HasText(m, "topic") then Some(Subscribe(m["topic"].text)) else None
      else if t == "fact" then
        var entry := Entry.Read("fact", m);
        if entry.Some? then Some(Fact(entry.value)) else None
      else if t == "reading" then
        var entry := Entry.Read("measurement", m);
        if entry.Some? then Some(Reading(entry.value)) else None
      else if t == "end-of-batch" then Some(EndOfBatch)
      else if t == "configuration" then
        if "document" in m && m["document"].Object? && MayObject(m, "capabilities") then
          Some(Configuration(m["document"].members, MaybeObject(m, "capabilities")))
        else None
      else if t == "acts" then
        if "acts" in m && m["acts"].Array? && AllText(m["acts"].items) then
          var items := m["acts"].items;
          Some(Acts(seq(|items|, i requires 0 <= i < |items| => items[i].text)))
        else None
      else if t == "act" then
        if HasText(m, "act") then Some(Act(m["act"].text)) else None
      else if t == "curves" then
        if MaySpan(m, "lasts") && MaySpan(m, "recharge") then
          Some(Curves(if "document" in m && !m["document"].Null? then Some(m["document"]) else None,
                      MaybeSpan(m, "lasts"), MaybeSpan(m, "recharge")))
        else None
      else if t == "load" then
        if "document" in m then Some(Load(m["document"])) else None
      else if t == "tailscale-act" then
        if HasText(m, "act") && MayText(m, "method") && MayText(m, "key") && MayText(m, "name")
           && MayText(m, "peer") then
          Some(TailscaleAct(m["act"].text, MaybeText(m, "method"), MaybeText(m, "key"), MaybeText(m, "name"),
                            MaybeText(m, "peer")))
        else None
      else None
  }

  const KNOWN: set<string> :=
    {"hello", "subscribe", "fact", "reading", "end-of-batch", "configuration", "acts", "act", "curves", "load",
     "tailscale-act"}

  // What is required of criticality on a type: exactly these members, or nothing beyond the general rules.
  function Pinned(typeName: string): Option<set<string>>
  {
    if typeName == "hello" then Some({})
    else if typeName == "subscribe" then Some({"topic"})
    else None
  }

  // The members written as critical on a type.
  function CriticalMembers(typeName: string): seq<string>
  {
    if typeName == "subscribe" then ["topic"]
    else if typeName == "configuration" then ["document"]
    else if typeName == "act" then ["act"]
    else if typeName == "tailscale-act" then ["act", "method", "key", "name", "peer"]
    else []
  }

  // A message that can say itself in JSON: a curve is not the null that stands for none, and every time is
  // a number JSON can carry.
  predicate Sayable(m: Message)
  {
    m.Curves? ==> m.curve != Some(Null) && SayableSpan(m.lasts) && SayableSpan(m.recharge)
  }

  predicate SayableSpan(span: Option<Span>)
  {
    span.Some? ==> span.value.duration.Finite? && span.value.margin.Finite?
  }

  /** A message is read back from its own members exactly when it is sayable. */
  lemma ReadsBackExactly(m: Message)
    ensures FromMembers(m.ToMembers()) == Some(m) <==> Sayable(m)
    ensures m.TypeName() in KNOWN
  {
    hide FromMembers, Message.ToMembers;
    if m.Fact? || m.Reading? {
      EntriesReadBack(m);
    } else if m.Acts? {
      ActsReadBack(m);
    } else if m.Curves? {
      CurvesReadBack(m);
    } else if m.TailscaleAct? {
      TailscaleReadsBack(m);
    } else {
      OthersReadBack(m);
    }
  }

  lemma EntriesReadBack(m: Message)
    requires m.Fact? || m.Reading?
    ensures FromMembers(m.ToMembers()) == Some(m)
  {
    var nameMember := if m.Fact? then "fact" else "measurement";
    EntryReadsBack(m.entry, nameMember, m.ToMembers());
  }

  lemma ActsReadBack(m: Message)
    requires m.Acts?
    ensures FromMembers(m.ToMembers()) == Some(m)
  {
    var items := m.ToMembers()["acts"].items;
    assert seq(|items|, i requires 0 <= i < |items| => items[i].text) == m.acts;
  }

  lemma TailscaleReadsBack(m: Message)
    requires m.TailscaleAct?
    ensures FromMembers(m.ToMembers()) == Some(m)
  {
    var w := m.ToMembers();
    hide Entry.Read;
    assert w["type"] == String("tailscale-act") && w["act"] == String(m.act);
    assert MayText(w, "method") && MaybeText(w, "method") == m.means;
    assert MayText(w, "key") && MaybeText(w, "key") == m.key;
    assert MayText(w, "name") && MaybeText(w, "name") == m.named;
    assert MayText(w, "peer") && MaybeText(w, "peer") == m.peer;
    hide With, MayText, MaybeText, TextJson, Message.ToMembers;
  }

  lemma OthersReadBack(m: Message)
    requires !m.Fact? && !m.Reading? && !m.Acts? && !m.Curves? && !m.TailscaleAct?
    ensures FromMembers(m.ToMembers()) == Some(m)
  {
  }

  lemma CurvesReadBack(m: Message)
    requires m.Curves?
    ensures FromMembers(m.ToMembers()) == Some(m) <==> Sayable(m)
  {
    var w := m.ToMembers();
    assert "document" in w <==> m.curve.Some?;
    assert "lasts" in w <==> m.lasts.Some?;
    assert "recharge" in w <==> m.recharge.Some?;
    assert MaySpan(w, "lasts") <==> SayableSpan(m.lasts);
    assert MaySpan(w, "recharge") <==> SayableSpan(m.recharge);
  }
}
