/** Reading a message off a stream and writing one onto it. */
module Exchange {
  import opened Wrappers
  import opened Json
  import opened Path
  import opened Names
  import opened Envelope
  import opened EnvelopeTheorems
  import opened Readings
  import opened Messages

  // What reading one message yields, short of a fault: three outcomes that must stay apart.
  datatype Outcome =
    | Understood(message: Message)
    | Skipped(typeName: string)
    | RefusedType(typeName: string)
    | RefusedMembers(typeName: string, members: set<string>)

  function ReadOutcome(raw: Raw): Result<Outcome, Fault>
  {
    if FirstFault(raw).Some? then Err(FirstFault(raw).value)
    else
      var value := Lowered(raw);
      if !value.Object? then Err(NotObject)
      else if "type" !in value.members then Err(NoType)
      else if !value.members["type"].String? then Err(TypeNotString)
      else Weigh(value.members["type"].text, value, CriticalBelow(raw, ""))
  }

  // What the pin on a type finds wrong with the members marked critical.
  function PinFault(typeName: string, members: Members, critical: set<string>): Option<Fault>
  {
    var pin := Pinned(typeName);
    if pin.None? then None
    else
      var surplus := critical - pin.value;
      var unmarked := set n | n in pin.value && n in members && n !in critical;
      if surplus != {} then Some(CriticalNotAllowed(typeName, surplus))
      else if unmarked != {} then Some(CriticalRequired(typeName, unmarked))
      else None
  }

  // What is made of a well-formed message, given its type, its normalised value and what it marks critical.
  function Weigh(typeName: string, value: Json, critical: set<string>): Result<Outcome, Fault>
    requires value.Object?
  {
    if typeName !in KNOWN then
      Ok(if "type" in critical then RefusedType(typeName) else Outcome.Skipped(typeName))
    else if PinFault(typeName, value.members, critical).Some? then
      Err(PinFault(typeName, value.members, critical).value)
    else
      var message := FromMembers(value.members);
      if message.None? then Err(Malformed(typeName))
      else
        var refused := critical * UnknownBelow(value, Object(message.value.ToMembers()), "");
        Ok(if refused == {} then Understood(message.value) else RefusedMembers(typeName, refused))
  }

  method Read(raw: Raw) returns (r: Result<Outcome, Fault>)
    ensures r == ReadOutcome(raw)
  {
    hide Lowered, CriticalBelow, UnknownBelow, FirstFault, FromMembers, Message.ToMembers;
    var normaliser := new Normaliser();
    var normal := normaliser.Normalise(raw);
    if normal.Err? {
      return Err(normal.error);
    }
    var value, critical := normal.value, normaliser.critical;
    assert critical == CriticalBelow(raw, "");
    if !value.Object? {
      return Err(NotObject);
    }
    if "type" !in value.members {
      return Err(NoType);
    }
    if !value.members["type"].String? {
      return Err(TypeNotString);
    }
    var typeName := value.members["type"].text;
    if typeName !in KNOWN {
      return Ok(if "type" in critical then RefusedType(typeName) else Outcome.Skipped(typeName));
    }
    var pin := PinFault(typeName, value.members, critical);
    if pin.Some? {
      return Err(pin.value);
    }
    var message := FromMembers(value.members);
    if message.None? {
      return Err(Malformed(typeName));
    }
    var collector := new Collector();
    collector.CollectUnknown(value, Object(message.value.ToMembers()));
    assert collector.out == UnknownBelow(value, Object(message.value.ToMembers()), "");
    var refused := critical * collector.out;
    return Ok(if refused == {} then Understood(message.value) else RefusedMembers(typeName, refused));
  }

  // ---- Writing -----------------------------------------------------------------------------------------

  function Cased(members: Members, names: seq<string>): Members
    decreases |names|
  {
    if names == [] then members
    else
      var n := names[0];
      Cased(if n in members then (members - {n})[Upper(n) := members[n]] else members, names[1..])
  }

  function Wire(m: Message): Json
  {
    Object(Cased(m.ToMembers(), CriticalMembers(m.TypeName())))
  }

  method Write(m: Message) returns (value: Json)
    ensures value == Wire(m)
  {
    hide Upper, Message.ToMembers;
    var members := m.ToMembers();
    var names := CriticalMembers(m.TypeName());
    assert names[0..] == names;
    for i := 0 to |names|
      invariant Cased(m.ToMembers(), names) == Cased(members, names[i..])
    {
      assert names[i..][1..] == names[i + 1..];
      var n := names[i];
      if n in members {
        members := (members - {n})[Upper(n) := members[n]];
      }
    }
    value := Object(members);
  }

  // What goes on the stream: a listing of the value, its members in some order.
  predicate Lists(raw: Raw, value: Json)
  {
    match value
    case Object(members) =>
      && raw.RawObject?
      && (forall i | 0 <= i < |raw.entries| ::
            raw.entries[i].0 in members && Lists(raw.entries[i].1, members[raw.entries[i].0]))
      && (forall i, j | 0 <= i < j < |raw.entries| :: raw.entries[i].0 != raw.entries[j].0)
      && (forall k | k in members :: exists i | 0 <= i < |raw.entries| :: raw.entries[i].0 == k)
    case Array(items) =>
      && raw.RawArray? && |raw.items| == |items|
      && forall i | 0 <= i < |items| :: Lists(raw.items[i], items[i])
    case _ => raw == RawOther(value)
  }
}
