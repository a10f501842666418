/** The network configuration document: read from JSON with the rules that need no device to judge, and
    written back. */
module Config {
  import opened Wrappers
  import opened Json
  import opened Path
  import opened Readings

  // The part of the document at fault, as a path.
  datatype Invalid = Invalid(at: string)

  datatype Security =
    | Psk(passphrase: string)
    | Sae(passphrase: string)
    | PskSae(passphrase: string)
    | Enterprise(members: Members)

  datatype Wireless =
    Wireless(ssid: string, security: Security, hidden: Option<bool>, interface: Option<string>, bands: seq<string>)

  datatype Kind =
    | Wireless_(wireless: Wireless)
    | WiredDynamic(interface: string)
    | WiredStatic(interface: string, addresses: seq<string>, gateway: string)

  datatype Attachment =
    Attachment(label_: string, enabled: bool, verify: bool, nameservers: seq<string>, kind: Kind)

  datatype Hotspot =
    Hotspot(enabled: bool, ssid: string, passphrase: string, interface: Option<string>, shareUpstream: Option<bool>,
            isolateClients: Option<bool>, dhcpRange: Option<string>, band: Option<string>, channel: Option<u32>,
            channelWidth: Option<u32>)

  datatype Document = Document(attachments: seq<Attachment>, hotspot: Option<Hotspot>, regulatoryDomain: Option<string>)

  // ---- Members -----------------------------------------------------------------------------------------

  // A fault at a member of the object at `above`.
  function FaultAt(above: seq<Segment>, name: string): Invalid
  {
    Invalid(Text(above + [Name(name)]))
  }

  function RequiredString(m: Members, name: string, above: seq<Segment>): Result<string, Invalid>
  {
    if name in m && m[name].String? then Ok(m[name].text) else Err(FaultAt(above, name))
  }

  function RequiredBool(m: Members, name: string, above: seq<Segment>): Result<bool, Invalid>
  {
    if name in m && m[name].Bool? then Ok(m[name].b) else Err(FaultAt(above, name))
  }

  function OptionalString(m: Members, name: string, above: seq<Segment>): Result<Option<string>, Invalid>
  {
    if Unset(m, name) then Ok(None)
    else if m[name].String? then Ok(Some(m[name].text))
    else Err(FaultAt(above, name))
  }

  function OptionalBool(m: Members, name: string, above: seq<Segment>): Result<Option<bool>, Invalid>
  {
    if Unset(m, name) then Ok(None)
    else if m[name].Bool? then Ok(Some(m[name].b))
    else Err(FaultAt(above, name))
  }

  // A whole number no wider than its type. One written with a fraction is not whole, whatever it is worth.
  function OptionalU32(m: Members, name: string, above: seq<Segment>): Result<Option<u32>, Invalid>
  {
    if Unset(m, name) then Ok(None)
    else if m[name].Number? && m[name].number.Int? && 0 <= m[name].number.i < 0x1_0000_0000 then
      Ok(Some(m[name].number.i))
    else Err(FaultAt(above, name))
  }

  function Strings(texts: seq<string>): Json
  {
    Array(seq(|texts|, i requires 0 <= i < |texts| => String(texts[i])))
  }

  predicate AllStrings(items: seq<Json>)
  {
    forall i | 0 <= i < |items| :: items[i].String?
  }

  function Texts(items: seq<Json>): seq<string>
    requires AllStrings(items)
  {
    seq(|items|, i requires 0 <= i < |items| => items[i].text)
  }

  function StringArray(m: Members, name: string, above: seq<Segment>): Result<seq<string>, Invalid>
  {
    if Unset(m, name) then Ok([])
    else if m[name].Array? && AllStrings(m[name].items) then Ok(Texts(m[name].items))
    else Err(FaultAt(above, name))
  }

  // A list written only where there is something in it.
  function SomeStrings(texts: seq<string>): Option<Json>
  {
    if texts == [] then None else Some(Strings(texts))
  }

  function MaybeString(s: Option<string>): Option<Json>
  {
    if s.Some? then Some(String(s.value)) else None
  }

  function MaybeBool(b: Option<bool>): Option<Json>
  {
    if b.Some? then Some(Bool(b.value)) else None
  }

  function MaybeU32(n: Option<u32>): Option<Json>
  {
    if n.Some? then Some(Number(Int(n.value))) else None
  }

  // ---- Reading -----------------------------------------------------------------------------------------

  function ParseSecurity(m: Members, above: seq<Segment>): Result<Security, Invalid>
  {
    var kind := KindOf(m);
    if kind == Some("psk") then
      var passphrase :- RequiredString(m, "passphrase", above);
      Ok(Psk(passphrase))
    else if kind == Some("sae") then
      var passphrase :- RequiredString(m, "passphrase", above);
      Ok(Sae(passphrase))
    else if kind == Some("psk-sae") then
      var passphrase :- RequiredString(m, "passphrase", above);
      Ok(PskSae(passphrase))
    else if kind == Some("enterprise") then Ok(Enterprise(m))
    else Err(FaultAt(above, "kind"))
  }

  predicate NoRepeats(bands: seq<string>)
  {
    forall i, j | 0 <= i < j < |bands| :: bands[i] != bands[j]
  }

  function ParseWireless(m: Members, above: seq<Segment>): Result<Wireless, Invalid>
  {
    var ssid :- RequiredString(m, "ssid", above);
    if !("security" in m && m["security"].Object?) then Err(FaultAt(above, "security"))
    else
      var security :- ParseSecurity(m["security"].members, above + [Name("security")]);
      var hidden :- OptionalBool(m, "hidden", above);
      var interface :- OptionalString(m, "interface", above);
      var bands :- StringArray(m, "bands", above);
      // Even a null has the member present, and then it names no band.
      if ("bands" in m && bands == []) || !NoRepeats(bands) then Err(FaultAt(above, "bands"))
      else Ok(Wireless(ssid, security, hidden, interface, bands))
  }

  function ParseKind(m: Members, above: seq<Segment>): Result<Kind, Invalid>
  {
    var kind := KindOf(m);
    if kind == Some("wireless") then
      var wireless :- ParseWireless(m, above);
      Ok(Wireless_(wireless))
    else if kind == Some("wired-dynamic") then
      var interface :- RequiredString(m, "interface", above);
      Ok(WiredDynamic(interface))
    else if kind == Some("wired-static") then
      var interface :- RequiredString(m, "interface", above);
      var addresses :- StringArray(m, "addresses", above);
      if addresses == [] then Err(FaultAt(above, "addresses"))
      else
        var gateway :- RequiredString(m, "gateway", above);
        Ok(WiredStatic(interface, addresses, gateway))
    else Err(FaultAt(above, "kind"))
  }

  function ParseAttachment(m: Members, above: seq<Segment>): Result<Attachment, Invalid>
  {
    var label_ :- RequiredString(m, "label", above);
    var enabled :- RequiredBool(m, "enabled", above);
    var verify :- RequiredBool(m, "verify", above);
    var nameservers :- StringArray(m, "nameservers", above);
    var kind :- ParseKind(m, above);
    Ok(Attachment(label_, enabled, verify, nameservers, kind))
  }

  function ParseHotspot(m: Members, above: seq<Segment>): Result<Hotspot, Invalid>
  {
    var enabled :- RequiredBool(m, "enabled", above);
    var ssid :- RequiredString(m, "ssid", above);
    var passphrase :- RequiredString(m, "passphrase", above);
    var interface :- OptionalString(m, "interface", above);
    var shareUpstream :- OptionalBool(m, "share-upstream", above);
    var isolateClients :- OptionalBool(m, "isolate-clients", above);
    var dhcpRange :- OptionalString(m, "dhcp-range", above);
    var band :- OptionalString(m, "band", above);
    var channel :- OptionalU32(m, "channel", above);
    var channelWidth :- OptionalU32(m, "channel-width", above);
    Ok(Hotspot(enabled, ssid, passphrase, interface, shareUpstream, isolateClients, dhcpRange, band, channel,
               channelWidth))
  }

  // Whether some candidate already read takes its addressing dynamically on this interface.
  predicate Dynamic(attachments: seq<Attachment>, interface: string)
  {
    exists i | 0 <= i < |attachments| :: attachments[i].kind == WiredDynamic(interface)
  }

  function CandidateAt(index: nat): seq<Segment>
  {
    [Name("attachments"), Index(index)]
  }

  // What the first `n` candidates read as.
  function ParseAttachments(items: seq<Json>, n: nat): Result<seq<Attachment>, Invalid>
    requires n <= |items|
  {
    if n == 0 then Ok([])
    else
      var earlier :- ParseAttachments(items, n - 1);
      var attachment :- ParseCandidate(items[n - 1], n - 1, earlier);
      Ok(earlier + [attachment])
  }

  function ParseCandidate(item: Json, index: nat, earlier: seq<Attachment>): Result<Attachment, Invalid>
  {
    if !item.Object? then Err(Invalid(Text(CandidateAt(index))))
    else
      var attachment :- ParseAttachment(item.members, CandidateAt(index));
      if attachment.kind.WiredDynamic? && Dynamic(earlier, attachment.kind.interface) then
        Err(FaultAt(CandidateAt(index), "interface"))
      else Ok(attachment)
  }

  // What the document carries besides its candidates.
  function ParseRest(document: Members, attachments: seq<Attachment>): Result<Document, Invalid>
  {
    if Unset(document, "hotspot") then
      var domain :- OptionalString(document, "regulatory-domain", []);
      Ok(Document(attachments, None, domain))
    else if document["hotspot"].Object? then
      var hotspot :- ParseHotspot(document["hotspot"].members, [Name("hotspot")]);
      var domain :- OptionalString(document, "regulatory-domain", []);
      Ok(Document(attachments, Some(hotspot), domain))
    else Err(FaultAt([], "hotspot"))
  }

  function ParseDocument(document: Members): Result<Document, Invalid>
  {
    if !("attachments" in document && document["attachments"].Array?) then Err(FaultAt([], "attachments"))
    else
      var items := document["attachments"].items;
      var attachments :- ParseAttachments(items, |items|);
      ParseRest(document, attachments)
  }

  lemma {:induction false} FirstFaultStands(items: seq<Json>, n: nat, all: nat)
    requires n <= all <= |items| && ParseAttachments(items, n).Err?
    ensures ParseAttachments(items, all) == ParseAttachments(items, n)
    decreases all
  {
    hide ParseCandidate;
    if n < all {
      FirstFaultStands(items, n, all - 1);
    }
  }

  method Parse(document: Members) returns (r: Result<Document, Invalid>)
    ensures r == ParseDocument(document)
  {
    hide ParseRest, ParseCandidate, Text;
    if !("attachments" in document && document["attachments"].Array?) {
      return Err(FaultAt([], "attachments"));
    }
    var items := document["attachments"].items;
    var parsed: seq<Attachment> := [];
    var dynamicInterfaces: seq<string> := [];
    for index := 0 to |items|
      invariant ParseAttachments(items, index) == Ok(parsed)
      invariant forall interface :: interface in dynamicInterfaces <==> Dynamic(parsed, interface)
    {
      var candidate := ParseOne(items[index], index, parsed, dynamicInterfaces);
      if candidate.Err? {
        assert ParseAttachments(items, index + 1) == Err(candidate.error);
        FirstFaultStands(items, index + 1, |items|);
        return Err(candidate.error);
      }
      var attachment := candidate.value;
      DynamicSnoc(parsed, attachment);
      if attachment.kind.WiredDynamic? {
        dynamicInterfaces := dynamicInterfaces + [attachment.kind.interface];
      }
      parsed := parsed + [attachment];
    }
    r := ParseRest(document, parsed);
  }

  lemma DynamicSnoc(attachments: seq<Attachment>, more: Attachment)
    ensures forall interface :: Dynamic(attachments + [more], interface) <==>
              Dynamic(attachments, interface) || more.kind == WiredDynamic(interface)
  {
    var all := attachments + [more];
    forall interface | Dynamic(attachments, interface) ensures Dynamic(all, interface) {
      var i :| 0 <= i < |attachments| && attachments[i].kind == WiredDynamic(interface);
      assert all[i].kind == WiredDynamic(interface);
    }
    forall interface | more.kind == WiredDynamic(interface) ensures Dynamic(all, interface) {
      assert all[|attachments|].kind == WiredDynamic(interface);
    }
  }

  method ParseOne(item: Json, index: nat, parsed: seq<Attachment>, dynamicInterfaces: seq<string>)
    returns (r: Result<Attachment, Invalid>)
    requires forall interface :: interface in dynamicInterfaces <==> Dynamic(parsed, interface)
    ensures r == ParseCandidate(item, index, parsed)
  {
    hide ParseAttachment, Text, Dynamic;
    if !item.Object? {
      return Err(Invalid(Text(CandidateAt(index))));
    }
    var attachment := ParseAttachment(item.members, CandidateAt(index));
    if attachment.Err? {
      return Err(attachment.error);
    }
    if attachment.value.kind.WiredDynamic? && attachment.value.kind.interface in dynamicInterfaces {
      return Err(FaultAt(CandidateAt(index), "interface"));
    }
    return attachment;
  }

  // ---- Writing -----------------------------------------------------------------------------------------

  function SecurityJson(security: Security): Members
  {
    match security
    case Psk(passphrase) => map["kind" := String("psk"), "passphrase" := String(passphrase)]
    case Sae(passphrase) => map["kind" := String("sae"), "passphrase" := String(passphrase)]
    case PskSae(passphrase) => map["kind" := String("psk-sae"), "passphrase" := String(passphrase)]
    case Enterprise(members) => members
  }

  function KindTag(kind: Kind): string
  {
    match kind
    case Wireless_(_) => "wireless"
    case WiredDynamic(_) => "wired-dynamic"
    case WiredStatic(_, _, _) => "wired-static"
  }

  function KindInto(m: Members, kind: Kind): Members
  {
    match kind
    case Wireless_(w) =>
      With(With(With(m["ssid" := String(w.ssid)]["security" := Object(SecurityJson(w.security))],
                     "hidden", MaybeBool(w.hidden)), "interface", MaybeString(w.interface)),
           "bands", SomeStrings(w.bands))
    case WiredDynamic(interface) => m["interface" := String(interface)]
    case WiredStatic(interface, addresses, gateway) =>
      m["interface" := String(interface)]["addresses" := Strings(addresses)]["gateway" := String(gateway)]
  }

  function SharedJson(a: Attachment): Members
  {
    With(map["kind" := String(KindTag(a.kind)), "label" := String(a.label_), "enabled" := Bool(a.enabled),
             "verify" := Bool(a.verify)],
         "nameservers", SomeStrings(a.nameservers))
  }

  function AttachmentJson(a: Attachment): Members
  {
    KindInto(SharedJson(a), a.kind)
  }

  // The network a hotspot runs, and the radio it runs on.
  function NetworkJson(h: Hotspot): Members
  {
    var m := map["enabled" := Bool(h.enabled), "ssid" := String(h.ssid), "passphrase" := String(h.passphrase)];
    With(With(With(With(m, "interface", MaybeString(h.interface)), "share-upstream", MaybeBool(h.shareUpstream)),
              "isolate-clients", MaybeBool(h.isolateClients)), "dhcp-range", MaybeString(h.dhcpRange))
  }

  function HotspotJson(h: Hotspot): Members
  {
    With(With(With(NetworkJson(h), "band", MaybeString(h.band)), "channel", MaybeU32(h.channel)),
         "channel-width", MaybeU32(h.channelWidth))
  }

  function AttachmentsJson(attachments: seq<Attachment>): Json
  {
    Array(seq(|attachments|, i requires 0 <= i < |attachments| => Object(AttachmentJson(attachments[i]))))
  }

  function ToJson(d: Document): Members
  {
    With(With(map["attachments" := AttachmentsJson(d.attachments)],
              "hotspot", if d.hotspot.Some? then Some(Object(HotspotJson(d.hotspot.value))) else None),
         "regulatory-domain", MaybeString(d.regulatoryDomain))
  }
}
