/** What reading and writing a configuration document keep. */
module ConfigTheorems {
  import opened Wrappers
  import opened Json
  import opened Path
  import opened Nodes
  import opened Readings
  import opened Config

  // ---- What a document read holds ----------------------------------------------------------------------

  predicate SoundSecurity(security: Security)
  {
    security.Enterprise? ==> KindOf(security.members) == Some("enterprise")
  }

  predicate SoundKind(kind: Kind)
  {
    match kind
    case Wireless_(w) => NoRepeats(w.bands) && SoundSecurity(w.security)
    case WiredDynamic(_) => true
    case WiredStatic(_, addresses, _) => addresses != []
  }

  predicate OneDynamicEach(attachments: seq<Attachment>)
  {
    forall i, j | 0 <= i < j < |attachments|
                  && attachments[i].kind.WiredDynamic? && attachments[j].kind.WiredDynamic? ::
      attachments[i].kind.interface != attachments[j].kind.interface
  }

  // At most one dynamic candidate an interface, an address in each static one, no band named twice, and
  // enterprise security saying that is what it is.
  predicate WellFormed(d: Document)
  {
    OneDynamicEach(d.attachments) && forall i | 0 <= i < |d.attachments| :: SoundKind(d.attachments[i].kind)
  }

  lemma ReadIsSound(m: Members, above: seq<Segment>)
    requires ParseAttachment(m, above).Ok?
    ensures SoundKind(ParseAttachment(m, above).value.kind)
  {
    hide Text;
  }

  lemma {:induction false} CandidatesAreSound(items: seq<Json>, n: nat)
    requires n <= |items| && ParseAttachments(items, n).Ok?
    ensures var read := ParseAttachments(items, n).value;
            |read| == n && OneDynamicEach(read) && forall i | 0 <= i < n :: SoundKind(read[i].kind)
  {
    hide ParseAttachment, Text, SoundKind;
    if n > 0 {
      var earlier := ParseAttachments(items, n - 1).value;
      CandidatesAreSound(items, n - 1);
      ReadIsSound(items[n - 1].members, CandidateAt(n - 1));
      var last := ParseCandidate(items[n - 1], n - 1, earlier).value;
      forall i | 0 <= i < |earlier| && earlier[i].kind.WiredDynamic? && last.kind.WiredDynamic?
        ensures earlier[i].kind.interface != last.kind.interface
      {
      }
    }
  }

  lemma DocumentIsSound(document: Members)
    requires ParseDocument(document).Ok?
    ensures WellFormed(ParseDocument(document).value)
  {
    hide OneDynamicEach, ParseAttachments, SoundKind, ParseHotspot, OptionalString, Text;
    var items := document["attachments"].items;
    CandidatesAreSound(items, |items|);
  }

  // ---- What is written reads back ----------------------------------------------------------------------

  lemma StringsRead(texts: seq<string>)
    ensures Strings(texts).Array? && AllStrings(Strings(texts).items) && Texts(Strings(texts).items) == texts
  {
  }

  lemma SharedReads(a: Attachment)
    ensures var m := SharedJson(a);
            && m.Keys <= {"kind", "label", "enabled", "verify", "nameservers"}
            && "kind" in m && m["kind"] == String(KindTag(a.kind)) && "label" in m && m["label"] == String(a.label_)
            && "enabled" in m && m["enabled"] == Bool(a.enabled) && "verify" in m && m["verify"] == Bool(a.verify)
            && ("nameservers" in m <==> a.nameservers != [])
            && (a.nameservers != [] ==> m["nameservers"] == Strings(a.nameservers))
  {
  }

  // What the shared members say is not touched by those of the kind.
  lemma KindLeavesShared(m: Members, kind: Kind)
    ensures var n := KindInto(m, kind);
            forall k | k in {"kind", "label", "enabled", "verify", "nameservers"} ::
              (k in n <==> k in m) && (k in m ==> n[k] == m[k])
  {
    hide SecurityJson, Strings;
  }

  lemma SecurityReadsBack(security: Security, above: seq<Segment>)
    requires SoundSecurity(security)
    ensures ParseSecurity(SecurityJson(security), above) == Ok(security)
  {
    hide Text;
  }

  lemma WirelessMembers(m: Members, w: Wireless)
    requires m.Keys !! {"hidden", "interface", "bands"}
    ensures var n := KindInto(m, Wireless_(w));
            && "ssid" in n && n["ssid"] == String(w.ssid)
            && "security" in n && n["security"] == Object(SecurityJson(w.security))
            && ("hidden" in n <==> w.hidden.Some?) && (w.hidden.Some? ==> n["hidden"] == Bool(w.hidden.value))
            && ("interface" in n <==> w.interface.Some?)
            && (w.interface.Some? ==> n["interface"] == String(w.interface.value))
            && ("bands" in n <==> w.bands != []) && (w.bands != [] ==> n["bands"] == Strings(w.bands))
  {
    hide SecurityJson, Strings;
  }

  lemma WirelessReadsBack(m: Members, w: Wireless, above: seq<Segment>)
    requires m.Keys !! {"hidden", "interface", "bands"} && SoundKind(Wireless_(w))
    ensures ParseWireless(KindInto(m, Wireless_(w)), above) == Ok(w)
  {
    WirelessMembers(m, w);
    SecurityReadsBack(w.security, above + [Name("security")]);
    StringsRead(w.bands);
    hide Text, KindInto, SecurityJson, ParseSecurity, Strings, Texts, AllStrings, NoRepeats;
  }

  lemma WiredReadsBack(m: Members, kind: Kind, above: seq<Segment>)
    requires !kind.Wireless_? && SoundKind(kind)
    requires "kind" in m && m["kind"] == String(KindTag(kind))
    ensures ParseKind(KindInto(m, kind), above) == Ok(kind)
  {
    hide Text;
    if kind.WiredStatic? {
      StringsRead(kind.addresses);
      hide Strings, Texts, AllStrings;
    }
  }

  lemma AttachmentReadsBack(a: Attachment, above: seq<Segment>)
    requires SoundKind(a.kind)
    ensures ParseAttachment(AttachmentJson(a), above) == Ok(a)
  {
    var m := SharedJson(a);
    SharedReads(a);
    KindLeavesShared(m, a.kind);
    StringsRead(a.nameservers);
    assert ParseKind(AttachmentJson(a), above) == Ok(a.kind) by {
      hide SharedJson, Text, Strings;
      if a.kind.Wireless_? {
        WirelessReadsBack(m, a.kind.wireless, above);
        hide KindInto, ParseWireless;
      } else {
        WiredReadsBack(m, a.kind, above);
      }
    }
    hide SharedJson, KindInto, ParseKind, Text, Strings, Texts, AllStrings, SoundKind;
  }

  lemma NetworkMembers(h: Hotspot)
    ensures var m := NetworkJson(h);
            && "enabled" in m && m["enabled"] == Bool(h.enabled) && "ssid" in m && m["ssid"] == String(h.ssid)
            && "passphrase" in m && m["passphrase"] == String(h.passphrase)
            && Holds(m, "interface", MaybeString(h.interface)) && Holds(m, "share-upstream", MaybeBool(h.shareUpstream))
            && Holds(m, "isolate-clients", MaybeBool(h.isolateClients))
            && Holds(m, "dhcp-range", MaybeString(h.dhcpRange))
            && m.Keys !! {"band", "channel", "channel-width"}
  {
    hide MaybeString, MaybeBool;
  }

  lemma HotspotMembers(h: Hotspot)
    ensures var m := HotspotJson(h);
            && (forall k | k !in {"band", "channel", "channel-width"} ::
                  (k in m <==> k in NetworkJson(h)) && (k in m ==> m[k] == NetworkJson(h)[k]))
            && Holds(m, "band", MaybeString(h.band)) && Holds(m, "channel", MaybeU32(h.channel))
            && Holds(m, "channel-width", MaybeU32(h.channelWidth))
  {
    NetworkMembers(h);
    hide MaybeString, MaybeU32, NetworkJson;
  }

  predicate Holds(m: Members, name: string, value: Option<Json>)
  {
    if value.Some? then name in m && m[name] == value.value else name !in m
  }

  lemma HeldIsRead(m: Members, above: seq<Segment>)
    ensures forall name, v | Holds(m, name, MaybeString(v)) :: OptionalString(m, name, above) == Ok(v)
    ensures forall name, v | Holds(m, name, MaybeBool(v)) :: OptionalBool(m, name, above) == Ok(v)
    ensures forall name, v | Holds(m, name, MaybeU32(v)) :: OptionalU32(m, name, above) == Ok(v)
  {
    hide FaultAt;
  }

  lemma HotspotHolds(h: Hotspot)
    ensures var m := HotspotJson(h);
            && "enabled" in m && m["enabled"] == Bool(h.enabled) && "ssid" in m && m["ssid"] == String(h.ssid)
            && "passphrase" in m && m["passphrase"] == String(h.passphrase)
            && Holds(m, "interface", MaybeString(h.interface)) && Holds(m, "share-upstream", MaybeBool(h.shareUpstream))
            && Holds(m, "isolate-clients", MaybeBool(h.isolateClients))
            && Holds(m, "dhcp-range", MaybeString(h.dhcpRange))
            && Holds(m, "band", MaybeString(h.band)) && Holds(m, "channel", MaybeU32(h.channel))
            && Holds(m, "channel-width", MaybeU32(h.channelWidth))
  {
    hide HotspotJson, NetworkJson, MaybeString, MaybeBool, MaybeU32;
    NetworkMembers(h);
    HotspotMembers(h);
  }

  lemma HotspotReadsBack(h: Hotspot, above: seq<Segment>)
    ensures ParseHotspot(HotspotJson(h), above) == Ok(h)
  {
    hide HotspotJson, FaultAt, Holds, MaybeString, MaybeBool, MaybeU32, OptionalString, OptionalBool, OptionalU32;
    HotspotHolds(h);
    HeldIsRead(HotspotJson(h), above);
  }

  lemma {:induction false} CandidatesReadBack(attachments: seq<Attachment>, n: nat)
    requires n <= |attachments| && OneDynamicEach(attachments)
    requires forall i | 0 <= i < |attachments| :: SoundKind(attachments[i].kind)
    ensures ParseAttachments(AttachmentsJson(attachments).items, n) == Ok(attachments[..n])
  {
    hide ParseAttachment, AttachmentJson, Text, SoundKind;
    if n > 0 {
      CandidatesReadBack(attachments, n - 1);
      AttachmentReadsBack(attachments[n - 1], CandidateAt(n - 1));
      assert attachments[..n] == attachments[..n - 1] + [attachments[n - 1]];
    }
  }

  lemma DocumentReadsBack(d: Document)
    requires WellFormed(d)
    ensures ParseDocument(ToJson(d)) == Ok(d)
  {
    hide ParseAttachments, AttachmentJson, Text, SoundKind, OneDynamicEach, ParseHotspot, HotspotJson;
    CandidatesReadBack(d.attachments, |d.attachments|);
    assert d.attachments[..|d.attachments|] == d.attachments;
    if d.hotspot.Some? {
      HotspotReadsBack(d.hotspot.value, [Name("hotspot")]);
    }
  }

  /** A document is read back from what it is written as exactly where it is well formed, and every document
      read is: so reading and then writing settles at once. */
  lemma ReadsBackExactly(d: Document)
    ensures ParseDocument(ToJson(d)) == Ok(d) <==> WellFormed(d)
  {
    hide ParseDocument, ToJson, WellFormed;
    if WellFormed(d) {
      DocumentReadsBack(d);
    } else if ParseDocument(ToJson(d)) == Ok(d) {
      DocumentIsSound(ToJson(d));
    }
  }

  /** Reading and writing again changes nothing more. */
  lemma Settles(document: Members)
    requires ParseDocument(document).Ok?
    ensures var d := ParseDocument(document).value; ParseDocument(ToJson(d)) == Ok(d)
  {
    hide ParseDocument, ToJson, WellFormed;
    DocumentIsSound(document);
    DocumentReadsBack(ParseDocument(document).value);
  }

  // ---- Nothing is invented -----------------------------------------------------------------------------

  predicate CarriedMembers(members: Members, all: Members)
  {
    forall k | k in members :: k in all && Contained(members[k], all[k], true)
  }

  lemma {:induction false} CarriedSelf(v: Json)
    ensures Contained(v, v, true)
    decreases v
  {
    match v
    case Object(members) =>
      forall k | k in members ensures Contained(members[k], members[k], true) {
        CarriedSelf(members[k]);
      }
    case Array(items) =>
      forall i | 0 <= i < |items| ensures Contained(items[i], items[i], true) {
        CarriedSelf(items[i]);
      }
    case _ =>
  }

  lemma PutCarried(members: Members, all: Members, name: string, v: Json)
    requires CarriedMembers(members, all) && name in all && Contained(v, all[name], true)
    ensures CarriedMembers(members[name := v], all)
  {
    hide Contained;
  }

  // A member read is one that was there, and is written as it was.
  predicate Was(m: Members, name: string, v: Option<Json>)
  {
    v.Some? ==> name in m && m[name] == v.value
  }

  lemma WithCarried(members: Members, all: Members, name: string, v: Option<Json>)
    requires CarriedMembers(members, all) && Was(all, name, v)
    ensures CarriedMembers(With(members, name, v), all)
  {
    hide CarriedMembers, Contained;
    if v.Some? {
      CarriedSelf(v.value);
      PutCarried(members, all, name, v.value);
    }
  }

  lemma StringsWere(m: Members, name: string, above: seq<Segment>)
    requires StringArray(m, name, above).Ok?
    ensures Was(m, name, SomeStrings(StringArray(m, name, above).value))
  {
    hide Text;
    var texts := StringArray(m, name, above).value;
    if texts != [] {
      assert Strings(texts).items == m[name].items;
    }
  }

  lemma SecurityCarried(m: Members, above: seq<Segment>)
    requires ParseSecurity(m, above).Ok?
    ensures CarriedMembers(SecurityJson(ParseSecurity(m, above).value), m)
  {
    hide Text, CarriedMembers, Contained;
    var security := ParseSecurity(m, above).value;
    if security.Enterprise? {
      CarriedSelf(Object(m));
      assert CarriedMembers(m, m) by {
        assert Contained(Object(m), Object(m), true);
        CarriedObject(m, m);
      }
    } else {
      var kind, passphrase := m["kind"], m["passphrase"];
      NoneCarried(m);
      CarriedSelf(kind);
      PutCarried(map[], m, "kind", kind);
      CarriedSelf(passphrase);
      PutCarried(map["kind" := kind], m, "passphrase", passphrase);
      assert SecurityJson(security) == map["kind" := kind]["passphrase" := passphrase];
    }
  }

  lemma CarriedObject(members: Members, all: Members)
    ensures Contained(Object(members), Object(all), true) <==> CarriedMembers(members, all)
  {
  }

  lemma NoneCarried(all: Members)
    ensures CarriedMembers(map[], all)
  {
  }

  lemma WirelessCarried(members: Members, m: Members, above: seq<Segment>)
    requires CarriedMembers(members, m) && ParseWireless(m, above).Ok?
    ensures CarriedMembers(KindInto(members, Wireless_(ParseWireless(m, above).value)), m)
  {
    var w := ParseWireless(m, above).value;
    StringsWere(m, "bands", above);
    SecurityCarried(m["security"].members, above + [Name("security")]);
    CarriedObject(SecurityJson(w.security), m["security"].members);
    CarriedSelf(m["ssid"]);
    assert Was(m, "hidden", MaybeBool(w.hidden)) && Was(m, "interface", MaybeString(w.interface)) by {
      hide Text, ParseSecurity, StringArray;
    }
    hide Text, CarriedMembers, Contained, ParseSecurity, SecurityJson, StringArray, NoRepeats, SomeStrings, With, Was;
    var a := members["ssid" := String(w.ssid)];
    var b := a["security" := Object(SecurityJson(w.security))];
    var c := With(b, "hidden", MaybeBool(w.hidden));
    PutCarried(members, m, "ssid", String(w.ssid));
    PutCarried(a, m, "security", Object(SecurityJson(w.security)));
    WithCarried(b, m, "hidden", MaybeBool(w.hidden));
    WithCarried(c, m, "interface", MaybeString(w.interface));
    WithCarried(With(c, "interface", MaybeString(w.interface)), m, "bands", SomeStrings(w.bands));
  }

  lemma WiredCarried(members: Members, m: Members, above: seq<Segment>)
    requires CarriedMembers(members, m) && ParseKind(m, above).Ok? && !ParseKind(m, above).value.Wireless_?
    ensures CarriedMembers(KindInto(members, ParseKind(m, above).value), m)
  {
    var kind := ParseKind(m, above).value;
    CarriedSelf(m["interface"]);
    if kind.WiredStatic? {
      StringsWere(m, "addresses", above);
      CarriedSelf(m["addresses"]);
      CarriedSelf(m["gateway"]);
    }
    hide Text, CarriedMembers, Contained, StringArray, Strings;
    var a := members["interface" := m["interface"]];
    PutCarried(members, m, "interface", m["interface"]);
    if kind.WiredStatic? {
      PutCarried(a, m, "addresses", m["addresses"]);
      PutCarried(a["addresses" := m["addresses"]], m, "gateway", m["gateway"]);
    }
  }

  lemma AttachmentCarried(m: Members, above: seq<Segment>)
    requires ParseAttachment(m, above).Ok?
    ensures CarriedMembers(AttachmentJson(ParseAttachment(m, above).value), m)
  {
    var a := ParseAttachment(m, above).value;
    var shared := SharedJson(a);
    SharedCarried(m, above);
    assert ParseKind(m, above) == Ok(a.kind) by {
      hide ParseKind, Text, StringArray;
    }
    hide ParseAttachment, Text, CarriedMembers, SharedJson, ParseWireless, KindInto;
    if a.kind.Wireless_? {
      WirelessCarried(shared, m, above);
    } else {
      WiredCarried(shared, m, above);
    }
  }

  lemma SharedCarried(m: Members, above: seq<Segment>)
    requires ParseAttachment(m, above).Ok?
    ensures CarriedMembers(SharedJson(ParseAttachment(m, above).value), m)
  {
    var a := ParseAttachment(m, above).value;
    StringsWere(m, "nameservers", above);
    KindIsTag(m, above);
    hide Text, ParseKind, StringArray, SomeStrings, KindTag;
    CarriedSelf(m["kind"]);
    CarriedSelf(m["label"]);
    CarriedSelf(m["enabled"]);
    CarriedSelf(m["verify"]);
    hide Contained;
    var shared := map["kind" := m["kind"], "label" := m["label"], "enabled" := m["enabled"], "verify" := m["verify"]];
    assert CarriedMembers(shared, m);
    WithCarried(shared, m, "nameservers", SomeStrings(a.nameservers));
  }

  lemma KindIsTag(m: Members, above: seq<Segment>)
    requires ParseKind(m, above).Ok?
    ensures "kind" in m && m["kind"] == String(KindTag(ParseKind(m, above).value))
  {
    hide Text, ParseWireless, StringArray;
  }

  lemma HotspotWas(m: Members, above: seq<Segment>)
    requires ParseHotspot(m, above).Ok?
    ensures var h := ParseHotspot(m, above).value;
            && "enabled" in m && m["enabled"] == Bool(h.enabled) && "ssid" in m && m["ssid"] == String(h.ssid)
            && "passphrase" in m && m["passphrase"] == String(h.passphrase)
            && Was(m, "interface", MaybeString(h.interface)) && Was(m, "share-upstream", MaybeBool(h.shareUpstream))
            && Was(m, "isolate-clients", MaybeBool(h.isolateClients)) && Was(m, "dhcp-range", MaybeString(h.dhcpRange))
            && Was(m, "band", MaybeString(h.band)) && Was(m, "channel", MaybeU32(h.channel))
            && Was(m, "channel-width", MaybeU32(h.channelWidth))
  {
    hide Text;
  }

  lemma HotspotCarried(m: Members, above: seq<Segment>)
    requires ParseHotspot(m, above).Ok?
    ensures CarriedMembers(HotspotJson(ParseHotspot(m, above).value), m)
  {
    var h := ParseHotspot(m, above).value;
    HotspotWas(m, above);
    CarriedSelf(m["enabled"]);
    CarriedSelf(m["ssid"]);
    CarriedSelf(m["passphrase"]);
    var a := map["enabled" := Bool(h.enabled), "ssid" := String(h.ssid), "passphrase" := String(h.passphrase)];
    assert CarriedMembers(a, m) by {
      hide Contained, ParseHotspot;
    }
    hide ParseHotspot, MaybeString, MaybeBool, MaybeU32, With, Was, CarriedMembers, Contained;
    var b := With(a, "interface", MaybeString(h.interface));
    var c := With(b, "share-upstream", MaybeBool(h.shareUpstream));
    var d := With(c, "isolate-clients", MaybeBool(h.isolateClients));
    var e := With(d, "dhcp-range", MaybeString(h.dhcpRange));
    var f := With(e, "band", MaybeString(h.band));
    WithCarried(a, m, "interface", MaybeString(h.interface));
    WithCarried(b, m, "share-upstream", MaybeBool(h.shareUpstream));
    WithCarried(c, m, "isolate-clients", MaybeBool(h.isolateClients));
    WithCarried(d, m, "dhcp-range", MaybeString(h.dhcpRange));
    WithCarried(e, m, "band", MaybeString(h.band));
    WithCarried(f, m, "channel", MaybeU32(h.channel));
    WithCarried(With(f, "channel", MaybeU32(h.channel)), m, "channel-width", MaybeU32(h.channelWidth));
  }

  lemma {:induction false} CandidatesCarried(items: seq<Json>, n: nat)
    requires n <= |items| && ParseAttachments(items, n).Ok?
    ensures var read := ParseAttachments(items, n).value;
            && |read| == n
            && forall i | 0 <= i < n :: items[i].Object? && CarriedMembers(AttachmentJson(read[i]), items[i].members)
  {
    hide ParseAttachment, AttachmentJson, Text, CarriedMembers;
    if n > 0 {
      CandidatesCarried(items, n - 1);
      AttachmentCarried(items[n - 1].members, CandidateAt(n - 1));
    }
  }

  lemma AttachmentsCarried(items: seq<Json>)
    requires ParseAttachments(items, |items|).Ok?
    ensures Contained(AttachmentsJson(ParseAttachments(items, |items|).value), Array(items), true)
  {
    hide ParseAttachments, AttachmentJson;
    var read := ParseAttachments(items, |items|).value;
    CandidatesCarried(items, |items|);
    forall i | 0 <= i < |items| ensures Contained(Object(AttachmentJson(read[i])), items[i], true) {
      CarriedObject(AttachmentJson(read[i]), items[i].members);
    }
  }

  /** What is written of a document read says nothing the document did not: it leaves out what this build does
      not know, the members left null and the lists left empty, and adds nothing. */
  lemma NothingInvented(document: Members)
    requires ParseDocument(document).Ok?
    ensures Contained(Object(ToJson(ParseDocument(document).value)), Object(document), true)
  {
    hide ParseAttachments, AttachmentJson, ParseHotspot, HotspotJson, Text, Contained, AttachmentsJson, CarriedMembers;
    var d := ParseDocument(document).value;
    AttachmentsCarried(document["attachments"].items);
    NoneCarried(document);
    PutCarried(map[], document, "attachments", AttachmentsJson(d.attachments));
    var a := map["attachments" := AttachmentsJson(d.attachments)];
    var hotspot := if d.hotspot.Some? then Some(Object(HotspotJson(d.hotspot.value))) else None;
    if hotspot.Some? {
      HotspotCarried(document["hotspot"].members, [Name("hotspot")]);
      CarriedObject(HotspotJson(d.hotspot.value), document["hotspot"].members);
      PutCarried(a, document, "hotspot", hotspot.value);
    }
    WithCarried(With(a, "hotspot", hotspot), document, "regulatory-domain", MaybeString(d.regulatoryDomain));
    CarriedObject(ToJson(d), document);
  }

  // ---- Where a fault is --------------------------------------------------------------------------------

  ghost predicate Names(root: Json, invalid: Invalid)
  {
    exists path :: PlacedAt(root, invalid, path)
  }

  ghost predicate PlacedAt(root: Json, invalid: Invalid, path: seq<Segment>)
  {
    invalid.at == Text(path) && (IsNode(root, path) || IsMember(root, path))
  }

  // Any member of an object of the document is a place in it.
  lemma MembersArePlaces(root: Json, above: seq<Segment>)
    requires NodeAt(root, above).Some? && NodeAt(root, above).value.Object?
    ensures forall name :: Names(root, FaultAt(above, name))
  {
    hide Text, NodeAt;
    forall name ensures Names(root, FaultAt(above, name)) {
      var path := above + [Name(name)];
      assert path[..|above|] == above;
      assert PlacedAt(root, FaultAt(above, name), path);
    }
  }

  // A reader that finds a member wanting faults that member.
  lemma ReadersName(root: Json, m: Members, above: seq<Segment>)
    requires NodeAt(root, above).Some? && NodeAt(root, above).value.Object?
    ensures forall name | RequiredString(m, name, above).Err? :: Names(root, RequiredString(m, name, above).error)
    ensures forall name | RequiredBool(m, name, above).Err? :: Names(root, RequiredBool(m, name, above).error)
    ensures forall name | OptionalString(m, name, above).Err? :: Names(root, OptionalString(m, name, above).error)
    ensures forall name | OptionalBool(m, name, above).Err? :: Names(root, OptionalBool(m, name, above).error)
    ensures forall name | OptionalU32(m, name, above).Err? :: Names(root, OptionalU32(m, name, above).error)
    ensures forall name | StringArray(m, name, above).Err? :: Names(root, StringArray(m, name, above).error)
  {
    MembersArePlaces(root, above);
    hide Text, FaultAt, Names, NodeAt, AllStrings;
  }

  lemma SecurityNames(root: Json, m: Members, above: seq<Segment>)
    requires NodeAt(root, above) == Some(Object(m)) && ParseSecurity(m, above).Err?
    ensures Names(root, ParseSecurity(m, above).error)
  {
    hide Text, FaultAt, Names, NodeAt, RequiredString, KindOf;
    ReadersName(root, m, above);
    MembersArePlaces(root, above);
    assert Names(root, FaultAt(above, "kind"));
  }

  lemma WirelessNames(root: Json, m: Members, above: seq<Segment>)
    requires NodeAt(root, above) == Some(Object(m)) && ParseWireless(m, above).Err?
    ensures Names(root, ParseWireless(m, above).error)
  {
    hide Text, FaultAt, Names, NodeAt, ParseSecurity, NoRepeats, RequiredString, OptionalBool, OptionalString,
         StringArray;
    ReadersName(root, m, above);
    MembersArePlaces(root, above);
    assert Names(root, FaultAt(above, "security")) && Names(root, FaultAt(above, "bands"));
    NodeBelow(root, above, Name("security"));
    if "security" in m && m["security"].Object?
       && ParseSecurity(m["security"].members, above + [Name("security")]).Err? {
      SecurityNames(root, m["security"].members, above + [Name("security")]);
    }
  }

  lemma KindNames(root: Json, m: Members, above: seq<Segment>)
    requires NodeAt(root, above) == Some(Object(m)) && ParseKind(m, above).Err?
    ensures Names(root, ParseKind(m, above).error)
  {
    hide Text, FaultAt, Names, NodeAt, ParseWireless, RequiredString, StringArray, KindOf;
    ReadersName(root, m, above);
    MembersArePlaces(root, above);
    assert Names(root, FaultAt(above, "addresses")) && Names(root, FaultAt(above, "kind"));
    if ParseWireless(m, above).Err? {
      WirelessNames(root, m, above);
    }
  }

  lemma AttachmentNames(root: Json, m: Members, above: seq<Segment>)
    requires NodeAt(root, above) == Some(Object(m)) && ParseAttachment(m, above).Err?
    ensures Names(root, ParseAttachment(m, above).error)
  {
    hide Text, FaultAt, Names, NodeAt, ParseKind, RequiredString, RequiredBool, StringArray;
    ReadersName(root, m, above);
    if ParseKind(m, above).Err? {
      KindNames(root, m, above);
    }
  }

  lemma HotspotNames(root: Json, m: Members, above: seq<Segment>)
    requires NodeAt(root, above) == Some(Object(m)) && ParseHotspot(m, above).Err?
    ensures Names(root, ParseHotspot(m, above).error)
  {
    hide Text, FaultAt, Names, NodeAt, RequiredString, RequiredBool, OptionalString, OptionalBool, OptionalU32;
    ReadersName(root, m, above);
  }

  lemma CandidateNames(root: Json, item: Json, index: nat, earlier: seq<Attachment>)
    requires NodeAt(root, CandidateAt(index)) == Some(item) && ParseCandidate(item, index, earlier).Err?
    ensures Names(root, ParseCandidate(item, index, earlier).error)
  {
    hide Text, NodeAt, ParseAttachment, Dynamic;
    if !item.Object? {
      assert PlacedAt(root, Invalid(Text(CandidateAt(index))), CandidateAt(index));
    } else {
      MembersArePlaces(root, CandidateAt(index));
      if ParseAttachment(item.members, CandidateAt(index)).Err? {
        AttachmentNames(root, item.members, CandidateAt(index));
      }
    }
  }

  lemma {:induction false} CandidatesName(document: Members, items: seq<Json>, n: nat)
    requires "attachments" in document && document["attachments"] == Array(items) && n <= |items|
    requires ParseAttachments(items, n).Err?
    ensures Names(Object(document), ParseAttachments(items, n).error)
  {
    hide Text, ParseCandidate, Names;
    if ParseAttachments(items, n - 1).Err? {
      CandidatesName(document, items, n - 1);
    } else {
      CandidateIsThere(document, items, n - 1);
      CandidateNames(Object(document), items[n - 1], n - 1, ParseAttachments(items, n - 1).value);
    }
  }

  lemma CandidateIsThere(document: Members, items: seq<Json>, index: nat)
    requires "attachments" in document && document["attachments"] == Array(items) && index < |items|
    ensures NodeAt(Object(document), CandidateAt(index)) == Some(items[index])
  {
    NodeBelow(Object(document), [], Name("attachments"));
    NodeBelow(Object(document), [Name("attachments")], Index(index));
    assert [] + [Name("attachments")] == [Name("attachments")];
    assert [Name("attachments")] + [Index(index)] == CandidateAt(index);
  }

  lemma RootNames(document: Members)
    ensures Names(Object(document), FaultAt([], "attachments")) && Names(Object(document), FaultAt([], "hotspot"))
  {
    hide Text, FaultAt, Names;
    MembersArePlaces(Object(document), []);
  }

  /** A document not accepted is faulted at a place it has: a node of it, or a member of an object of it. */
  lemma FaultNamesAPlace(document: Members)
    requires ParseDocument(document).Err?
    ensures Names(Object(document), ParseDocument(document).error)
  {
    hide Text, FaultAt, NodeAt, Names, ParseAttachments, ParseRest;
    RootNames(document);
    if "attachments" in document && document["attachments"].Array? {
      var items := document["attachments"].items;
      if ParseAttachments(items, |items|).Err? {
        CandidatesName(document, items, |items|);
      } else {
        RestNames(document, ParseAttachments(items, |items|).value);
      }
    }
  }

  lemma HotspotIsThere(document: Members)
    requires "hotspot" in document
    ensures NodeAt(Object(document), [Name("hotspot")]) == Some(document["hotspot"])
  {
    NodeBelow(Object(document), [], Name("hotspot"));
    assert [] + [Name("hotspot")] == [Name("hotspot")];
  }

  lemma RootReads(document: Members)
    ensures forall name | OptionalString(document, name, []).Err? ::
              Names(Object(document), OptionalString(document, name, []).error)
  {
    hide Text, FaultAt, Names, OptionalString;
    ReadersName(Object(document), document, []);
  }

  lemma RestNames(document: Members, attachments: seq<Attachment>)
    requires ParseRest(document, attachments).Err?
    ensures Names(Object(document), ParseRest(document, attachments).error)
  {
    hide Text, FaultAt, NodeAt, Names, ParseHotspot, OptionalString;
    RootNames(document);
    RootReads(document);
    if "hotspot" in document && document["hotspot"].Object?
       && ParseHotspot(document["hotspot"].members, [Name("hotspot")]).Err? {
      HotspotIsThere(document);
      HotspotNames(Object(document), document["hotspot"].members, [Name("hotspot")]);
    }
  }
}
