/** What is read of a configuration document, each field against the member it is of. */
module ConfigFields {
  import opened Wrappers
  import opened Json
  import opened Path
  import opened Readings
  import opened Config
  import opened ConfigAccepts

  // A member left out, or null.
  predicate LeftOut(m: Members, name: string)
  {
    name !in m || m[name] == Null
  }

  predicate TextIs(m: Members, name: string, text: string)
  {
    name in m && m[name] == String(text)
  }

  predicate BoolIs(m: Members, name: string, b: bool)
  {
    name in m && m[name] == Bool(b)
  }

  predicate MayTextBe(m: Members, name: string, text: Option<string>)
  {
    if text.Some? then TextIs(m, name, text.value) else LeftOut(m, name)
  }

  predicate MayBoolBe(m: Members, name: string, b: Option<bool>)
  {
    if b.Some? then BoolIs(m, name, b.value) else LeftOut(m, name)
  }

  predicate MayWholeBe(m: Members, name: string, n: Option<u32>)
  {
    if n.Some? then name in m && m[name] == Number(Int(n.value)) else LeftOut(m, name)
  }

  // The texts of a list, in its order; a list left out has none.
  predicate TextsAre(m: Members, name: string, texts: seq<string>)
  {
    if LeftOut(m, name) then texts == []
    else
      && m[name].Array? && |m[name].items| == |texts|
      && forall i | 0 <= i < |texts| :: m[name].items[i] == String(texts[i])
  }

  predicate SecurityIs(m: Members, security: Security)
  {
    match security
    case Psk(passphrase) => TextIs(m, "kind", "psk") && TextIs(m, "passphrase", passphrase)
    case Sae(passphrase) => TextIs(m, "kind", "sae") && TextIs(m, "passphrase", passphrase)
    case PskSae(passphrase) => TextIs(m, "kind", "psk-sae") && TextIs(m, "passphrase", passphrase)
    case Enterprise(members) => TextIs(m, "kind", "enterprise") && members == m
  }

  predicate WirelessIs(m: Members, w: Wireless)
  {
    && TextIs(m, "ssid", w.ssid) && MayBoolBe(m, "hidden", w.hidden) && MayTextBe(m, "interface", w.interface)
    && TextsAre(m, "bands", w.bands)
    && "security" in m && m["security"].Object? && SecurityIs(m["security"].members, w.security)
  }

  predicate KindIs(m: Members, kind: Kind)
  {
    match kind
    case Wireless_(w) => TextIs(m, "kind", "wireless") && WirelessIs(m, w)
    case WiredDynamic(interface) => TextIs(m, "kind", "wired-dynamic") && TextIs(m, "interface", interface)
    case WiredStatic(interface, addresses, gateway) =>
      && TextIs(m, "kind", "wired-static") && TextIs(m, "interface", interface)
      && TextsAre(m, "addresses", addresses) && TextIs(m, "gateway", gateway)
  }

  predicate AttachmentIs(m: Members, a: Attachment)
  {
    && TextIs(m, "label", a.label_) && BoolIs(m, "enabled", a.enabled) && BoolIs(m, "verify", a.verify)
    && TextsAre(m, "nameservers", a.nameservers) && KindIs(m, a.kind)
  }

  predicate HotspotIs(m: Members, h: Hotspot)
  {
    && BoolIs(m, "enabled", h.enabled) && TextIs(m, "ssid", h.ssid) && TextIs(m, "passphrase", h.passphrase)
    && MayTextBe(m, "interface", h.interface) && MayBoolBe(m, "share-upstream", h.shareUpstream)
    && MayBoolBe(m, "isolate-clients", h.isolateClients) && MayTextBe(m, "dhcp-range", h.dhcpRange)
    && MayTextBe(m, "band", h.band) && MayWholeBe(m, "channel", h.channel)
    && MayWholeBe(m, "channel-width", h.channelWidth)
  }

  predicate AttachmentsAre(items: seq<Json>, attachments: seq<Attachment>)
  {
    && |items| == |attachments|
    && forall i | 0 <= i < |items| :: items[i].Object? && AttachmentIs(items[i].members, attachments[i])
  }

  predicate DocumentIs(document: Members, d: Document)
  {
    && "attachments" in document && document["attachments"].Array?
    && AttachmentsAre(document["attachments"].items, d.attachments)
    && (if d.hotspot.Some? then
          && "hotspot" in document && document["hotspot"].Object?
          && HotspotIs(document["hotspot"].members, d.hotspot.value)
        else LeftOut(document, "hotspot"))
    && MayTextBe(document, "regulatory-domain", d.regulatoryDomain)
  }

  // ---- What is read ------------------------------------------------------------------------------------

  lemma ReadersRead(m: Members, above: seq<Segment>)
    ensures forall name, text :: RequiredString(m, name, above) == Ok(text) <==> TextIs(m, name, text)
    ensures forall name, b :: RequiredBool(m, name, above) == Ok(b) <==> BoolIs(m, name, b)
    ensures forall name, text :: OptionalString(m, name, above) == Ok(text) <==> MayTextBe(m, name, text)
    ensures forall name, b :: OptionalBool(m, name, above) == Ok(b) <==> MayBoolBe(m, name, b)
    ensures forall name, n: Option<u32> :: OptionalU32(m, name, above) == Ok(n) <==> MayWholeBe(m, name, n)
  {
    hide FaultAt;
  }

  lemma TextsRead(m: Members, name: string, above: seq<Segment>, texts: seq<string>)
    ensures StringArray(m, name, above) == Ok(texts) <==> TextsAre(m, name, texts)
  {
    hide FaultAt;
    if !LeftOut(m, name) && m[name].Array? {
      var items := m[name].items;
      if AllStrings(items) {
        assert TextsAre(m, name, texts) <==> Texts(items) == texts;
      } else {
        assert !TextsAre(m, name, texts);
      }
    }
  }

  lemma SecurityRead(m: Members, above: seq<Segment>, security: Security)
    ensures ParseSecurity(m, above) == Ok(security) <==> SecurityIs(m, security)
  {
    ReadersRead(m, above);
    hide FaultAt, RequiredString;
  }

  lemma WirelessRead(m: Members, above: seq<Segment>, w: Wireless)
    ensures ParseWireless(m, above) == Ok(w) <==> WirelessIs(m, w) && WirelessFits(m)
  {
    hide FaultAt, ParseSecurity, RequiredString, OptionalBool, OptionalString, StringArray, TextIs, MayBoolBe,
         MayTextBe, TextsAre, SecurityIs, WirelessFits, NoRepeats;
    ReadersRead(m, above);
    TextsRead(m, "bands", above, w.bands);
    WirelessFitsExactly(m, above);
    if "security" in m && m["security"].Object? {
      SecurityRead(m["security"].members, above + [Name("security")], w.security);
    }
    if WirelessFits(m) && WirelessIs(m, w) {
      assert ParseWireless(m, above).Ok?;
    }
  }

  lemma KindRead(m: Members, above: seq<Segment>, kind: Kind)
    ensures ParseKind(m, above) == Ok(kind) <==> KindIs(m, kind) && KindFits(m)
  {
    hide FaultAt, ParseWireless, RequiredString, StringArray, WirelessFits, WirelessIs, TextsAre;
    ReadersRead(m, above);
    KindFitsExactly(m, above);
    match kind
    case Wireless_(w) => WirelessRead(m, above, w);
    case WiredStatic(_, addresses, _) => TextsRead(m, "addresses", above, addresses);
    case WiredDynamic(_) =>
  }

  lemma AttachmentRead(m: Members, above: seq<Segment>, a: Attachment)
    ensures ParseAttachment(m, above) == Ok(a) <==> AttachmentIs(m, a) && CandidateFits(m)
  {
    hide FaultAt, ParseKind, KindFits, KindIs, RequiredString, RequiredBool, StringArray, TextIs, BoolIs, TextsAre;
    ReadersRead(m, above);
    CandidateFitsExactly(m, above);
    TextsRead(m, "nameservers", above, a.nameservers);
    KindRead(m, above, a.kind);
  }

  lemma HotspotRead(m: Members, above: seq<Segment>, h: Hotspot)
    ensures ParseHotspot(m, above) == Ok(h) <==> HotspotIs(m, h)
  {
    hide FaultAt, RequiredString, RequiredBool, OptionalString, OptionalBool, OptionalU32, TextIs, BoolIs, MayTextBe,
         MayBoolBe, MayWholeBe;
    ReadersRead(m, above);
  }

  lemma {:induction false} AttachmentsRead(items: seq<Json>, n: nat, attachments: seq<Attachment>)
    requires n <= |items|
    ensures ParseAttachments(items, n) == Ok(attachments) <==>
            AttachmentsAre(items[..n], attachments) && CandidatesFit(items, n)
  {
    hide FaultAt, ParseCandidate, AttachmentIs, Stands;
    CandidatesFitExactly(items, n);
    if n > 0 {
      var before := if attachments == [] then [] else attachments[..|attachments| - 1];
      AttachmentsRead(items, n - 1, before);
      assert items[..n] == items[..n - 1] + [items[n - 1]];
      if attachments != [] {
        assert attachments == before + [attachments[|attachments| - 1]];
        CandidateRead(items[n - 1], n - 1, before, attachments[|attachments| - 1]);
      }
    }
  }

  lemma CandidateRead(item: Json, index: nat, earlier: seq<Attachment>, a: Attachment)
    ensures ParseCandidate(item, index, earlier).Ok? ==>
              (ParseCandidate(item, index, earlier) == Ok(a) <==> item.Object? && AttachmentIs(item.members, a))
  {
    hide FaultAt, ParseAttachment, AttachmentIs, Text, Dynamic;
    if item.Object? {
      AttachmentRead(item.members, CandidateAt(index), a);
      CandidateFitsExactly(item.members, CandidateAt(index));
    }
  }

  /** What a document is read as is exactly what its members say: the one reading of a document that fits whose every
      field is the member of its name. */
  lemma ReadsEachField(document: Members, d: Document)
    ensures ParseDocument(document) == Ok(d) <==> DocumentIs(document, d) && Fits(document)
  {
    hide FaultAt, ParseAttachments, CandidatesFit, ParseHotspot, HotspotIs, HotspotFits, OptionalString, MayTextBe,
         MayBeString, AttachmentsAre;
    ReadersRead(document, []);
    AcceptedExactly(document);
    if "attachments" in document && document["attachments"].Array? {
      var items := document["attachments"].items;
      AttachmentsRead(items, |items|, d.attachments);
      assert items[..|items|] == items;
    }
    if "hotspot" in document && document["hotspot"].Object? && d.hotspot.Some? {
      HotspotRead(document["hotspot"].members, [Name("hotspot")], d.hotspot.value);
    }
  }

  // ---- What is at fault --------------------------------------------------------------------------------

  predicate SecurityUnfit(m: Members, name: string)
  {
    var kind := KindOf(m);
    if kind == Some("psk") || kind == Some("sae") || kind == Some("psk-sae") then
      name == "passphrase" && !IsString(m, "passphrase")
    else name == "kind" && kind != Some("enterprise")
  }

  // A member that keeps its candidate from fitting.
  predicate CandidateUnfit(m: Members, name: string)
  {
    var kind := KindOf(m);
    || (name == "label" && !IsString(m, "label"))
    || (name in {"enabled", "verify"} && !IsBool(m, name))
    || (name == "nameservers" && !MayBeList(m, "nameservers"))
    || (name == "kind" && kind != Some("wireless") && kind != Some("wired-dynamic") && kind != Some("wired-static"))
    || (kind == Some("wireless") && WirelessUnfit(m, name))
    || (kind == Some("wired-dynamic") && name == "interface" && !IsString(m, "interface"))
    || (kind == Some("wired-static") && StaticUnfit(m, name))
  }

  predicate WirelessUnfit(m: Members, name: string)
  {
    || (name == "ssid" && !IsString(m, "ssid"))
    || (name == "security" && !("security" in m && m["security"].Object?))
    || (name == "hidden" && !MayBeBool(m, "hidden"))
    || (name == "interface" && !MayBeString(m, "interface"))
    || (name == "bands" && !BandsFit(m))
  }

  predicate StaticUnfit(m: Members, name: string)
  {
    || (name in {"interface", "gateway"} && !IsString(m, name))
    || (name == "addresses" && !(IsList(m, "addresses") && m["addresses"].items != []))
  }

  predicate HotspotUnfit(m: Members, name: string)
  {
    || (name == "enabled" && !IsBool(m, "enabled"))
    || (name in {"ssid", "passphrase"} && !IsString(m, name))
    || (name in {"interface", "dhcp-range", "band"} && !MayBeString(m, name))
    || (name in {"share-upstream", "isolate-clients"} && !MayBeBool(m, name))
    || (name in {"channel", "channel-width"} && !MayBeWhole(m, name))
  }

  ghost predicate SecurityFault(m: Members, above: seq<Segment>, invalid: Invalid)
  {
    exists name :: invalid == FaultAt(above, name) && SecurityUnfit(m, name)
  }

  ghost predicate CandidateFault(m: Members, above: seq<Segment>, invalid: Invalid)
  {
    || (exists name :: invalid == FaultAt(above, name) && CandidateUnfit(m, name))
    || (KindOf(m) == Some("wireless") && "security" in m && m["security"].Object?
        && SecurityFault(m["security"].members, above + [Name("security")], invalid))
  }

  ghost predicate HotspotFault(m: Members, above: seq<Segment>, invalid: Invalid)
  {
    exists name :: invalid == FaultAt(above, name) && HotspotUnfit(m, name)
  }

  // The first candidate at fault, and what of it is: it is no object, it has a member that does not fit, or it is the
  // second to be dynamic on its interface.
  ghost predicate ItemFault(items: seq<Json>, i: nat, invalid: Invalid)
    requires i < |items|
  {
    && CandidatesFit(items, i)
    && (if !items[i].Object? then invalid == Invalid(Text(CandidateAt(i)))
        else
          || CandidateFault(items[i].members, CandidateAt(i), invalid)
          || (invalid == FaultAt(CandidateAt(i), "interface") && !Stands(items, i)
              && CandidateFits(items[i].members)))
  }

  ghost predicate DocumentFault(document: Members, invalid: Invalid)
  {
    if !("attachments" in document && document["attachments"].Array?) then invalid == FaultAt([], "attachments")
    else
      var items := document["attachments"].items;
      if !CandidatesFit(items, |items|) then exists i | 0 <= i < |items| :: ItemFault(items, i, invalid)
      else if !Unset(document, "hotspot") && !document["hotspot"].Object? then invalid == FaultAt([], "hotspot")
      else if !Unset(document, "hotspot") && !HotspotFits(document["hotspot"].members) then
        HotspotFault(document["hotspot"].members, [Name("hotspot")], invalid)
      else invalid == FaultAt([], "regulatory-domain") && !MayBeString(document, "regulatory-domain")
  }

  lemma ReadersFault(m: Members, above: seq<Segment>)
    ensures forall name :: RequiredString(m, name, above) == Err(FaultAt(above, name)) <==> !IsString(m, name)
    ensures forall name :: RequiredString(m, name, above).Ok? <==> IsString(m, name)
    ensures forall name :: RequiredBool(m, name, above) == Err(FaultAt(above, name)) <==> !IsBool(m, name)
    ensures forall name :: RequiredBool(m, name, above).Ok? <==> IsBool(m, name)
    ensures forall name :: OptionalString(m, name, above) == Err(FaultAt(above, name)) <==> !MayBeString(m, name)
    ensures forall name :: OptionalString(m, name, above).Ok? <==> MayBeString(m, name)
    ensures forall name :: OptionalBool(m, name, above) == Err(FaultAt(above, name)) <==> !MayBeBool(m, name)
    ensures forall name :: OptionalBool(m, name, above).Ok? <==> MayBeBool(m, name)
    ensures forall name :: OptionalU32(m, name, above) == Err(FaultAt(above, name)) <==> !MayBeWhole(m, name)
    ensures forall name :: OptionalU32(m, name, above).Ok? <==> MayBeWhole(m, name)
    ensures forall name :: StringArray(m, name, above) == Err(FaultAt(above, name)) <==> !MayBeList(m, name)
    ensures forall name :: StringArray(m, name, above).Ok? <==> MayBeList(m, name)
  {
    hide FaultAt, AllStrings, Texts;
  }

  lemma SecurityIsAtFault(m: Members, above: seq<Segment>)
    requires ParseSecurity(m, above).Err?
    ensures SecurityFault(m, above, ParseSecurity(m, above).error)
  {
    ReadersFault(m, above);
    hide FaultAt, RequiredString, IsString;
    assert SecurityUnfit(m, if KindOf(m) == Some("psk") || KindOf(m) == Some("sae") || KindOf(m) == Some("psk-sae")
                            then "passphrase" else "kind");
  }

  lemma WirelessIsAtFault(m: Members, above: seq<Segment>)
    requires KindOf(m) == Some("wireless") && ParseWireless(m, above).Err?
    ensures CandidateFault(m, above, ParseWireless(m, above).error)
  {
    ReadersFault(m, above);
    BandsFitExactly(m, above);
    hide FaultAt, RequiredString, OptionalString, OptionalBool, StringArray, IsString, MayBeString, MayBeBool,
         MayBeList, BandsFit, ParseSecurity, SecurityFault, NoRepeats;
    var invalid := ParseWireless(m, above).error;
    if "security" in m && m["security"].Object?
       && ParseSecurity(m["security"].members, above + [Name("security")]).Err? {
      SecurityIsAtFault(m["security"].members, above + [Name("security")]);
    }
    assert forall name :: WirelessUnfit(m, name) ==> CandidateUnfit(m, name);
    hide CandidateUnfit;
    if !IsString(m, "ssid") {
      assert CandidateUnfit(m, "ssid");
    } else if !("security" in m && m["security"].Object?) {
      assert CandidateUnfit(m, "security");
    } else if ParseSecurity(m["security"].members, above + [Name("security")]).Err? {
    } else if !MayBeBool(m, "hidden") {
      assert CandidateUnfit(m, "hidden");
    } else if !MayBeString(m, "interface") {
      assert CandidateUnfit(m, "interface");
    } else {
      assert CandidateUnfit(m, "bands");
    }
  }

  lemma AddressesNone(m: Members, above: seq<Segment>)
    ensures StaticUnfit(m, "addresses") <==>
            StringArray(m, "addresses", above) == Err(FaultAt(above, "addresses")) ||
            StringArray(m, "addresses", above) == Ok([])
  {
    hide FaultAt, AllStrings, Texts;
    if IsList(m, "addresses") {
      TextsCount(m["addresses"].items);
    }
  }

  lemma TextsCount(items: seq<Json>)
    requires AllStrings(items)
    ensures Texts(items) == [] <==> items == []
  {
    assert |Texts(items)| == |items|;
  }

  lemma KindIsAtFault(m: Members, above: seq<Segment>)
    requires ParseKind(m, above).Err?
    ensures CandidateFault(m, above, ParseKind(m, above).error)
  {
    ReadersFault(m, above);
    hide FaultAt, RequiredString, StringArray, IsString, ParseWireless, SecurityFault, WirelessUnfit;
    var kind := KindOf(m);
    if kind == Some("wireless") {
      WirelessIsAtFault(m, above);
    } else if kind == Some("wired-static") {
      AddressesNone(m, above);
      hide IsList;
      if !IsString(m, "interface") {
        assert CandidateUnfit(m, "interface");
      } else if StaticUnfit(m, "addresses") {
        assert CandidateUnfit(m, "addresses");
      } else {
        assert CandidateUnfit(m, "gateway");
      }
    } else if kind == Some("wired-dynamic") {
      assert CandidateUnfit(m, "interface");
    } else {
      assert CandidateUnfit(m, "kind");
    }
  }

  lemma AttachmentIsAtFault(m: Members, above: seq<Segment>)
    requires ParseAttachment(m, above).Err?
    ensures CandidateFault(m, above, ParseAttachment(m, above).error)
  {
    ReadersFault(m, above);
    hide FaultAt, RequiredString, RequiredBool, StringArray, IsString, IsBool, MayBeList, ParseKind, SecurityFault,
         WirelessUnfit, StaticUnfit;
    if !IsString(m, "label") {
      assert CandidateUnfit(m, "label");
    } else if !IsBool(m, "enabled") {
      assert CandidateUnfit(m, "enabled");
    } else if !IsBool(m, "verify") {
      assert CandidateUnfit(m, "verify");
    } else if !MayBeList(m, "nameservers") {
      assert CandidateUnfit(m, "nameservers");
    } else {
      hide CandidateFault;
      KindIsAtFault(m, above);
    }
  }

  lemma HotspotIsAtFault(m: Members, above: seq<Segment>)
    requires ParseHotspot(m, above).Err?
    ensures HotspotFault(m, above, ParseHotspot(m, above).error)
  {
    ReadersFault(m, above);
    hide FaultAt, RequiredString, RequiredBool, OptionalString, OptionalBool, OptionalU32, IsString, IsBool,
         MayBeString, MayBeBool, MayBeWhole;
    if !IsBool(m, "enabled") {
      assert HotspotUnfit(m, "enabled");
    } else if !IsString(m, "ssid") {
      assert HotspotUnfit(m, "ssid");
    } else if !IsString(m, "passphrase") {
      assert HotspotUnfit(m, "passphrase");
    } else if !MayBeString(m, "interface") {
      assert HotspotUnfit(m, "interface");
    } else if !MayBeBool(m, "share-upstream") {
      assert HotspotUnfit(m, "share-upstream");
    } else if !MayBeBool(m, "isolate-clients") {
      assert HotspotUnfit(m, "isolate-clients");
    } else if !MayBeString(m, "dhcp-range") {
      assert HotspotUnfit(m, "dhcp-range");
    } else if !MayBeString(m, "band") {
      assert HotspotUnfit(m, "band");
    } else if !MayBeWhole(m, "channel") {
      assert HotspotUnfit(m, "channel");
    } else {
      assert HotspotUnfit(m, "channel-width");
    }
  }

  lemma {:induction false} ItemsAreAtFault(items: seq<Json>, n: nat)
    requires n <= |items| && ParseAttachments(items, n).Err?
    ensures exists i | 0 <= i < n :: ItemFault(items, i, ParseAttachments(items, n).error)
  {
    hide FaultAt, ParseCandidate, Stands, CandidateFits, CandidateFault;
    if ParseAttachments(items, n - 1).Err? {
      ItemsAreAtFault(items, n - 1);
    } else {
      var earlier := ParseAttachments(items, n - 1).value;
      CandidatesFitExactly(items, n - 1);
      CandidateIsAtFault(items, n - 1, earlier);
      assert ItemFault(items, n - 1, ParseAttachments(items, n).error);
    }
  }

  lemma CandidateIsAtFault(items: seq<Json>, n: nat, earlier: seq<Attachment>)
    requires n < |items| && SameDynamics(earlier, items, n) && CandidatesFit(items, n)
    requires ParseCandidate(items[n], n, earlier).Err?
    ensures ItemFault(items, n, ParseCandidate(items[n], n, earlier).error)
  {
    OneMoreCandidate(items, n, earlier);
    hide FaultAt, Text, ParseAttachment, Stands, CandidateFits, CandidateFault, SameDynamics, CandidatesFit, Dynamic;
    if items[n].Object? {
      var m, above := items[n].members, CandidateAt(n);
      CandidateFitsExactly(m, above);
      if ParseAttachment(m, above).Err? {
        AttachmentIsAtFault(m, above);
      }
    }
  }

  /** A document refused is refused at the first part of it that does not fit, and the place named is that part. */
  lemma FaultIsWhatDoesNotFit(document: Members)
    requires ParseDocument(document).Err?
    ensures DocumentFault(document, ParseDocument(document).error)
  {
    hide FaultAt, ParseAttachments, CandidatesFit, ParseHotspot, HotspotFits, HotspotFault, OptionalString, MayBeString,
         ItemFault;
    ReadersFault(document, []);
    if "attachments" in document && document["attachments"].Array? {
      var items := document["attachments"].items;
      CandidatesFitExactly(items, |items|);
      if ParseAttachments(items, |items|).Err? {
        ItemsAreAtFault(items, |items|);
      }
    }
    if "hotspot" in document && document["hotspot"].Object? {
      HotspotFitsExactly(document["hotspot"].members, [Name("hotspot")]);
      if ParseHotspot(document["hotspot"].members, [Name("hotspot")]).Err? {
        HotspotIsAtFault(document["hotspot"].members, [Name("hotspot")]);
      }
    }
  }
}
