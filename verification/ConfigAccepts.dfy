/** Which configuration documents are accepted, said without reading them in any order. */
module ConfigAccepts {
  import opened Wrappers
  import opened Json
  import opened Path
  import opened Config

  predicate IsString(m: Members, name: string)
  {
    name in m && m[name].String?
  }

  predicate IsBool(m: Members, name: string)
  {
    name in m && m[name].Bool?
  }

  predicate MayBeString(m: Members, name: string)
  {
    Unset(m, name) || m[name].String?
  }

  predicate MayBeBool(m: Members, name: string)
  {
    Unset(m, name) || m[name].Bool?
  }

  predicate MayBeWhole(m: Members, name: string)
  {
    Unset(m, name) || (m[name].Number? && m[name].number.Int? && 0 <= m[name].number.i < 0x1_0000_0000)
  }

  predicate IsList(m: Members, name: string)
  {
    name in m && m[name].Array? && AllStrings(m[name].items)
  }

  predicate MayBeList(m: Members, name: string)
  {
    Unset(m, name) || IsList(m, name)
  }

  predicate SecurityFits(m: Members)
  {
    || KindOf(m) == Some("enterprise")
    || ((KindOf(m) == Some("psk") || KindOf(m) == Some("sae") || KindOf(m) == Some("psk-sae"))
        && IsString(m, "passphrase"))
  }

  // Bands present name at least one, and none twice.
  predicate BandsFit(m: Members)
  {
    "bands" in m ==>
      IsList(m, "bands") && m["bands"].items != []
      && forall i, j | 0 <= i < j < |m["bands"].items| :: m["bands"].items[i] != m["bands"].items[j]
  }

  predicate WirelessFits(m: Members)
  {
    && IsString(m, "ssid") && "security" in m && m["security"].Object? && SecurityFits(m["security"].members)
    && MayBeBool(m, "hidden") && MayBeString(m, "interface") && BandsFit(m)
  }

  predicate StaticFits(m: Members)
  {
    IsString(m, "interface") && IsList(m, "addresses") && m["addresses"].items != [] && IsString(m, "gateway")
  }

  predicate KindFits(m: Members)
  {
    || (KindOf(m) == Some("wireless") && WirelessFits(m))
    || (KindOf(m) == Some("wired-dynamic") && IsString(m, "interface"))
    || (KindOf(m) == Some("wired-static") && StaticFits(m))
  }

  predicate CandidateFits(m: Members)
  {
    IsString(m, "label") && IsBool(m, "enabled") && IsBool(m, "verify") && MayBeList(m, "nameservers") && KindFits(m)
  }

  predicate HotspotFits(m: Members)
  {
    && IsBool(m, "enabled") && IsString(m, "ssid") && IsString(m, "passphrase") && MayBeString(m, "interface")
    && MayBeBool(m, "share-upstream") && MayBeBool(m, "isolate-clients") && MayBeString(m, "dhcp-range")
    && MayBeString(m, "band") && MayBeWhole(m, "channel") && MayBeWhole(m, "channel-width")
  }

  // A candidate taking its addressing dynamically on this interface.
  predicate IsDynamic(item: Json, interface: string)
  {
    item.Object? && KindOf(item.members) == Some("wired-dynamic") && IsString(item.members, "interface")
    && item.members["interface"].text == interface
  }

  // Whether some candidate before the `n`th does.
  predicate AnyDynamic(items: seq<Json>, n: nat, interface: string)
    requires n <= |items|
  {
    exists i | 0 <= i < n :: IsDynamic(items[i], interface)
  }

  // The `n`th candidate fits, and is not the second to take its addressing dynamically on one interface.
  ghost predicate Stands(items: seq<Json>, n: nat)
    requires n < |items|
  {
    && items[n].Object? && CandidateFits(items[n].members)
    && forall interface | IsDynamic(items[n], interface) :: !AnyDynamic(items, n, interface)
  }

  ghost predicate CandidatesFit(items: seq<Json>, n: nat)
    requires n <= |items|
  {
    forall i | 0 <= i < n :: Stands(items, i)
  }

  ghost predicate Fits(document: Members)
  {
    && "attachments" in document && document["attachments"].Array?
    && CandidatesFit(document["attachments"].items, |document["attachments"].items|)
    && (Unset(document, "hotspot") || (document["hotspot"].Object? && HotspotFits(document["hotspot"].members)))
    && MayBeString(document, "regulatory-domain")
  }

  // ---- What is read of what fits -----------------------------------------------------------------------

  lemma ReadersFit(m: Members, above: seq<Segment>)
    ensures forall name :: RequiredString(m, name, above).Ok? <==> IsString(m, name)
    ensures forall name :: RequiredBool(m, name, above).Ok? <==> IsBool(m, name)
    ensures forall name :: OptionalString(m, name, above).Ok? <==> MayBeString(m, name)
    ensures forall name :: OptionalBool(m, name, above).Ok? <==> MayBeBool(m, name)
    ensures forall name :: OptionalU32(m, name, above).Ok? <==> MayBeWhole(m, name)
    ensures forall name :: StringArray(m, name, above).Ok? <==> MayBeList(m, name)
  {
    hide FaultAt, AllStrings, Texts;
  }

  lemma SecurityFitsExactly(m: Members, above: seq<Segment>)
    ensures ParseSecurity(m, above).Ok? <==> SecurityFits(m)
  {
    hide FaultAt, RequiredString, IsString;
    ReadersFit(m, above);
  }

  lemma BandsFitExactly(m: Members, above: seq<Segment>)
    ensures BandsFit(m) <==>
            && StringArray(m, "bands", above).Ok?
            && !("bands" in m && StringArray(m, "bands", above).value == [])
            && NoRepeats(StringArray(m, "bands", above).value)
  {
    hide FaultAt;
    if IsList(m, "bands") {
      var items := m["bands"].items;
      assert |Texts(items)| == |items| && forall i | 0 <= i < |items| :: items[i] == String(Texts(items)[i]);
    }
  }

  lemma WirelessFitsExactly(m: Members, above: seq<Segment>)
    ensures ParseWireless(m, above).Ok? <==> WirelessFits(m)
  {
    hide FaultAt, ParseSecurity, SecurityFits, RequiredString, OptionalBool, OptionalString, StringArray, NoRepeats,
         BandsFit, IsString, MayBeString, MayBeBool;
    ReadersFit(m, above);
    BandsFitExactly(m, above);
    if "security" in m && m["security"].Object? {
      SecurityFitsExactly(m["security"].members, above + [Name("security")]);
    }
  }

  lemma StaticFitsExactly(m: Members, above: seq<Segment>)
    ensures StaticFits(m) <==>
            && RequiredString(m, "interface", above).Ok?
            && StringArray(m, "addresses", above).Ok? && StringArray(m, "addresses", above).value != []
            && RequiredString(m, "gateway", above).Ok?
  {
    hide FaultAt;
  }

  lemma KindFitsExactly(m: Members, above: seq<Segment>)
    ensures ParseKind(m, above).Ok? <==> KindFits(m)
  {
    hide FaultAt, ParseWireless, WirelessFits, StaticFits, RequiredString, StringArray, IsString;
    ReadersFit(m, above);
    WirelessFitsExactly(m, above);
    StaticFitsExactly(m, above);
  }

  lemma CandidateFitsExactly(m: Members, above: seq<Segment>)
    ensures ParseAttachment(m, above).Ok? <==> CandidateFits(m)
  {
    hide FaultAt, ParseKind, KindFits, RequiredString, RequiredBool, StringArray, IsString, IsBool, MayBeList;
    ReadersFit(m, above);
    KindFitsExactly(m, above);
  }

  lemma HotspotFitsExactly(m: Members, above: seq<Segment>)
    ensures ParseHotspot(m, above).Ok? <==> HotspotFits(m)
  {
    hide FaultAt, RequiredString, RequiredBool, OptionalString, OptionalBool, OptionalU32, IsString, IsBool,
         MayBeString, MayBeBool, MayBeWhole;
    ReadersFit(m, above);
  }

  // Which interface a candidate read is dynamic on.
  lemma ReadsDynamic(m: Members, above: seq<Segment>, interface: string)
    requires ParseAttachment(m, above).Ok?
    ensures ParseAttachment(m, above).value.kind == WiredDynamic(interface) <==> IsDynamic(Object(m), interface)
  {
    hide FaultAt, ParseWireless, StringArray;
  }

  // The candidates read are dynamic where the candidates were.
  ghost predicate SameDynamics(read: seq<Attachment>, items: seq<Json>, n: nat)
    requires n <= |items|
  {
    forall interface :: Dynamic(read, interface) <==> AnyDynamic(items, n, interface)
  }

  lemma {:induction false} CandidatesFitExactly(items: seq<Json>, n: nat)
    requires n <= |items|
    ensures ParseAttachments(items, n).Ok? <==> CandidatesFit(items, n)
    ensures ParseAttachments(items, n).Ok? ==> SameDynamics(ParseAttachments(items, n).value, items, n)
  {
    hide Stands, SameDynamics, ParseCandidate;
    if n == 0 {
      NoDynamics(items);
    } else {
      CandidatesFitExactly(items, n - 1);
      assert CandidatesFit(items, n) <==> CandidatesFit(items, n - 1) && Stands(items, n - 1);
      hide CandidatesFit;
      if ParseAttachments(items, n - 1).Ok? {
        OneMoreCandidate(items, n - 1, ParseAttachments(items, n - 1).value);
      }
    }
  }

  lemma NoDynamics(items: seq<Json>)
    ensures SameDynamics([], items, 0)
  {
  }

  lemma OneMoreCandidate(items: seq<Json>, n: nat, earlier: seq<Attachment>)
    requires n < |items| && SameDynamics(earlier, items, n)
    ensures ParseCandidate(items[n], n, earlier).Ok? <==> Stands(items, n)
    ensures ParseCandidate(items[n], n, earlier).Ok? ==>
              SameDynamics(earlier + [ParseCandidate(items[n], n, earlier).value], items, n + 1)
  {
    hide FaultAt, Text, ParseAttachment, CandidateFits, IsDynamic, Dynamic, AnyDynamic;
    var item, at := items[n], CandidateAt(n);
    if item.Object? {
      CandidateFitsExactly(item.members, at);
      if ParseAttachment(item.members, at).Ok? {
        var read := ParseAttachment(item.members, at).value;
        forall interface ensures read.kind == WiredDynamic(interface) <==> IsDynamic(item, interface) {
          ReadsDynamic(item.members, at, interface);
        }
        DynamicSnoc(earlier, read);
        AnySnoc(items, n);
        if read.kind.WiredDynamic? {
          assert IsDynamic(item, read.kind.interface);
        }
      }
    }
  }

  lemma AnySnoc(items: seq<Json>, n: nat)
    requires n < |items|
    ensures forall interface :: AnyDynamic(items, n + 1, interface) <==>
              AnyDynamic(items, n, interface) || IsDynamic(items[n], interface)
  {
    hide IsDynamic;
  }

  /** A document is accepted exactly where it fits, whatever else it carries. */
  lemma AcceptedExactly(document: Members)
    ensures ParseDocument(document).Ok? <==> Fits(document)
  {
    hide FaultAt, ParseAttachments, CandidatesFit, ParseHotspot, HotspotFits, OptionalString, MayBeString;
    ReadersFit(document, []);
    if "attachments" in document && document["attachments"].Array? {
      CandidatesFitExactly(document["attachments"].items, |document["attachments"].items|);
    }
    if "hotspot" in document && document["hotspot"].Object? {
      HotspotFitsExactly(document["hotspot"].members, [Name("hotspot")]);
    }
  }
}
