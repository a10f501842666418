/** The members a configuration must have and those the capability check lets by unmirrored are the same: both ways,
    for the form's own parts, and for whole documents under a mirror that lists its kinds and nothing else. */
module CapabilityForm {
  import opened Wrappers
  import opened Json
  import opened Path
  import opened Capabilities
  import opened CapabilityTheorems
  import opened CapabilityMeaning
  import C = Config
  import A = ConfigAccepts

  // ---- What is required is what cannot be left out -----------------------------------------------------

  function Candidate(kind: string): Members
  {
    map["kind" := String(kind), "label" := String(""), "enabled" := Bool(true), "verify" := Bool(true)]
    + if kind == "wireless" then map["ssid" := String(""), "security" := Object(SecurityOf("psk"))]
      else if kind == "wired-static" then
        map["interface" := String(""), "addresses" := Array([String("")]), "gateway" := String("")]
      else map["interface" := String("")]
  }

  function SecurityOf(kind: string): Members
  {
    map["kind" := String(kind), "passphrase" := String("")]
  }

  function HotspotLeast(): Members
  {
    map["enabled" := Bool(true), "ssid" := String(""), "passphrase" := String("")]
  }

  function DocumentLeast(): Members
  {
    map["attachments" := Array([])]
  }

  const AT: seq<Segment> := []

  // No candidate of the kind is read without the member.
  ghost predicate CandidateNeeds(kind: string, name: string)
  {
    forall m | KindOf(m) == Some(kind) && C.ParseAttachment(m, AT).Ok? :: C.ParseAttachment(m - {name}, AT).Err?
  }

  ghost predicate SecurityNeeds(kind: string, name: string)
  {
    forall m | KindOf(m) == Some(kind) && C.ParseSecurity(m, AT).Ok? :: C.ParseSecurity(m - {name}, AT).Err?
  }

  ghost predicate HotspotNeeds(name: string)
  {
    forall m | C.ParseHotspot(m, AT).Ok? :: C.ParseHotspot(m - {name}, AT).Err?
  }

  ghost predicate DocumentNeeds(name: string)
  {
    forall m | C.ParseDocument(m).Ok? :: C.ParseDocument(m - {name}).Err?
  }

  lemma LeastFits(kind: string)
    requires kind in {"wireless", "wired-dynamic", "wired-static"}
    ensures A.CandidateFits(Candidate(kind)) && KindOf(Candidate(kind)) == Some(kind)
  {
    var m := Candidate(kind);
    assert m["kind"] == String(kind);
    if kind == "wireless" {
      assert A.SecurityFits(SecurityOf("psk"));
      assert A.WirelessFits(m);
    }
  }

  lemma LeastKeys(kind: string)
    requires kind in {"wireless", "wired-dynamic", "wired-static"}
    ensures forall n | n in Candidate(kind) :: n == "kind" || Required(Attachment, Some(kind), n)
  {
  }

  lemma NotWithout(kind: string, name: string, m: Members)
    requires KindOf(m) == Some(kind) && A.CandidateFits(m) && Required(Attachment, Some(kind), name)
    ensures !A.CandidateFits(m - {name})
  {
    var less := m - {name};
    assert "kind" in less && KindOf(less) == Some(kind);
    hide A.SecurityFits, A.BandsFit, A.MayBeList, A.MayBeString, A.MayBeBool, C.AllStrings;
    assert name !in less;
  }

  /** A member of a candidate needs no mirror exactly where no candidate of its kind is read without it. */
  lemma CandidateRequires(kind: string, name: string)
    requires kind in {"wireless", "wired-dynamic", "wired-static"} && name != "kind"
    ensures Required(Attachment, Some(kind), name) <==> CandidateNeeds(kind, name)
  {
    hide C.ParseAttachment, A.CandidateFits, Candidate, Required;
    forall m ensures C.ParseAttachment(m, AT).Ok? <==> A.CandidateFits(m) {
      A.CandidateFitsExactly(m, AT);
    }
    if Required(Attachment, Some(kind), name) {
      forall m | KindOf(m) == Some(kind) && C.ParseAttachment(m, AT).Ok?
        ensures C.ParseAttachment(m - {name}, AT).Err?
      {
        NotWithout(kind, name, m);
      }
    } else {
      LeastFits(kind);
      LeastKeys(kind);
      assert Candidate(kind) - {name} == Candidate(kind);
    }
  }

  /** And likewise of its security, where a passphrase is the security; an enterprise network's is whatever its method
      uses, but not the method. */
  lemma SecurityRequires(kind: string, name: string)
    requires name != "kind"
    ensures kind in {"psk", "sae", "psk-sae"} ==> (Required(Security, Some(kind), name) <==> SecurityNeeds(kind, name))
    ensures Required(Security, Some("enterprise"), name) <==> name != "eap"
  {
    hide C.FaultAt;
    if kind in {"psk", "sae", "psk-sae"} {
      forall m | KindOf(m) == Some(kind) ensures C.ParseSecurity(m, AT).Ok? <==> A.IsString(m, "passphrase") {
        A.SecurityFitsExactly(m, AT);
      }
      forall m | KindOf(m) == Some(kind) ensures KindOf(m - {name}) == Some(kind) {
        assert "kind" in m - {name};
      }
      var least := SecurityOf(kind);
      assert KindOf(least) == Some(kind) && A.IsString(least, "passphrase");
      hide C.ParseSecurity;
      if name != "passphrase" {
        assert least - {name} == least;
      }
    }
  }

  lemma HotspotRequires(name: string, kind: Option<string>)
    ensures Required(Hotspot, kind, name) <==> HotspotNeeds(name)
  {
    hide C.ParseHotspot;
    forall m ensures C.ParseHotspot(m, AT).Ok? <==> A.HotspotFits(m) {
      A.HotspotFitsExactly(m, AT);
    }
    if !Required(Hotspot, kind, name) {
      assert A.HotspotFits(HotspotLeast()) && HotspotLeast() - {name} == HotspotLeast();
    }
  }

  lemma DocumentRequires(name: string, kind: Option<string>)
    ensures Required(Document, kind, name) <==> DocumentNeeds(name)
  {
    hide C.ParseDocument;
    forall m ensures C.ParseDocument(m).Ok? <==> A.Fits(m) {
      A.AcceptedExactly(m);
    }
    if !Required(Document, kind, name) {
      assert A.Fits(DocumentLeast()) && DocumentLeast() - {name} == DocumentLeast();
    }
  }

  // Nothing else is let by.
  lemma NothingElseRequires(context: Context, kind: Option<string>, name: string)
    requires Required(context, kind, name)
    ensures !context.Other?
    ensures context.Attachment? ==>
              kind.Some? && kind.value in {"wireless", "wired-dynamic", "wired-static"} && name != "kind"
    ensures context.Security? ==> kind.Some? && kind.value in {"psk", "sae", "psk-sae", "enterprise"}
  {
  }

  // ---- A mirror of the kinds and nothing else ----------------------------------------------------------

  const NONE: Json := Object(map[])

  function Keyed(keyed: Members): Members
  {
    map["kind" := Object(keyed)]
  }

  function SecurityMirror(): Members
  {
    Keyed(map["psk" := NONE, "sae" := NONE, "psk-sae" := NONE, "enterprise" := NONE])
  }

  function CandidateMirror(): Members
  {
    Keyed(map["wireless" := Object(map["security" := Object(SecurityMirror())]), "wired-dynamic" := NONE,
              "wired-static" := NONE])
  }

  function BareMirror(): Members
  {
    map["attachments" := Object(CandidateMirror()), "hotspot" := NONE]
  }

  // ---- A document that sets only what it must ----------------------------------------------------------

  // Every member set is one of these.
  predicate OnlyOf(m: Members, names: set<string>)
  {
    forall n | n in m && !m[n].Null? :: n in names
  }

  // An enterprise network's security keeps what its method uses, but for the method, and no settings within it.
  predicate BareSecurity(m: Members)
  {
    if KindOf(m) == Some("enterprise") then
      forall n | n in m && !m[n].Null? && n != "kind" :: n != "eap" && (NoObject(m[n]) || Hollow(m[n]))
    else OnlyOf(m, {"kind", "passphrase"})
  }

  predicate BareCandidate(m: Members)
  {
    if KindOf(m) == Some("wireless") then
      && OnlyOf(m, {"kind", "label", "enabled", "verify", "ssid", "security"})
      && "security" in m && m["security"].Object? && BareSecurity(m["security"].members)
    else if KindOf(m) == Some("wired-static") then
      OnlyOf(m, {"kind", "label", "enabled", "verify", "interface", "addresses", "gateway"})
    else OnlyOf(m, {"kind", "label", "enabled", "verify", "interface"})
  }

  predicate BareDocument(m: Members)
  {
    && OnlyOf(m, {"attachments", "hotspot"})
    && "attachments" in m && m["attachments"].Array?
    && (forall i | 0 <= i < |m["attachments"].items| ::
          m["attachments"].items[i].Object? && BareCandidate(m["attachments"].items[i].members))
    && ("hotspot" !in m || m["hotspot"] == Null
        || (m["hotspot"].Object? && OnlyOf(m["hotspot"].members, {"enabled", "ssid", "passphrase"})))
  }

  // ---- The one lets by the other -----------------------------------------------------------------------

  lemma KeyedSettles(render: Render, m: Members, keyed: Members, kind: string)
    requires KindOf(m) == Some(kind) && kind in keyed && keyed[kind].Object?
    requires forall s | s in SELECTORS :: s !in keyed[kind].members
    ensures Resolvable(render, m, Keyed(keyed), [])
    ensures forall choice, r :: SettlesOn(render, m, Keyed(keyed), choice, r) <==>
              r == Resolution(keyed[kind].members, ["kind"])
  {
    var under := keyed[kind].members;
    assert "kind" in SELECTORS && "interface" in SELECTORS && "band" in SELECTORS;
    assert NextSelector(Keyed(keyed), []) == Some("kind");
    assert Merged(Keyed(keyed) - {"kind"}, under) == under;
    assert [] + ["kind"] == ["kind"];
    assert NextSelector(under, ["kind"]) == None;
    assert Resolvable(render, m, under, ["kind"]);
    forall choice: map<string, string>
      ensures Settle(render, m, Keyed(keyed), [], choice) == Some(Resolution(under, ["kind"]))
    {
      assert Settle(render, m, under, ["kind"], choice) == Some(Resolution(under, ["kind"]));
    }
  }

  lemma KeyedAdmits(render: Render, m: Members, keyed: Members, kind: string, context: Context)
    requires KindOf(m) == Some(kind) && kind in keyed && keyed[kind].Object?
    requires forall s | s in SELECTORS :: s !in keyed[kind].members
    ensures Admits(true, render, Object(m), Keyed(keyed), context) <==>
            AdmitsMembers(true, render, Object(m), Resolution(keyed[kind].members, ["kind"]), context)
  {
    KeyedSettles(render, m, keyed, kind);
    hide Settle, Resolvable, AdmitsMembers, SettlesOn;
    assert SettlesOn(render, m, Keyed(keyed), map[], Resolution(keyed[kind].members, ["kind"]));
  }

  lemma SecurityBare(render: Render, m: Members)
    requires A.SecurityFits(m)
    ensures Admits(true, render, Object(m), SecurityMirror(), Security) <==> BareSecurity(m)
  {
    var kind := KindOf(m).value;
    var keyed := SecurityMirror()["kind"].members;
    KeyedAdmits(render, m, keyed, kind, Security);
    var r := Resolution(map[], ["kind"]);
    hide AdmitsValue, Admits;
    forall n | n in m && Checked(m, n, r)
      ensures AdmitsMember(true, render, n, m[n], r, Security, Some(kind)) <==>
              if kind == "enterprise" then n != "eap" && (NoObject(m[n]) || Hollow(m[n])) else n == "passphrase"
    {
      EmptyAdmitsHollow(render, m[n], Context.Other);
    }
  }

  // What a candidate is held to once its kind is settled.
  function UnderKind(kind: string): Resolution
  {
    Resolution(if kind == "wireless" then map["security" := Object(SecurityMirror())] else map[], ["kind"])
  }

  lemma CandidateKeyed(render: Render, m: Members, kind: string)
    requires KindOf(m) == Some(kind) && kind in {"wireless", "wired-dynamic", "wired-static"}
    ensures Admits(true, render, Object(m), CandidateMirror(), Attachment) <==>
            AdmitsMembers(true, render, Object(m), UnderKind(kind), Attachment)
  {
    hide Admits, AdmitsMembers, SecurityMirror;
    KeyedAdmits(render, m, CandidateMirror()["kind"].members, kind, Attachment);
  }

  lemma CandidateMember(render: Render, m: Members, kind: string, n: string)
    requires A.CandidateFits(m) && KindOf(m) == Some(kind) && n in m && Checked(m, n, UnderKind(kind))
    ensures AdmitsMember(true, render, n, m[n], UnderKind(kind), Attachment, Some(kind)) <==>
            if kind == "wireless" && n == "security" then BareSecurity(m["security"].members)
            else n in CandidateNames(kind)
  {
    if kind == "wireless" && n == "security" {
      SecurityBare(render, m["security"].members);
      hide Admits, BareSecurity, SecurityMirror;
    } else {
      hide AdmitsValue, BareSecurity, SecurityMirror, A.SecurityFits, A.BandsFit, A.MayBeString, A.MayBeBool,
           A.MayBeList;
      assert n in CandidateNames(kind) ==> !HoldsObjects(m[n]);
    }
  }

  predicate Lets(m: Members, kind: string, n: string)
  {
    if kind == "wireless" && n == "security" then
      "security" in m && m["security"].Object? && BareSecurity(m["security"].members)
    else n in CandidateNames(kind)
  }

  lemma BareByName(m: Members, kind: string)
    requires KindOf(m) == Some(kind) && kind in {"wireless", "wired-dynamic", "wired-static"}
    requires kind == "wireless" ==> "security" in m && m["security"].Object?
    ensures BareCandidate(m) <==> forall n | n in m && Checked(m, n, UnderKind(kind)) :: Lets(m, kind, n)
  {
    hide BareSecurity;
    assert kind == "wireless" ==> Checked(m, "security", UnderKind(kind));
  }

  lemma CandidateBare(render: Render, m: Members)
    requires A.CandidateFits(m)
    ensures Admits(true, render, Object(m), CandidateMirror(), Attachment) <==> BareCandidate(m)
  {
    var kind := KindOf(m).value;
    CandidateKeyed(render, m, kind);
    SecurityIsThere(m, kind);
    BareByName(m, kind);
    hide Admits, AdmitsMember, BareSecurity, CandidateMirror, BareCandidate, CandidateNames;
    forall n | n in m && Checked(m, n, UnderKind(kind))
      ensures AdmitsMember(true, render, n, m[n], UnderKind(kind), Attachment, Some(kind)) <==> Lets(m, kind, n)
    {
      CandidateMember(render, m, kind, n);
    }
    hide A.CandidateFits;
  }

  lemma SecurityIsThere(m: Members, kind: string)
    requires A.CandidateFits(m) && KindOf(m) == Some(kind)
    ensures kind in {"wireless", "wired-dynamic", "wired-static"}
    ensures kind == "wireless" ==>
              "security" in m && m["security"].Object? && Checked(m, "security", UnderKind(kind))
  {
  }

  function CandidateNames(kind: string): set<string>
  {
    {"label", "enabled", "verify"}
    + if kind == "wireless" then {"ssid", "security"}
      else if kind == "wired-static" then {"interface", "addresses", "gateway"}
      else {"interface"}
  }

  lemma HotspotBare(render: Render, m: Members)
    requires A.HotspotFits(m)
    ensures Admits(true, render, Object(m), map[], Hotspot) <==> OnlyOf(m, {"enabled", "ssid", "passphrase"})
  {
    var r := Resolution(map[], []);
    NothingKeyed(render, m);
    assert SettlesOn(render, m, map[], map[], r);
    assert Admits(true, render, Object(m), map[], Hotspot) <==> AdmitsMembers(true, render, Object(m), r, Hotspot);
    hide AdmitsValue, SettlesOn, Admits;
    forall n | n in m && Checked(m, n, r)
      ensures AdmitsMember(true, render, n, m[n], r, Hotspot, KindOf(m)) <==> n in {"enabled", "ssid", "passphrase"}
    {
    }
  }

  lemma {:induction false} ListAdmits(render: Render, items: seq<Json>, constraint: Json, context: Context)
    requires constraint.Object?
    requires forall i | 0 <= i < |items| :: items[i].Object?
    ensures AdmitsValue(true, render, Array(items), constraint, context) <==>
            forall i | 0 <= i < |items| :: Admits(true, render, items[i], constraint.members, context)
  {
    hide Admits;
    var list := Array(items);
    forall i | 0 <= i < |items|
      ensures AdmitsValue(true, render, list.items[i], constraint, context) <==>
              Admits(true, render, items[i], constraint.members, context)
    {
    }
  }

  lemma DocumentSettles(render: Render, m: Members)
    ensures Resolvable(render, m, BareMirror(), [])
    ensures forall choice, r :: SettlesOn(render, m, BareMirror(), choice, r) <==> r == Resolution(BareMirror(), [])
  {
    assert NextSelector(BareMirror(), []) == None;
  }

  lemma DocumentAdmits(render: Render, m: Members)
    ensures Admits(true, render, Object(m), BareMirror(), Document) <==>
            AdmitsMembers(true, render, Object(m), Resolution(BareMirror(), []), Document)
  {
    DocumentSettles(render, m);
    hide Resolvable, SettlesOn, AdmitsMembers;
    assert SettlesOn(render, m, BareMirror(), map[], Resolution(BareMirror(), []));
  }

  lemma AttachmentsBare(render: Render, m: Members)
    requires A.Fits(m)
    ensures var items := m["attachments"].items;
            && (forall i | 0 <= i < |items| :: items[i].Object?)
            && (AdmitsValue(true, render, m["attachments"], Object(CandidateMirror()), Attachment) <==>
                forall i | 0 <= i < |items| :: BareCandidate(items[i].members))
  {
    hide Admits, AdmitsValue, CandidateMirror, BareCandidate;
    var items := m["attachments"].items;
    forall i | 0 <= i < |items|
      ensures items[i].Object?
      ensures Admits(true, render, items[i], CandidateMirror(), Attachment) <==> BareCandidate(items[i].members)
    {
      assert A.Stands(items, i);
      CandidateBare(render, items[i].members);
    }
    ListAdmits(render, items, Object(CandidateMirror()), Attachment);
    assert Array(items) == m["attachments"];
  }

  lemma DocumentMember(render: Render, m: Members, n: string)
    requires A.Fits(m) && n in m && !m[n].Null?
    ensures AdmitsMember(true, render, n, m[n], Resolution(BareMirror(), []), Document, KindOf(m)) <==>
            if n == "attachments" then
              AdmitsValue(true, render, m["attachments"], Object(CandidateMirror()), Attachment)
            else n == "hotspot" && OnlyOf(m["hotspot"].members, {"enabled", "ssid", "passphrase"})
  {
    hide Admits, CandidateMirror, A.CandidatesFit, A.HotspotFits, OnlyOf;
    if n == "hotspot" {
      HotspotBare(render, m["hotspot"].members);
    }
  }

  // A document that can be read is bare where each member it sets is.
  lemma BareIs(m: Members)
    requires A.Fits(m)
    ensures forall i | 0 <= i < |m["attachments"].items| :: m["attachments"].items[i].Object?
    ensures BareDocument(m) <==>
            forall n | n in m && !m[n].Null? ::
              if n == "attachments" then
                forall i | 0 <= i < |m["attachments"].items| :: BareCandidate(m["attachments"].items[i].members)
              else n == "hotspot" && OnlyOf(m["hotspot"].members, {"enabled", "ssid", "passphrase"})
  {
    hide BareCandidate, A.HotspotFits;
    var items := m["attachments"].items;
    forall i | 0 <= i < |items| ensures items[i].Object? {
      assert A.Stands(items, i);
    }
    assert m["attachments"].Array? && !m["attachments"].Null?;
  }

  /** Under a mirror that lists the kinds and nothing else, a configuration that can be read passes exactly where it
      sets nothing it need not: every candidate, its security and the hotspot is looked into, and each by its own
      table of names. */
  lemma BareExactly(render: Render, m: Members)
    requires C.ParseDocument(m).Ok?
    ensures Check(render, Object(m), BareMirror(), Document, []).Ok? <==> BareDocument(m)
  {
    A.AcceptedExactly(m);
    CheckExactly(render, Object(m), BareMirror(), Document, []);
    DocumentAdmits(render, m);
    AttachmentsBare(render, m);
    BareIs(m);
    hide Check, Admits, AdmitsMember, AdmitsValue, C.ParseDocument, BareMirror, CandidateMirror, BareCandidate,
         A.CandidatesFit, A.HotspotFits, BareDocument, OnlyOf;
    var r := Resolution(BareMirror(), []);
    forall n | n in m && Checked(m, n, r)
      ensures AdmitsMember(true, render, n, m[n], r, Document, KindOf(m)) <==>
              if n == "attachments" then
                AdmitsValue(true, render, m["attachments"], Object(CandidateMirror()), Attachment)
              else n == "hotspot" && OnlyOf(m["hotspot"].members, {"enabled", "ssid", "passphrase"})
    {
      DocumentMember(render, m, n);
    }
    assert Checked(m, "attachments", r);
  }
}
