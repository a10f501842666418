/** A configuration the device reads, and is able to run, that the capability check refuses. */
module CapabilityGap {
  import opened Wrappers
  import opened Json
  import Config
  import opened Capabilities
  import opened CapabilityTheorems

  // Two radios able to run the hotspot, each keyed by the bands it has.
  function Radios(): Members
  {
    map["interface" := Object(map[
      "wlan0" := Object(map["band" := Object(map["2ghz" := Object(map[])])]),
      "wlan1" := Object(map["band" := Object(map["5ghz" := Object(map[])])])])]
  }

  function TwoRadios(): Members
  {
    map["hotspot" := Object(Radios())]
  }

  // A hotspot on the band only the second has, leaving the radio to the device.
  function Asked(): Members
  {
    map["enabled" := Bool(true), "ssid" := String("guests"), "passphrase" := String("correct horse"),
        "band" := String("5ghz")]
  }

  function OnTheOtherBand(): Members
  {
    map["attachments" := Array([]), "hotspot" := Object(Asked())]
  }

  lemma ItIsRead()
    ensures Config.ParseDocument(OnTheOtherBand()) ==
            Ok(Config.Document([], Some(Config.Hotspot(true, "guests", "correct horse", None, None, None, None,
                                                       Some("5ghz"), None, None)), None))
  {
    hide Config.FaultAt, Config.ParseCandidate;
    assert Config.ParseAttachments([], 0) == Ok([]);
  }

  // Left to the second radio, the band asked for is a key.
  lemma HotspotSettles(render: Render)
    ensures SettlesOn(render, Asked(), Radios(), map["interface" := "wlan1"],
                      Resolution(map[], ["interface", "band"]))
  {
    var asked, radios, choice := Asked(), Radios(), map["interface" := "wlan1"];
    assert NextSelector(radios, []) == Some("interface");
    var second := map["band" := Object(map["5ghz" := Object(map[])])];
    assert Merged(radios - {"interface"}, second) == second;
    assert NextSelector(second, ["interface"]) == Some("band");
    assert Merged(second - {"band"}, map[]) == map[];
    assert [] + ["interface"] == ["interface"] && ["interface"] + ["band"] == ["interface", "band"];
    var r := Resolution(map[], ["interface", "band"]);
    assert Settle(render, asked, map[], ["interface", "band"], choice) == Some(r);
    assert Settle(render, asked, second, ["interface"], choice) == Some(r);
  }

  lemma HotspotAdmitted(render: Render)
    ensures Admits(false, render, Object(Asked()), Radios(), Hotspot)
  {
    hide Settle, Radios, Resolvable;
    HotspotSettles(render);
    assert AdmitsMembers(false, render, Object(Asked()), Resolution(map[], ["interface", "band"]), Hotspot);
  }

  lemma HotspotUnresolvable(render: Render)
    ensures !Resolvable(render, Asked(), Radios(), [])
  {
    var asked, radios := Asked(), Radios();
    var keyed := radios["interface"].members;
    assert NextSelector(radios, []) == Some("interface");
    var first := Merged(radios - {"interface"}, keyed["wlan0"].members);
    assert NextSelector(first, ["interface"]) == Some("band");
    assert !Resolvable(render, asked, first, ["interface"]);
    assert [] + ["interface"] == ["interface"];
  }

  // Nothing but the hotspot decides.
  lemma AroundHotspot(strict: bool, render: Render)
    ensures Admits(strict, render, Object(OnTheOtherBand()), TwoRadios(), Document) <==>
            Admits(strict, render, Object(Asked()), Radios(), Hotspot)
  {
    var caps, document, hotspot := TwoRadios(), OnTheOtherBand(), Object(Asked());
    var all := Resolution(caps, []);
    assert NextSelector(caps, []) == None;
    assert SettlesOn(render, document, caps, map[], all);
    assert forall choice, r | SettlesOn(render, document, caps, choice, r) :: r == all;
    assert Resolvable(render, document, caps, []);
    assert Checked(document, "hotspot", all);
    var inner := Admits(strict, render, hotspot, Radios(), Hotspot);
    hide Admits, Settle, Resolvable;
    assert AdmitsValue(strict, render, hotspot, caps["hotspot"], Hotspot) <==> inner;
    assert AdmitsMember(strict, render, "hotspot", hotspot, all, Document, None) <==> inner;
    assert AdmitsMember(strict, render, "attachments", Array([]), all, Document, None);
    assert AdmitsMembers(strict, render, Object(document), all, Document) <==> inner;
  }

  /** A key that faults hides one that admits: the second radio carries the band asked for, but the first,
      tried before it, has no such band to resolve, and that is the answer to a document read without fault. */
  lemma AFaultHidesAKey(render: Render)
    ensures Config.ParseDocument(OnTheOtherBand()).Ok?
    ensures Admits(false, render, Object(OnTheOtherBand()), TwoRadios(), Document)
    ensures Check(render, Object(OnTheOtherBand()), TwoRadios(), Document, []).Err?
  {
    hide Check, Config.ParseDocument;
    ItIsRead();
    HotspotAdmitted(render);
    HotspotUnresolvable(render);
    AroundHotspot(false, render);
    AroundHotspot(true, render);
    assert !Admits(true, render, Object(Asked()), Radios(), Hotspot);
    CheckExactly(render, Object(OnTheOtherBand()), TwoRadios(), Document, []);
  }
}
