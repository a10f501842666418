/** Which entries are one and which are two, said of their traits by name. */
module ReadingKeys {
  import opened Wrappers
  import opened Json
  import opened Readings
  import opened Sampler

  // The same but for the members of these names, where both are objects.
  ghost predicate AlikeBut(v: Json, w: Json, names: set<string>)
  {
    if v.Object? && w.Object? then
      forall k | k !in names ::
        (k in v.members <==> k in w.members) && (k in v.members ==> v.members[k] == w.members[k])
    else v == w
  }

  // What an interface routes over and a battery's makings describe them; all else of either tells it apart.
  ghost predicate AlikeTrait(name: string, v: Json, w: Json)
  {
    if name == "interface" then AlikeBut(v, w, {"route", "overlay"})
    else if name == "battery" then AlikeBut(v, w, {"serial", "model", "vendor"})
    else v == w
  }

  // Nine traits describe the thing measured without telling it from another.
  predicate Describes(name: string)
  {
    || name == "status" || name == "limits" || name == "security" || name == "channel" || name == "passphrase"
    || name == "margin" || name == "short" || name == "boot" || name == "found"
  }

  ghost predicate AlikeTraits(s: Members, t: Members)
  {
    forall n | !Describes(n) :: (n in s <==> n in t) && (n in s ==> AlikeTrait(n, s[n], t[n]))
  }

  // The value is part of what an address is, and of nothing else.
  function ValueThatTells(entry: Entry): Option<Json>
  {
    if entry.name == "network-address" then entry.value else None
  }

  lemma WithoutOne(traits: Members, name: string, members: set<string>)
    ensures Without(traits, name, members).Keys == traits.Keys
    ensures forall n | n in traits && n != name :: Without(traits, name, members)[n] == traits[n]
    ensures name in traits ==>
              Without(traits, name, members)[name] ==
              if traits[name].Object? then Object(traits[name].members - members) else traits[name]
  {
  }

  lemma Distinguished(traits: Members)
    ensures forall n :: n in Distinguishing(traits) <==> n in traits && !Describes(n)
    ensures forall n | n in Distinguishing(traits) && n != "interface" && n != "battery" ::
              Distinguishing(traits)[n] == traits[n]
    ensures "interface" in Distinguishing(traits) ==>
              Distinguishing(traits)["interface"] == Stripped(traits["interface"], {"route", "overlay"})
    ensures "battery" in Distinguishing(traits) ==>
              Distinguishing(traits)["battery"] == Stripped(traits["battery"], {"serial", "model", "vendor"})
  {
    var kept := traits - DESCRIPTIVE;
    WithoutOne(kept, "interface", {"route", "overlay"});
    WithoutOne(Without(kept, "interface", {"route", "overlay"}), "battery", {"serial", "model", "vendor"});
    hide Without;
  }

  function Stripped(value: Json, names: set<string>): Json
  {
    if value.Object? then Object(value.members - names) else value
  }

  lemma StrippedAlike(v: Json, w: Json, names: set<string>)
    ensures Stripped(v, names) == Stripped(w, names) <==> AlikeBut(v, w, names)
  {
    if v.Object? && w.Object? {
      var a, b := v.members - names, w.members - names;
      if a == b {
        forall k | k !in names
          ensures (k in v.members <==> k in w.members) && (k in v.members ==> v.members[k] == w.members[k])
        {
          assert k in v.members <==> k in a;
          assert k in w.members <==> k in b;
        }
      }
    }
  }

  lemma DistinguishedAlike(s: Members, t: Members)
    ensures Distinguishing(s) == Distinguishing(t) <==> AlikeTraits(s, t)
  {
    Distinguished(s);
    Distinguished(t);
    hide Distinguishing, Describes, AlikeBut, Stripped;
    var a, b := Distinguishing(s), Distinguishing(t);
    forall n | n in a && n in b ensures a[n] == b[n] <==> AlikeTrait(n, s[n], t[n]) {
      StrippedAlike(s[n], t[n], {"route", "overlay"});
      StrippedAlike(s[n], t[n], {"serial", "model", "vendor"});
    }
    hide AlikeTrait;
    if a == b {
      forall n | !Describes(n) ensures (n in s <==> n in t) && (n in s ==> AlikeTrait(n, s[n], t[n])) {
        assert n in a <==> n in b;
      }
    }
  }

  /** Two entries are one exactly where their names and kinds run together are, and every trait but the nine that
      describe, an interface but for what it routes over, a battery but for its makings, and an address's value. */
  lemma OneKeyExactly(render: Render, a: Entry, b: Entry)
    requires Faithful(render)
    ensures IdentityKey(render, a) == IdentityKey(render, b) <==>
            && a.name + ['\U{1f}'] + a.kind == b.name + ['\U{1f}'] + b.kind
            && AlikeTraits(a.traits, b.traits) && ValueThatTells(a) == ValueThatTells(b)
  {
    KeyTellsApart(render, a, b);
    DistinguishedAlike(a.traits, b.traits);
    hide Distinguishing, AlikeTraits, IdentityKey;
  }

  /** However text is written, entries alike in all of that have one key, whatever the rest of them holds. */
  lemma AlikeIsOne(render: Render, a: Entry, b: Entry)
    requires a.name == b.name && a.kind == b.kind
    requires AlikeTraits(a.traits, b.traits) && ValueThatTells(a) == ValueThatTells(b)
    ensures IdentityKey(render, a) == IdentityKey(render, b)
  {
    DistinguishedAlike(a.traits, b.traits);
    hide Distinguishing, AlikeTraits;
  }

  /** So what an interface takes in and what it sends out are two, and so are two interfaces. */
  lemma TraitTellsApart(render: Render, a: Entry, b: Entry, name: string)
    requires Faithful(render) && !Describes(name) && name != "interface" && name != "battery"
    requires (name in a.traits && name !in b.traits) || (name in b.traits && name !in a.traits)
             || (name in a.traits && name in b.traits && a.traits[name] != b.traits[name])
    ensures IdentityKey(render, a) != IdentityKey(render, b)
  {
    OneKeyExactly(render, a, b);
    hide IdentityKey;
  }

  lemma PartTellsApart(render: Render, a: Entry, b: Entry, part: string)
    requires Faithful(render)
    requires "interface" in a.traits && "interface" in b.traits
    requires a.traits["interface"].Object? && b.traits["interface"].Object?
    requires var v, w := a.traits["interface"].members, b.traits["interface"].members;
             part != "route" && part != "overlay" && part in v && part in w && v[part] != w[part]
    ensures IdentityKey(render, a) != IdentityKey(render, b)
  {
    OneKeyExactly(render, a, b);
    hide IdentityKey;
    assert !AlikeTrait("interface", a.traits["interface"], b.traits["interface"]);
    assert !Describes("interface");
  }
}
