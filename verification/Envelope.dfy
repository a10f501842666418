/** The envelope of a message: its member names validated, lower cased and their criticality recorded, and
    what a build does not know of it found by comparing it with its own round trip.

    Both walks share one dotted path and collect strings. The theorems say which nodes those strings are. */
module Envelope {
  import opened Wrappers
  import opened Json
  import opened Path
  import opened Names
  import T = Text

  // An object here is a list of entries, so repeats and casing survive for `FirstFault` to see.
  datatype Raw = RawObject(entries: seq<(string, Raw)>) | RawArray(items: seq<Raw>) | RawOther(value: Json)

  datatype Fault =
    | MalformedName(name: string)
    | DuplicateName(name: string)
    | NotObject
    | NoType
    | TypeNotString
    | CriticalNotAllowed(typeName: string, names: set<string>)
    | CriticalRequired(typeName: string, names: set<string>)
    | Malformed(typeName: string)

  // ---- Paths -----------------------------------------------------------------------------------------

  function SegmentWord(s: Segment): string
  {
    match s
    case Name(name) => name
    case Index(index) => T.Decimal(index)
  }

  function Join(path: string, word: string): string
  {
    if path == "" then word else path + "." + word
  }

  lemma JoinBegins(path: string, word: string)
    ensures path <= Join(path, word)
  {
  }

  // The dotted path of the node at `address` below the node at `path`.
  function Below(path: string, address: seq<Segment>): string
    decreases |address|
  {
    if address == [] then path else Below(Join(path, SegmentWord(address[0])), address[1..])
  }

  function Dotted(address: seq<Segment>): string
  {
    if address == [] then "" else if |address| == 1 then SegmentWord(address[0])
    else SegmentWord(address[0]) + "." + Dotted(address[1..])
  }

  lemma {:induction false} BelowIs(path: string, address: seq<Segment>)
    requires address != [] && (path == "" ==> SegmentWord(address[0]) != "")
    ensures Below(path, address) == if path == "" then Dotted(address) else path + "." + Dotted(address)
    decreases |address|
  {
    var next := Join(path, SegmentWord(address[0]));
    if |address| > 1 {
      BelowIs(next, address[1..]);
    } else {
      assert Below(next, address[1..]) == next;
    }
  }

  // ---- Normalising: what it finds wrong, what it yields, what it records -------------------------------

  // Whether some earlier member of the object has this member's name, whatever the case of each.
  predicate Repeats(raw: Raw, i: nat)
    requires raw.RawObject? && i < |raw.entries|
  {
    exists j | 0 <= j < i :: Lower(raw.entries[j].0) == Lower(raw.entries[i].0)
  }

  // The first thing wrong, in the order the walk meets it.
  function FirstFault(raw: Raw): Option<Fault>
    decreases raw, 1
  {
    match raw
    case RawObject(entries) => FaultAmong(raw, |entries|)
    case RawArray(items) => FaultAmongItems(raw, |items|)
    case RawOther(_) => None
  }

  function FaultAmong(raw: Raw, n: nat): Option<Fault>
    requires raw.RawObject? && n <= |raw.entries|
    decreases raw, 0, n
  {
    if n == 0 then None
    else
      var earlier := FaultAmong(raw, n - 1);
      var (name, value) := raw.entries[n - 1];
      if earlier.Some? then earlier
      else if Classify(name).None? then Some(MalformedName(name))
      else if Repeats(raw, n - 1) then Some(DuplicateName(Lower(name)))
      else FirstFault(value)
  }

  function FaultAmongItems(raw: Raw, n: nat): Option<Fault>
    requires raw.RawArray? && n <= |raw.items|
    decreases raw, 0, n
  {
    if n == 0 then None
    else
      var earlier := FaultAmongItems(raw, n - 1);
      if earlier.Some? then earlier else FirstFault(raw.items[n - 1])
  }

  // The value with every name in lower case.
  function Lowered(raw: Raw): Json
    decreases raw, 1
  {
    match raw
    case RawObject(entries) => Object(LoweredEntries(raw, |entries|))
    case RawArray(items) => Array(seq(|items|, i requires 0 <= i < |items| => Lowered(items[i])))
    case RawOther(value) => value
  }

  function LoweredEntries(raw: Raw, n: nat): Members
    requires raw.RawObject? && n <= |raw.entries|
    decreases raw, 0, n
  {
    if n == 0 then map[]
    else LoweredEntries(raw, n - 1)[Lower(raw.entries[n - 1].0) := Lowered(raw.entries[n - 1].1)]
  }

  predicate IsCritical(name: string)
  {
    Classify(name) == Some(true)
  }

  // The paths of the members named in upper case, below a node at `path`.
  function CriticalBelow(raw: Raw, path: string): set<string>
    decreases raw, 1
  {
    match raw
    case RawObject(entries) => CriticalAmong(raw, |entries|, path)
    case RawArray(items) => CriticalAmongItems(raw, |items|, path)
    case RawOther(_) => {}
  }

  function CriticalAmong(raw: Raw, n: nat, path: string): set<string>
    requires raw.RawObject? && n <= |raw.entries|
    decreases raw, 0, n
  {
    if n == 0 then {}
    else
      var (name, value) := raw.entries[n - 1];
      var here := Join(path, Lower(name));
      CriticalAmong(raw, n - 1, path) + (if IsCritical(name) then {here} else {}) + CriticalBelow(value, here)
  }

  function CriticalAmongItems(raw: Raw, n: nat, path: string): set<string>
    requires raw.RawArray? && n <= |raw.items|
    decreases raw, 0, n
  {
    if n == 0 then {}
    else CriticalAmongItems(raw, n - 1, path) + CriticalBelow(raw.items[n - 1], Join(path, T.Decimal(n - 1)))
  }

  class Normaliser {
    var path: string
    var critical: set<string>

    constructor ()
      ensures path == "" && critical == {}
    {
      path, critical := "", {};
    }

    method Normalise(raw: Raw) returns (r: Result<Json, Fault>)
      modifies this
      ensures r.Err? <==> FirstFault(raw).Some?
      ensures r.Err? ==> r.error == FirstFault(raw).value
      ensures r.Ok? ==> r.value == Lowered(raw) && path == old(path)
      ensures r.Ok? ==> critical == old(critical) + CriticalBelow(raw, old(path))
      decreases raw, 1
    {
      match raw {
        case RawObject(_) => r := NormaliseObject(raw);
        case RawArray(_) => r := NormaliseArray(raw);
        case RawOther(value) => r := Ok(value);
      }
    }

    method NormaliseObject(raw: Raw) returns (r: Result<Json, Fault>)
      requires raw.RawObject?
      modifies this
      ensures r.Err? <==> FirstFault(raw).Some?
      ensures r.Err? ==> r.error == FirstFault(raw).value
      ensures r.Ok? ==> r.value == Lowered(raw) && path == old(path)
      ensures r.Ok? ==> critical == old(critical) + CriticalBelow(raw, old(path))
      decreases raw, 0
    {
      hide Lower, Classify;
      var entries := raw.entries;
      var seen: set<string> := {};
      var members: Members := map[];
      for n := 0 to |entries|
        invariant path == old(path)
        invariant forall name :: name in seen <==> exists j | 0 <= j < n :: Lower(entries[j].0) == name
        invariant FaultAmong(raw, n).None?
        invariant members == LoweredEntries(raw, n)
        invariant critical == old(critical) + CriticalAmong(raw, n, path)
      {
        var name, value := entries[n].0, entries[n].1;
        var class_ := Classify(name);
        assert raw.entries[n] == (name, value);
        if class_.None? {
          assert FaultAmong(raw, n + 1) == Some(MalformedName(name));
          FaultStands(raw, n + 1);
          return Err(MalformedName(name));
        }
        var lowered := Lower(name);
        if lowered in seen {
          assert Repeats(raw, n);
          assert FaultAmong(raw, n + 1) == Some(DuplicateName(lowered));
          FaultStands(raw, n + 1);
          return Err(DuplicateName(lowered));
        }
        assert !Repeats(raw, n);
        seen := seen + {lowered};
        var restore := path;
        path := Join(path, lowered);
        if class_.value {
          critical := critical + {path};
        }
        var inner := Normalise(value);
        if inner.Err? {
          assert FaultAmong(raw, n + 1) == Some(inner.error);
          FaultStands(raw, n + 1);
          return inner;
        }
        path := path[..|restore|];
        assert path == restore;
        members := members[lowered := inner.value];
      }
      return Ok(Object(members));
    }

    method NormaliseArray(raw: Raw) returns (r: Result<Json, Fault>)
      requires raw.RawArray?
      modifies this
      ensures r.Err? <==> FirstFault(raw).Some?
      ensures r.Err? ==> r.error == FirstFault(raw).value
      ensures r.Ok? ==> r.value == Lowered(raw) && path == old(path)
      ensures r.Ok? ==> critical == old(critical) + CriticalBelow(raw, old(path))
      decreases raw, 0
    {
      hide T.Decimal, Join;
      var items := raw.items;
      var out: seq<Json> := [];
      for n := 0 to |items|
        invariant path == old(path)
        invariant FaultAmongItems(raw, n).None?
        invariant |out| == n && forall i | 0 <= i < n :: out[i] == Lowered(items[i])
        invariant critical == old(critical) + CriticalAmongItems(raw, n, path)
      {
        var restore := path;
        path := Join(path, T.Decimal(n));
        var inner := Normalise(items[n]);
        if inner.Err? {
          assert FaultAmongItems(raw, n + 1) == Some(inner.error);
          ItemFaultStands(raw, n + 1);
          return inner;
        }
        JoinBegins(restore, T.Decimal(n));
        path := path[..|restore|];
        assert path == restore;
        out := out + [inner.value];
      }
      assert Lowered(raw) == Array(out);
      return Ok(Array(out));
    }
  }

  // A fault met stays the first.
  lemma {:induction false} FaultStands(raw: Raw, n: nat)
    requires raw.RawObject? && n <= |raw.entries| && FaultAmong(raw, n).Some?
    ensures FirstFault(raw) == FaultAmong(raw, n)
    decreases |raw.entries| - n
  {
    if n < |raw.entries| {
      FaultStands(raw, n + 1);
    }
  }

  lemma {:induction false} ItemFaultStands(raw: Raw, n: nat)
    requires raw.RawArray? && n <= |raw.items| && FaultAmongItems(raw, n).Some?
    ensures FirstFault(raw) == FaultAmongItems(raw, n)
    decreases |raw.items| - n
  {
    if n < |raw.items| {
      ItemFaultStands(raw, n + 1);
    }
  }

  // ---- Unknown members ---------------------------------------------------------------------------------

  // The paths of the members `input` carries that `round` does not, below a node at `path`.
  function UnknownBelow(input: Json, round: Json, path: string): set<string>
  {
    if input.Object? && round.Object? then
      (set k | k in input.members && k !in round.members :: Join(path, k))
      + (set k, p | k in input.members && k in round.members
                    && p in UnknownBelow(input.members[k], round.members[k], Join(path, k)) :: p)
    else if input.Array? && round.Array? then
      set i, p | 0 <= i < |input.items| && i < |round.items|
                 && p in UnknownBelow(input.items[i], round.items[i], Join(path, T.Decimal(i))) :: p
    else {}
  }

  class Collector {
    var path: string
    var out: set<string>

    constructor ()
      ensures path == "" && out == {}
    {
      path, out := "", {};
    }

    // The path is what it was on return, whichever branch was taken.
    method CollectUnknown(input: Json, round: Json)
      modifies this
      ensures path == old(path)
      ensures out == old(out) + UnknownBelow(input, round, old(path))
      decreases input, 1
    {
      if input.Object? && round.Object? {
        CollectMembers(input, round);
      } else if input.Array? && round.Array? {
        CollectItems(input, round);
      }
    }

    method CollectMembers(input: Json, round: Json)
      requires input.Object? && round.Object?
      modifies this
      ensures path == old(path)
      ensures out == old(out) + UnknownBelow(input, round, old(path))
      decreases input, 0
    {
      hide UnknownAt, UnknownOf, UnknownBelow;
      var todo := input.members.Keys;
      ghost var seen: set<string> := {};
      NoneUnknown(input, round, path);
      while todo != {}
        invariant todo <= input.members.Keys && seen + todo == input.members.Keys && path == old(path)
        invariant out == old(out) + UnknownAt(input, round, path, seen)
        decreases |todo|
      {
        var name :| name in todo;
        CollectMember(input, round, name);
        UnknownOneMore(input, round, path, seen, name);
        todo, seen := todo - {name}, seen + {name};
      }
      assert seen == input.members.Keys;
      UnknownAll(input, round, path);
    }

    method CollectMember(input: Json, round: Json, name: string)
      requires input.Object? && round.Object? && name in input.members
      modifies this
      ensures path == old(path)
      ensures out == old(out) + UnknownOf(input, round, path, name)
      decreases input.members[name], 2
    {
      var restore := path;
      path := Join(path, name);
      if name !in round.members {
        out := out + {path};
      } else {
        CollectUnknown(input.members[name], round.members[name]);
      }
      path := path[..|restore|];
      assert path == restore;
    }

    method CollectItems(input: Json, round: Json)
      requires input.Array? && round.Array?
      modifies this
      ensures path == old(path)
      ensures out == old(out) + UnknownBelow(input, round, old(path))
      decreases input, 0
    {
      for n := 0 to |input.items|
        invariant path == old(path)
        invariant out == old(out) + UnknownItems(input, round, path, n)
      {
        UnknownOneMoreItem(input, round, path, n);
        if n >= |round.items| {
          continue;
        }
        var restore := path;
        path := Join(path, T.Decimal(n));
        CollectUnknown(input.items[n], round.items[n]);
        path := path[..|restore|];
        assert path == restore;
      }
      assert UnknownItems(input, round, path, |input.items|) == UnknownBelow(input, round, path);
    }
  }

  // What the members of one object among `names` contribute.
  ghost function UnknownOf(input: Json, round: Json, path: string, name: string): set<string>
    requires input.Object? && round.Object? && name in input.members
  {
    if name !in round.members then {Join(path, name)}
    else UnknownBelow(input.members[name], round.members[name], Join(path, name))
  }

  ghost function UnknownAt(input: Json, round: Json, path: string, names: set<string>): set<string>
    requires input.Object? && round.Object? && names <= input.members.Keys
  {
    set k, p | k in names && p in UnknownOf(input, round, path, k) :: p
  }

  lemma NoneUnknown(input: Json, round: Json, path: string)
    requires input.Object? && round.Object?
    ensures UnknownAt(input, round, path, {}) == {}
  {
  }

  lemma UnknownOneMore(input: Json, round: Json, path: string, names: set<string>, name: string)
    requires input.Object? && round.Object? && names <= input.members.Keys && name in input.members
    ensures UnknownAt(input, round, path, names + {name}) ==
            UnknownAt(input, round, path, names) + UnknownOf(input, round, path, name)
  {
    hide UnknownOf;
  }

  lemma UnknownAll(input: Json, round: Json, path: string)
    requires input.Object? && round.Object?
    ensures UnknownAt(input, round, path, input.members.Keys) == UnknownBelow(input, round, path)
  {
    hide Join;
    var all, below := UnknownAt(input, round, path, input.members.Keys), UnknownBelow(input, round, path);
    forall p | p in all ensures p in below {
      var k :| k in input.members && p in UnknownOf(input, round, path, k);
    }
    forall p | p in below ensures p in all {
      if k :| k in input.members && k !in round.members && p == Join(path, k) {
        assert p in UnknownOf(input, round, path, k);
      } else {
        var k :| k in input.members && k in round.members
                 && p in UnknownBelow(input.members[k], round.members[k], Join(path, k));
        assert p in UnknownOf(input, round, path, k);
      }
    }
  }

  ghost function UnknownItems(input: Json, round: Json, path: string, n: nat): set<string>
    requires input.Array? && round.Array? && n <= |input.items|
  {
    set i, p | 0 <= i < n && i < |round.items|
               && p in UnknownBelow(input.items[i], round.items[i], Join(path, T.Decimal(i))) :: p
  }

  lemma UnknownOneMoreItem(input: Json, round: Json, path: string, n: nat)
    requires input.Array? && round.Array? && n < |input.items|
    ensures UnknownItems(input, round, path, n + 1) ==
            UnknownItems(input, round, path, n)
            + (if n < |round.items| then UnknownBelow(input.items[n], round.items[n], Join(path, T.Decimal(n))) else {})
  {
    hide Join, UnknownBelow, T.Decimal;
  }
}
