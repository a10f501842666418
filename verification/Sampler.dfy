/** The device's readings, kept and sent as they are taken. The feed sends what each tick took and what it no
    longer takes; a reader that keeps what it is sent by what tells entries apart holds what the device holds. */
module Sampler {
  import opened Wrappers
  import opened Json
  import opened Readings

  // ---- What tells one entry from another ---------------------------------------------------------------

  const DESCRIPTIVE: set<string> :=
    {STATUS, "limits", "security", "channel", "passphrase", "margin", "short", "boot", "found"}

  const SEPARATOR: char := '\U{1f}'

  const ENDED := "no longer applies"

  // The trait with some of its members left out, where it has members.
  function Without(traits: Members, name: string, members: set<string>): Members
  {
    if name in traits && traits[name].Object? then traits[name := Object(traits[name].members - members)] else traits
  }

  // The traits that tell apart.
  function Distinguishing(traits: Members): Members
  {
    Without(Without(traits - DESCRIPTIVE, "interface", {"route", "overlay"}), "battery", {"serial", "model", "vendor"})
  }

  function TellingValue(entry: Entry): Option<Json>
  {
    if entry.ToldApartByValue() then entry.value else None
  }

  function IdentityKey(render: Render, entry: Entry): string
  {
    var value := if TellingValue(entry).Some? then render(TellingValue(entry).value) else "";
    var traits := render(Object(Distinguishing(entry.traits)));
    entry.name + [SEPARATOR] + (entry.kind + [SEPARATOR] + (traits + [SEPARATOR] + value))
  }

  // Text that says which value it is, and holds no separator.
  ghost predicate Faithful(render: Render)
  {
    && (forall a, b :: render(a) == render(b) ==> a == b)
    && (forall a :: render(a) != "" && SEPARATOR !in render(a))
  }

  lemma SplitAt(a: string, x: string, b: string, y: string)
    requires SEPARATOR !in a && SEPARATOR !in b && a + [SEPARATOR] + x == b + [SEPARATOR] + y
    ensures a == b && x == y
  {
    var s, t := a + [SEPARATOR] + x, b + [SEPARATOR] + y;
    assert s[|a|] == SEPARATOR && t[|b|] == SEPARATOR;
    assert forall i | 0 <= i < |a| :: s[i] == a[i];
    assert forall i | 0 <= i < |b| :: t[i] == b[i];
    assert |a| == |b|;
    assert a == s[..|a|] && b == t[..|b|];
    assert x == s[|a| + 1..] && y == t[|b| + 1..];
  }

  // The same from the other end, where it is what comes last that holds none.
  lemma SplitAtLast(a: string, x: string, b: string, y: string)
    requires SEPARATOR !in x && SEPARATOR !in y && a + ([SEPARATOR] + x) == b + ([SEPARATOR] + y)
    ensures a == b && x == y
  {
    var s, t := a + ([SEPARATOR] + x), b + ([SEPARATOR] + y);
    assert s[|a|] == SEPARATOR && t[|b|] == SEPARATOR;
    assert forall i | |a| < i < |s| :: s[i] == x[i - |a| - 1];
    assert forall i | |b| < i < |t| :: t[i] == y[i - |b| - 1];
    assert |a| == |b|;
    assert a == s[..|a|] && b == t[..|b|];
    assert x == s[|a| + 1..] && y == t[|b| + 1..];
  }

  // The name and the kind as the key runs them together.
  function Heading(entry: Entry): string
  {
    entry.name + [SEPARATOR] + entry.kind
  }

  function ValueText(render: Render, entry: Entry): string
  {
    if TellingValue(entry).Some? then render(TellingValue(entry).value) else ""
  }

  lemma KeyParts(render: Render, entry: Entry)
    ensures IdentityKey(render, entry) ==
            (Heading(entry) + ([SEPARATOR] + render(Object(Distinguishing(entry.traits)))))
            + ([SEPARATOR] + ValueText(render, entry))
  {
    hide Distinguishing, TellingValue;
  }

  /** The key is the same exactly where the name and kind run together are, and the traits that tell apart, and
      the value where it does. Where neither name holds the separator, that is the name and the kind each. */
  lemma KeyTellsApart(render: Render, a: Entry, b: Entry)
    requires Faithful(render)
    ensures IdentityKey(render, a) == IdentityKey(render, b) <==>
            && Heading(a) == Heading(b)
            && Distinguishing(a.traits) == Distinguishing(b.traits) && TellingValue(a) == TellingValue(b)
    ensures SEPARATOR !in a.name && SEPARATOR !in b.name ==>
              (Heading(a) == Heading(b) <==> a.name == b.name && a.kind == b.kind)
  {
    KeyParts(render, a);
    KeyParts(render, b);
    hide Distinguishing, TellingValue, IdentityKey, Heading;
    if IdentityKey(render, a) == IdentityKey(render, b) {
      var aTraits, bTraits := render(Object(Distinguishing(a.traits))), render(Object(Distinguishing(b.traits)));
      SplitAtLast(Heading(a) + ([SEPARATOR] + aTraits), ValueText(render, a),
                  Heading(b) + ([SEPARATOR] + bTraits), ValueText(render, b));
      SplitAtLast(Heading(a), aTraits, Heading(b), bTraits);
    }
    HeadingSplits(a, b);
  }

  lemma HeadingSplits(a: Entry, b: Entry)
    ensures SEPARATOR !in a.name && SEPARATOR !in b.name ==>
              (Heading(a) == Heading(b) <==> a.name == b.name && a.kind == b.kind)
  {
    if SEPARATOR !in a.name && SEPARATOR !in b.name && Heading(a) == Heading(b) {
      SplitAt(a.name, a.kind, b.name, b.kind);
    }
  }

  /** Where a name does hold it, two entries of different names and kinds share a key. */
  lemma ASeparatorInAName(render: Render, a: Entry)
    requires !a.ToldApartByValue()
    ensures var b := a.(name := a.name + [SEPARATOR] + a.kind, kind := "");
            var c := a.(kind := a.kind + [SEPARATOR]);
            b.name != c.name && IdentityKey(render, b) == IdentityKey(render, c)
  {
    var b := a.(name := a.name + [SEPARATOR] + a.kind, kind := "");
    var c := a.(kind := a.kind + [SEPARATOR]);
    assert b.name[|a.name|] == SEPARATOR;
    assert SEPARATOR !in "network-address";
    assert |b.name| > |c.name|;
    KeyParts(render, b);
    KeyParts(render, c);
    assert Heading(b) == Heading(c);
    hide IdentityKey, Distinguishing;
  }

  /** Ending an entry leaves its key as it was, so a reader drops the right one. */
  lemma EndedIsTheSame(render: Render, entry: Entry, at: u64, reason: string)
    ensures IdentityKey(render, entry.Ended(at, reason)) == IdentityKey(render, entry)
  {
    var ended := entry.Ended(at, reason);
    assert ended.traits - DESCRIPTIVE == entry.traits - DESCRIPTIVE;
    hide Without;
  }

  // ---- A reader ----------------------------------------------------------------------------------------

  type View = map<string, Entry>

  // A reader keeps the newest of each entry and drops one that ended.
  function Receive(render: Render, view: View, entry: Entry): View
  {
    var key := IdentityKey(render, entry);
    if entry.IsEnded() then view - {key} else view[key := entry]
  }

  function ReceiveAll(render: Render, view: View, batch: seq<Entry>): View
  {
    if batch == [] then view
    else Receive(render, ReceiveAll(render, view, batch[..|batch| - 1]), batch[|batch| - 1])
  }

  function Keys(render: Render, batch: seq<Entry>): set<string>
  {
    set i | 0 <= i < |batch| :: IdentityKey(render, batch[i])
  }

  lemma {:induction false} ReceiveConcat(render: Render, view: View, a: seq<Entry>, b: seq<Entry>)
    ensures ReceiveAll(render, view, a + b) == ReceiveAll(render, ReceiveAll(render, view, a), b)
  {
    hide Receive;
    if b == [] {
      assert a + b == a;
    } else {
      assert (a + b)[..|a + b| - 1] == a + b[..|b| - 1];
      ReceiveConcat(render, view, a, b[..|b| - 1]);
    }
  }

  // What a batch leaves of an entry it names does not depend on what was held before.
  lemma {:induction false} BatchDecides(render: Render, a: View, b: View, batch: seq<Entry>, key: string)
    requires key in Keys(render, batch) || ((key in a <==> key in b) && (key in a ==> a[key] == b[key]))
    ensures var x, y := ReceiveAll(render, a, batch), ReceiveAll(render, b, batch);
            (key in x <==> key in y) && (key in x ==> x[key] == y[key])
  {
    hide IdentityKey, Entry.IsEnded;
    if batch != [] {
      var last := batch[|batch| - 1];
      if key != IdentityKey(render, last) {
        KeysSnoc(render, batch);
        BatchDecides(render, a, b, batch[..|batch| - 1], key);
      }
    }
  }

  lemma KeysSnoc(render: Render, batch: seq<Entry>)
    requires batch != []
    ensures Keys(render, batch) == Keys(render, batch[..|batch| - 1]) + {IdentityKey(render, batch[|batch| - 1])}
  {
    hide IdentityKey;
    forall key | key in Keys(render, batch)
      ensures key in Keys(render, batch[..|batch| - 1]) + {IdentityKey(render, batch[|batch| - 1])}
    {
      var i :| 0 <= i < |batch| && IdentityKey(render, batch[i]) == key;
      if i < |batch| - 1 {
        assert batch[..|batch| - 1][i] == batch[i];
      }
    }
  }

  // A reader that held nothing but what the batch names holds what one starting with nothing would.
  lemma BatchReplaces(render: Render, view: View, batch: seq<Entry>)
    requires view.Keys <= Keys(render, batch)
    ensures ReceiveAll(render, view, batch) == ReceiveAll(render, map[], batch)
  {
    var x, y := ReceiveAll(render, view, batch), ReceiveAll(render, map[], batch);
    forall key ensures (key in x <==> key in y) && (key in x ==> x[key] == y[key]) {
      BatchDecides(render, view, map[], batch, key);
    }
  }

  lemma {:induction false} NothingEnds(render: Render, view: View, batch: seq<Entry>)
    requires forall i | 0 <= i < |batch| :: !batch[i].IsEnded()
    ensures ReceiveAll(render, view, batch).Keys == view.Keys + Keys(render, batch)
    ensures Keyed(render, view) ==> Keyed(render, ReceiveAll(render, view, batch))
  {
    hide IdentityKey, Entry.IsEnded;
    if batch != [] {
      KeysSnoc(render, batch);
      NothingEnds(render, view, batch[..|batch| - 1]);
    }
  }

  lemma {:induction false} AllEnd(render: Render, view: View, batch: seq<Entry>)
    requires forall i | 0 <= i < |batch| :: batch[i].IsEnded()
    ensures ReceiveAll(render, view, batch) == view - Keys(render, batch)
  {
    hide IdentityKey, Entry.IsEnded;
    if batch != [] {
      KeysSnoc(render, batch);
      AllEnd(render, view, batch[..|batch| - 1]);
    }
  }

  // ---- A tick ------------------------------------------------------------------------------------------

  const CHANNEL_CLIENTS := "channel-clients"
  const SLOW_EVERY := 5
  const IDLE_STOP := 1800

  // The one entry the sampler makes itself.
  function ChannelClients(at: u64, open: nat): Entry
  {
    Entry(at, CHANNEL_CLIENTS, map[], "quantity", Some("clients"), Some(Number(Decimal(open, 0))))
  }

  function ClientsKey(render: Render): string
  {
    IdentityKey(render, ChannelClients(0, 0))
  }

  lemma OneClientsKey(render: Render, at: u64, open: nat)
    ensures IdentityKey(render, ChannelClients(at, open)) == ClientsKey(render)
    ensures !ChannelClients(at, open).IsEnded()
  {
  }

  // Each entry under its own key, none of them ended.
  ghost predicate Keyed(render: Render, view: View)
  {
    forall k | k in view :: IdentityKey(render, view[k]) == k && !view[k].IsEnded()
  }

  // What the snapshot a feed opens with holds: the newest of each, and the clients counted now.
  function Snapshot(render: Render, current: View, clients: Entry): View
  {
    (map k | k in current && current[k].name != CHANNEL_CLIENTS :: current[k])[IdentityKey(render, clients) := clients]
  }

  // What a source gives: readings taken, none of them sent as ended, and none of them the count of clients.
  ghost predicate Taken(readings: seq<Entry>)
  {
    forall i | 0 <= i < |readings| :: !readings[i].IsEnded() && readings[i].name != CHANNEL_CLIENTS
  }

  // One tick: what was taken, and what is sent for what no longer is.
  datatype Tick = Tick(slow: bool, readings: seq<Entry>, gone: seq<Entry>)

  function Base(current: View, slow: bool): View
  {
    if slow then map[] else current
  }

  // The map after a tick, which a slow tick starts from empty.
  function Held(render: Render, current: View, tick: Tick): View
  {
    ReceiveAll(render, Base(current, tick.slow), tick.readings)
  }

  // Each entry under these names as it is sent to end it: once, and nothing else, in some order.
  ghost predicate Listed(gone: seq<Entry>, before: View, names: set<string>, at: u64)
    requires names <= before.Keys
  {
    && |gone| == |names|
    && (forall i | 0 <= i < |gone| :: exists k | k in names :: gone[i] == before[k].Ended(at, ENDED))
    && (forall k | k in names :: before[k].Ended(at, ENDED) in gone)
  }

  ghost predicate Ends(gone: seq<Entry>, before: View, after: View, at: u64)
  {
    Listed(gone, before, before.Keys - after.Keys, at)
  }

  ghost predicate TickOf(render: Render, current: View, tick: Tick, at: u64)
  {
    && |tick.readings| > 0
    && Taken(tick.readings[..|tick.readings| - 1])
    && (exists boot, open :: tick.readings[|tick.readings| - 1] == ChannelClients(boot, open))
    && Ends(tick.gone, if tick.slow then current else map[], Held(render, current, tick), at)
  }

  // The same everywhere but in the count of clients, which a snapshot counts afresh.
  ghost predicate Agrees(render: Render, view: View, current: View)
  {
    forall k | k != ClientsKey(render) :: (k in view <==> k in current) && (k in view ==> view[k] == current[k])
  }

  lemma GoneKeys(render: Render, gone: seq<Entry>, before: View, after: View, at: u64)
    requires Keyed(render, before) && Ends(gone, before, after, at)
    ensures Keys(render, gone) == before.Keys - after.Keys
    ensures forall i | 0 <= i < |gone| :: gone[i].IsEnded()
  {
    hide IdentityKey, Entry.IsEnded, Entry.Ended;
    forall k | k in before
      ensures IdentityKey(render, before[k].Ended(at, ENDED)) == k && before[k].Ended(at, ENDED).IsEnded()
    {
      EndedIsTheSame(render, before[k], at, ENDED);
      EndedSaysSo(before[k], at, ENDED);
    }
  }

  lemma TakenHold(render: Render, current: View, tick: Tick, at: u64)
    requires TickOf(render, current, tick, at)
    ensures forall i | 0 <= i < |tick.readings| :: !tick.readings[i].IsEnded()
    ensures ClientsKey(render) in Keys(render, tick.readings)
  {
    hide IdentityKey, Entry.IsEnded;
    var last := |tick.readings| - 1;
    var boot, open :| tick.readings[last] == ChannelClients(boot, open);
    OneClientsKey(render, boot, open);
    forall i | 0 <= i < |tick.readings| ensures !tick.readings[i].IsEnded() {
      if i < last {
        assert tick.readings[..last][i] == tick.readings[i];
      }
    }
    assert IdentityKey(render, tick.readings[last]) == ClientsKey(render);
  }

  // After what was taken, a reader holds what the device does of every entry the tick speaks for.
  lemma ReadingsAgree(render: Render, view: View, current: View, tick: Tick, at: u64)
    requires Agrees(render, view, current) && TickOf(render, current, tick, at)
    ensures var read, held := ReceiveAll(render, view, tick.readings), Held(render, current, tick);
            forall k | k in Keys(render, tick.readings) || !tick.slow ::
              (k in read <==> k in held) && (k in read ==> read[k] == held[k])
  {
    hide IdentityKey, Entry.IsEnded, ReceiveAll, ClientsKey, TickOf, Keys;
    TakenHold(render, current, tick, at);
    var read, held := ReceiveAll(render, view, tick.readings), Held(render, current, tick);
    forall k | k in Keys(render, tick.readings) || !tick.slow
      ensures (k in read <==> k in held) && (k in read ==> read[k] == held[k])
    {
      BatchDecides(render, view, Base(current, tick.slow), tick.readings, k);
    }
  }

  /** One tick brings a reader that agreed with the device to hold exactly what it holds. */
  lemma TickBringsLevel(render: Render, view: View, current: View, tick: Tick, at: u64)
    requires Keyed(render, current) && Agrees(render, view, current) && TickOf(render, current, tick, at)
    ensures ReceiveAll(render, view, tick.readings + tick.gone) == Held(render, current, tick)
    ensures Keyed(render, Held(render, current, tick))
  {
    hide IdentityKey, Entry.IsEnded, ReceiveAll, ClientsKey, Keys, Ends, Keyed;
    var before := if tick.slow then current else map[];
    var read, held := ReceiveAll(render, view, tick.readings), Held(render, current, tick);
    ReadingsAgree(render, view, current, tick, at);
    TakenHold(render, current, tick, at);
    KeyedBase(render, current, tick.slow);
    NothingEnds(render, Base(current, tick.slow), tick.readings);
    NothingEnds(render, view, tick.readings);
    GoneKeys(render, tick.gone, before, held, at);
    AllEnd(render, read, tick.gone);
    ReceiveConcat(render, view, tick.readings, tick.gone);
    DropsLevel(tick.slow, view, current, read, held, Keys(render, tick.readings), ClientsKey(render), before);
  }

  /** After a slow tick the device holds what was taken and nothing else, and everything it held before and no longer
      does has been sent as ended; after any other it holds what it held besides, and ends nothing. */
  lemma TickSays(render: Render, current: View, tick: Tick, at: u64)
    requires TickOf(render, current, tick, at)
    ensures Held(render, current, tick).Keys ==
            (if tick.slow then {} else current.Keys) + Keys(render, tick.readings)
    ensures tick.slow ==> forall k | k in current && k !in Held(render, current, tick) ::
              current[k].Ended(at, "no longer applies") in tick.gone
    ensures !tick.slow ==> tick.gone == []
  {
    TakenHold(render, current, tick, at);
    NothingEnds(render, Base(current, tick.slow), tick.readings);
    hide IdentityKey, Entry.IsEnded, Entry.Ended, ReceiveAll, Keys;
    if !tick.slow {
      var none: View := map[];
      assert none.Keys - Held(render, current, tick).Keys == {};
    }
  }

  lemma KeyedBase(render: Render, current: View, slow: bool)
    requires Keyed(render, current)
    ensures Keyed(render, Base(current, slow)) && Keyed(render, map[])
  {
    hide IdentityKey, Entry.IsEnded;
  }

  lemma DropsLevel(slow: bool, view: View, current: View, read: View, held: View, taken: set<string>, clients: string,
                   before: View)
    requires before == if slow then current else map[]
    requires read.Keys == view.Keys + taken && held.Keys == Base(current, slow).Keys + taken && clients in taken
    requires forall k | k != clients :: k in view <==> k in current
    requires forall k | k in taken || !slow :: (k in read <==> k in held) && (k in read ==> read[k] == held[k])
    ensures read - (before.Keys - held.Keys) == held
  {
    var left := read - (before.Keys - held.Keys);
    forall k ensures (k in left <==> k in held) && (k in held ==> left[k] == held[k]) {
    }
  }

  // ---- A feed ------------------------------------------------------------------------------------------

  function HeldAfter(render: Render, current: View, ticks: seq<Tick>): View
    decreases |ticks|
  {
    if ticks == [] then current else HeldAfter(render, Held(render, current, ticks[0]), ticks[1..])
  }

  ghost predicate Ticks(render: Render, current: View, ticks: seq<Tick>)
    decreases |ticks|
  {
    ticks != [] ==>
      (exists at :: TickOf(render, current, ticks[0], at)) && Ticks(render, Held(render, current, ticks[0]), ticks[1..])
  }

  // What a reader makes of every tick sent, missing none.
  function SeenAfter(render: Render, view: View, ticks: seq<Tick>): View
    decreases |ticks|
  {
    if ticks == [] then view
    else SeenAfter(render, ReceiveAll(render, view, ticks[0].readings + ticks[0].gone), ticks[1..])
  }

  /** The feed refines the snapshot: a reader that agreed with the device and misses no tick holds, after every
      tick, exactly what the device holds. */
  lemma {:induction false} FeedFollows(render: Render, view: View, current: View, ticks: seq<Tick>)
    requires Keyed(render, current) && Agrees(render, view, current) && Ticks(render, current, ticks)
    ensures ticks != [] ==> SeenAfter(render, view, ticks) == HeldAfter(render, current, ticks)
    decreases |ticks|
  {
    hide Keyed, TickOf, Held, ReceiveAll, IdentityKey;
    if ticks != [] {
      var at :| TickOf(render, current, ticks[0], at);
      TickBringsLevel(render, view, current, ticks[0], at);
      var held := Held(render, current, ticks[0]);
      assert Agrees(render, held, held);
      FeedFollows(render, held, held, ticks[1..]);
    }
  }

  // The count of clients is held once.
  ghost predicate CountedOnce(render: Render, view: View)
  {
    forall k | k in view && view[k].name == CHANNEL_CLIENTS :: k == ClientsKey(render)
  }

  lemma {:induction false} ReceiveCountsOnce(render: Render, view: View, batch: seq<Entry>)
    requires CountedOnce(render, view)
    requires forall i | 0 <= i < |batch| && batch[i].name == CHANNEL_CLIENTS ::
               IdentityKey(render, batch[i]) == ClientsKey(render)
    ensures CountedOnce(render, ReceiveAll(render, view, batch))
  {
    hide IdentityKey, Entry.IsEnded, ClientsKey;
    if batch != [] {
      ReceiveCountsOnce(render, view, batch[..|batch| - 1]);
    }
  }

  // What the sampler holds is sound from its first tick on.
  ghost predicate Sound(render: Render, view: View)
  {
    Keyed(render, view) && CountedOnce(render, view)
  }

  lemma NothingIsSound(render: Render)
    ensures Sound(render, map[])
  {
  }

  lemma TickKeepsSound(render: Render, current: View, tick: Tick, at: u64)
    requires Sound(render, current) && TickOf(render, current, tick, at)
    ensures Sound(render, Held(render, current, tick))
  {
    hide IdentityKey, Entry.IsEnded, ReceiveAll, Ends, Keyed;
    assert Agrees(render, current, current);
    TickBringsLevel(render, current, current, tick, at);
    var last := |tick.readings| - 1;
    var boot, open :| tick.readings[last] == ChannelClients(boot, open);
    OneClientsKey(render, boot, open);
    assert forall i | 0 <= i < last :: tick.readings[..last][i] == tick.readings[i];
    assert CountedOnce(render, Base(current, tick.slow));
    ReceiveCountsOnce(render, Base(current, tick.slow), tick.readings);
  }

  /** What a feed opens with is such a start, whenever it opens. */
  lemma SnapshotAgrees(render: Render, current: View, boot: u64, open: nat)
    requires Sound(render, current)
    ensures Agrees(render, Snapshot(render, current, ChannelClients(boot, open)), current)
    ensures var snapshot := Snapshot(render, current, ChannelClients(boot, open));
            && ClientsKey(render) in snapshot
            && snapshot[ClientsKey(render)].value == Some(Number(Decimal(open, 0)))
  {
    hide IdentityKey, Entry.IsEnded;
    OneClientsKey(render, boot, open);
  }

  // ---- The sampler -------------------------------------------------------------------------------------

  class Sampler {
    const render: Render
    var current: View
    var ticks: u32
    var idle: nat
    var sessions: nat

    constructor (render: Render)
      ensures this.render == render && current == map[] && ticks == 0 && idle == 0 && sessions == 0
    {
      this.render, current, ticks, idle, sessions := render, map[], 0, 0, 0;
    }

    // Keeps what was taken, each under its key.
    method Keep(readings: seq<Entry>)
      requires forall i | 0 <= i < |readings| :: !readings[i].IsEnded()
      modifies `current
      ensures current == ReceiveAll(render, old(current), readings)
    {
      hide IdentityKey, Entry.IsEnded;
      for n := 0 to |readings|
        invariant current == ReceiveAll(render, old(current), readings[..n])
      {
        assert readings[..n + 1][..n] == readings[..n];
        current := current[IdentityKey(render, readings[n]) := readings[n]];
      }
      assert readings[..|readings|] == readings;
    }

    // What was held and is held no longer, each once more as ended.
    method Endings(before: View, at: u64) returns (gone: seq<Entry>)
      ensures Ends(gone, before, current, at)
    {
      hide Entry.Ended, Listed;
      gone := [];
      var todo := before.Keys;
      NoneListed(before, at);
      assert (before.Keys - todo) - current.Keys == {};
      while todo != {}
        invariant todo <= before.Keys
        invariant Listed(gone, before, (before.Keys - todo) - current.Keys, at)
        decreases |todo|
      {
        var key :| key in todo;
        ghost var names := (before.Keys - todo) - current.Keys;
        todo := todo - {key};
        if key !in current {
          OneMoreListed(gone, before, names, key, at);
          gone := gone + [before[key].Ended(at, ENDED)];
          assert (before.Keys - todo) - current.Keys == names + {key};
        } else {
          assert (before.Keys - todo) - current.Keys == names;
        }
      }
      assert before.Keys - {} == before.Keys;
    }

    // One turn of the sampler's loop, as far as it goes without a session to wait for.
    method Turn(gather: bool -> seq<Entry>, boot: u64, at: u64) returns (sent: Option<Tick>)
      requires forall slow :: Taken(gather(slow))
      modifies `current, `ticks, `idle
      ensures sent.Some? ==> TickOf(render, old(current), sent.value, at)
                             && current == Held(render, old(current), sent.value)
                             && ticks == (old(ticks) + 1) % 0x1_0000_0000
                             && sent.value.slow == (ticks % SLOW_EVERY == 0)
                             && sent.value.readings == gather(sent.value.slow) + [ChannelClients(boot, sessions)]
      ensures sent.None? <==> sessions == 0 && old(idle) + 1 >= 30 * 60
      ensures sent.None? ==> current == map[] && ticks == old(ticks)
      ensures idle == if sessions > 0 || sent.None? then 0 else old(idle) + 1
      ensures sent.Some? ==>
                var count := sent.value.readings[|sent.value.readings| - 1];
                && (sent.value.slow <==> ticks % 5 == 0)
                && count.name == "channel-clients" && count.at == boot
                && count.value == Some(Number(Decimal(sessions, 0)))
      ensures old(Sound(render, current)) ==> Sound(render, current)
    {
      hide IdentityKey, Entry.IsEnded, Entry.Ended, Ends, Keyed, CountedOnce;
      if sessions == 0 {
        idle := idle + 1;
        if idle >= IDLE_STOP {
          current := map[];
          idle := 0;
          NothingIsSound(render);
          return None;
        }
      } else {
        idle := 0;
      }
      ticks := (ticks + 1) % 0x1_0000_0000;
      var slow := ticks % SLOW_EVERY == 0;
      var readings := gather(slow) + [ChannelClients(boot, sessions)];
      var before: View := map[];
      if slow {
        before, current := current, map[];
      }
      assert !ChannelClients(boot, sessions).IsEnded() by {
        OneClientsKey(render, boot, sessions);
      }
      Keep(readings);
      var gone := Endings(before, at);
      sent := Some(Tick(slow, readings, gone));
      assert readings[..|readings| - 1] == gather(slow);
      assert TickOf(render, old(current), sent.value, at);
      if old(Sound(render, current)) {
        TickKeepsSound(render, old(current), sent.value, at);
      }
    }
  }

  lemma NoneListed(before: View, at: u64)
    ensures Listed([], before, {}, at)
  {
  }

  lemma OneMoreListed(gone: seq<Entry>, before: View, names: set<string>, key: string, at: u64)
    requires names <= before.Keys && key in before && key !in names && Listed(gone, before, names, at)
    ensures Listed(gone + [before[key].Ended(at, ENDED)], before, names + {key}, at)
  {
    hide Entry.Ended;
    var more := gone + [before[key].Ended(at, ENDED)];
    assert more[|gone|] == before[key].Ended(at, ENDED);
    forall k | k in names + {key} ensures before[k].Ended(at, ENDED) in more {
      if k != key {
        assert before[k].Ended(at, ENDED) in gone;
      }
    }
    forall i | 0 <= i < |more| ensures exists k | k in names + {key} :: more[i] == before[k].Ended(at, ENDED) {
      if i < |gone| {
        assert more[i] == gone[i];
      } else {
        assert key in names + {key};
      }
    }
  }

  // ---- Facts -------------------------------------------------------------------------------------------

  // The facts that are not among those kept, in order.
  function Changed(render: Render, last: seq<Entry>, kept: set<string>, at: u64): seq<Entry>
  {
    if last == [] then []
    else
      var earlier := Changed(render, last[..|last| - 1], kept, at);
      var fact := last[|last| - 1];
      if IdentityKey(render, fact) in kept then earlier else earlier + [fact.Ended(at, ENDED)]
  }

  function ChangedFacts(render: Render, last: seq<Entry>, current: seq<Entry>, at: u64): seq<Entry>
  {
    Changed(render, last, Keys(render, current), at) + current
  }

  lemma {:induction false} ChangedDrops(render: Render, last: seq<Entry>, kept: set<string>, at: u64)
    ensures forall i | 0 <= i < |Changed(render, last, kept, at)| :: Changed(render, last, kept, at)[i].IsEnded()
    ensures Keys(render, last) - kept <= Keys(render, Changed(render, last, kept, at))
  {
    hide IdentityKey, Entry.IsEnded, Entry.Ended;
    if last != [] {
      var fact := last[|last| - 1];
      var ended := fact.Ended(at, ENDED);
      KeysSnoc(render, last);
      ChangedDrops(render, last[..|last| - 1], kept, at);
      EndedSaysSo(fact, at, ENDED);
      EndedIsTheSame(render, fact, at, ENDED);
      if IdentityKey(render, fact) !in kept {
        var all := Changed(render, last, kept, at);
        assert all[..|all| - 1] == Changed(render, last[..|last| - 1], kept, at);
        KeysSnoc(render, all);
      }
    }
  }

  lemma {:induction false} OnlyNamed(render: Render, view: View, batch: seq<Entry>)
    ensures ReceiveAll(render, view, batch).Keys <= view.Keys + Keys(render, batch)
  {
    hide IdentityKey, Entry.IsEnded;
    if batch != [] {
      KeysSnoc(render, batch);
      OnlyNamed(render, view, batch[..|batch| - 1]);
    }
  }

  /** A change of facts brings a reader of the last to hold the current, and nothing else. */
  lemma ChangeBringsLevel(render: Render, last: seq<Entry>, current: seq<Entry>, at: u64)
    ensures ReceiveAll(render, ReceiveAll(render, map[], last), ChangedFacts(render, last, current, at)) ==
            ReceiveAll(render, map[], current)
  {
    hide IdentityKey, Entry.IsEnded, Entry.Ended, ReceiveAll, Changed, Keys;
    var view, changed := ReceiveAll(render, map[], last), Changed(render, last, Keys(render, current), at);
    OnlyNamed(render, map[], last);
    ChangedDrops(render, last, Keys(render, current), at);
    AllEnd(render, view, changed);
    ReceiveConcat(render, view, changed, current);
    BatchReplaces(render, view - Keys(render, changed), current);
  }

  // Facts that differ leave something to send.
  lemma NothingToSay(render: Render, last: seq<Entry>, current: seq<Entry>, at: u64)
    requires ChangedFacts(render, last, current, at) == []
    ensures last == current == []
  {
    hide IdentityKey, Entry.Ended;
  }

  // Whether two sets of facts say the same, whenever each was taken.
  predicate SameFacts(a: seq<Entry>, b: seq<Entry>)
  {
    |a| == |b| && forall i | 0 <= i < |a| :: a[i].(at := 0) == b[i].(at := 0)
  }

  /** Facts say the same where each is the same but for when it was taken. */
  lemma SameButForWhen(a: seq<Entry>, b: seq<Entry>)
    ensures SameFacts(a, b) <==>
            |a| == |b| && forall i | 0 <= i < |a| ::
              && a[i].name == b[i].name && a[i].traits == b[i].traits && a[i].kind == b[i].kind
              && a[i].unit == b[i].unit && a[i].value == b[i].value
  {
  }

  // What a look at the facts has the feed say.
  function LookSays(render: Render, last: seq<Entry>, current: seq<Entry>, at: u64): seq<Entry>
  {
    if SameFacts(current, last) then [] else ChangedFacts(render, last, current, at)
  }

  // What one feed last said of the device's facts.
  class FactsFeed {
    const render: Render
    var last: seq<Entry>

    constructor (render: Render, facts: seq<Entry>)
      ensures this.render == render && last == facts
    {
      this.render, last := render, facts;
    }

    /** Each look leaves a reader of the feed holding the facts as they last changed, which are the facts now
        but for when they were taken. */
    method Due(current: seq<Entry>, at: u64) returns (batch: seq<Entry>)
      modifies this
      ensures ReceiveAll(render, ReceiveAll(render, map[], old(last)), batch) == ReceiveAll(render, map[], last)
      ensures SameFacts(current, last)
      ensures batch == LookSays(render, old(last), current, at)
      ensures SameFacts(current, old(last)) <==> batch == []
      ensures last == if batch == [] then old(last) else current
    {
      hide IdentityKey, Entry.IsEnded;
      if SameFacts(current, last) {
        return [];
      }
      batch := ChangedFacts(render, last, current, at);
      ChangeBringsLevel(render, last, current, at);
      if batch == [] {
        NothingToSay(render, last, current, at);
      }
      last := current;
    }
  }
}