/** One feed carries both what the sampler takes and the facts, turn and turn about. A reader of it holds both, and
    each is kept level without a mark on the other. */
module Feed {
  import opened Wrappers
  import opened Json
  import opened Readings
  import opened Sampler

  // What a device holds: what its sampler does, and the facts as this feed last said them.
  datatype Source = Source(held: View, facts: seq<Entry>)

  // What makes the feed say something: a tick of the sampler, or a look at the facts.
  datatype Event = Ticked(tick: Tick) | Looked(facts: seq<Entry>, at: u64)

  function Said(render: Render, source: Source, event: Event): seq<Entry>
  {
    match event
    case Ticked(tick) => tick.readings + tick.gone
    case Looked(facts, at) => LookSays(render, source.facts, facts, at)
  }

  function After(render: Render, source: Source, event: Event): Source
  {
    match event
    case Ticked(tick) => source.(held := Held(render, source.held, tick))
    case Looked(facts, at) =>
      if LookSays(render, source.facts, facts, at) == [] then source else source.(facts := facts)
  }

  // ---- Two parts of one view ---------------------------------------------------------------------------

  // Whether a key is of an entry so named.
  predicate Of(names: set<string>, key: string)
  {
    exists n | n in names :: n + [SEPARATOR] <= key
  }

  // Names that hold no separator, and so can be read off the front of a key.
  predicate Clear(names: set<string>)
  {
    forall n | n in names :: SEPARATOR !in n
  }

  lemma KeyIsOf(render: Render, names: set<string>, entry: Entry)
    requires Clear(names) && SEPARATOR !in entry.name
    ensures Of(names, IdentityKey(render, entry)) <==> entry.name in names
  {
    var key := IdentityKey(render, entry);
    assert entry.name + [SEPARATOR] <= key;
    if Of(names, key) {
      var n :| n in names && n + [SEPARATOR] <= key;
      SplitAt(n, key[|n| + 1..], entry.name, key[|entry.name| + 1..]);
    }
  }

  // The part of a view under these names, and the rest of it.
  function On(names: set<string>, view: View): View
  {
    map k | k in view && Of(names, k) :: view[k]
  }

  function Off(names: set<string>, view: View): View
  {
    map k | k in view && !Of(names, k) :: view[k]
  }

  ghost predicate AllOn(render: Render, names: set<string>, batch: seq<Entry>)
  {
    forall k | k in Keys(render, batch) :: Of(names, k)
  }

  ghost predicate AllOff(render: Render, names: set<string>, batch: seq<Entry>)
  {
    forall k | k in Keys(render, batch) :: !Of(names, k)
  }

  /** Entries whose names hold no separator are all of the one part where all are named so, and all of the other
      where none is. */
  lemma PartsByName(render: Render, names: set<string>, batch: seq<Entry>)
    requires Clear(names) && forall i | 0 <= i < |batch| :: SEPARATOR !in batch[i].name
    ensures AllOn(render, names, batch) <==> forall i | 0 <= i < |batch| :: batch[i].name in names
    ensures AllOff(render, names, batch) <==> forall i | 0 <= i < |batch| :: batch[i].name !in names
  {
    hide IdentityKey, Of;
    forall i | 0 <= i < |batch|
      ensures IdentityKey(render, batch[i]) in Keys(render, batch)
      ensures Of(names, IdentityKey(render, batch[i])) <==> batch[i].name in names
    {
      KeyIsOf(render, names, batch[i]);
    }
  }

  lemma {:induction false} OnlyOn(render: Render, names: set<string>, view: View, batch: seq<Entry>)
    requires AllOn(render, names, batch)
    ensures On(names, ReceiveAll(render, view, batch)) == ReceiveAll(render, On(names, view), batch)
    ensures Off(names, ReceiveAll(render, view, batch)) == Off(names, view)
  {
    hide IdentityKey, Entry.IsEnded, Of;
    if batch != [] {
      KeysSnoc(render, batch);
      OnlyOn(render, names, view, batch[..|batch| - 1]);
      assert Of(names, IdentityKey(render, batch[|batch| - 1]));
    }
  }

  lemma {:induction false} OnlyOff(render: Render, names: set<string>, view: View, batch: seq<Entry>)
    requires AllOff(render, names, batch)
    ensures Off(names, ReceiveAll(render, view, batch)) == ReceiveAll(render, Off(names, view), batch)
    ensures On(names, ReceiveAll(render, view, batch)) == On(names, view)
  {
    hide IdentityKey, Entry.IsEnded, Of;
    if batch != [] {
      KeysSnoc(render, batch);
      OnlyOff(render, names, view, batch[..|batch| - 1]);
      assert !Of(names, IdentityKey(render, batch[|batch| - 1]));
    }
  }

  // ---- A reader of both --------------------------------------------------------------------------------

  // What each event brings is of its own part: facts go by these names, and nothing sampled does.
  ghost predicate Fits(render: Render, names: set<string>, source: Source, event: Event)
  {
    match event
    case Ticked(tick) => (exists at :: TickOf(render, source.held, tick, at)) && AllOff(render, names, tick.readings)
    case Looked(facts, _) => AllOn(render, names, facts)
  }

  ghost predicate Apart(render: Render, names: set<string>, source: Source)
  {
    Keyed(render, source.held) && (forall k | k in source.held :: !Of(names, k)) && AllOn(render, names, source.facts)
  }

  // The facts held are those last said, and the rest is what the sampler holds but for its count of clients.
  ghost predicate Level(render: Render, names: set<string>, view: View, source: Source)
  {
    && On(names, view) == ReceiveAll(render, map[], source.facts)
    && Agrees(render, Off(names, view), source.held)
  }

  lemma TickKeepsLevel(render: Render, names: set<string>, view: View, source: Source, tick: Tick)
    requires Apart(render, names, source) && Level(render, names, view, source)
    requires Fits(render, names, source, Ticked(tick))
    ensures var after := After(render, source, Ticked(tick));
            var seen := ReceiveAll(render, view, tick.readings + tick.gone);
            && Apart(render, names, after) && Level(render, names, seen, after)
            && Off(names, seen) == after.held && On(names, seen) == On(names, view)
  {
    hide IdentityKey, Entry.IsEnded, Of, Keyed, Ends, ReceiveAll, Keys, Listed, On, Off, TickOf, Agrees;
    var at :| TickOf(render, source.held, tick, at);
    var before := if tick.slow then source.held else map[];
    var held := Held(render, source.held, tick);
    TickEnds(render, source.held, tick, at);
    BatchKeys(render, tick.readings, tick.gone);
    OnlyOff(render, names, view, tick.readings + tick.gone);
    TickBringsLevel(render, Off(names, view), source.held, tick, at);
    OnlyNamed(render, Base(source.held, tick.slow), tick.readings);
    SelfAgrees(render, held);
  }

  lemma SelfAgrees(render: Render, view: View)
    ensures Agrees(render, view, view)
  {
  }

  // What a tick ends was held.
  lemma TickEnds(render: Render, current: View, tick: Tick, at: u64)
    requires Keyed(render, current) && TickOf(render, current, tick, at)
    ensures Keys(render, tick.gone) <= current.Keys
  {
    hide IdentityKey, Entry.IsEnded, Ends, ReceiveAll, Keys;
    KeyedBase(render, current, tick.slow);
    GoneKeys(render, tick.gone, if tick.slow then current else map[], Held(render, current, tick), at);
  }

  lemma BatchKeys(render: Render, a: seq<Entry>, b: seq<Entry>)
    ensures Keys(render, a + b) == Keys(render, a) + Keys(render, b)
  {
    hide IdentityKey;
    forall k | k in Keys(render, a) + Keys(render, b) ensures k in Keys(render, a + b) {
      if k in Keys(render, a) {
        var i :| 0 <= i < |a| && IdentityKey(render, a[i]) == k;
        assert (a + b)[i] == a[i];
      } else {
        var i :| 0 <= i < |b| && IdentityKey(render, b[i]) == k;
        assert (a + b)[|a| + i] == b[i];
      }
    }
  }

  lemma OneKey(render: Render, entry: Entry)
    ensures Keys(render, [entry]) == {IdentityKey(render, entry)}
  {
    hide IdentityKey;
    assert [entry][0] == entry;
  }

  lemma {:induction false} ChangedNames(render: Render, last: seq<Entry>, kept: set<string>, at: u64)
    ensures Keys(render, Changed(render, last, kept, at)) <= Keys(render, last)
  {
    hide IdentityKey, Entry.Ended;
    if last != [] {
      var fact := last[|last| - 1];
      var ended := fact.Ended(at, ENDED);
      KeysSnoc(render, last);
      ChangedNames(render, last[..|last| - 1], kept, at);
      EndedIsTheSame(render, fact, at, ENDED);
      BatchKeys(render, Changed(render, last[..|last| - 1], kept, at), [ended]);
      OneKey(render, ended);
    }
  }

  lemma LookKeepsLevel(render: Render, names: set<string>, view: View, source: Source, facts: seq<Entry>, at: u64)
    requires Apart(render, names, source) && Level(render, names, view, source)
    requires Fits(render, names, source, Looked(facts, at))
    ensures var event := Looked(facts, at);
            var after, seen := After(render, source, event), ReceiveAll(render, view, Said(render, source, event));
            && Apart(render, names, after) && Level(render, names, seen, after)
            && Off(names, seen) == Off(names, view)
  {
    hide IdentityKey, Entry.IsEnded, Entry.Ended, Of, Keyed, Keys, On, Off, Agrees, Changed, SameFacts;
    var said := LookSays(render, source.facts, facts, at);
    if said != [] {
      hide ReceiveAll;
      ChangedNames(render, source.facts, Keys(render, facts), at);
      BatchKeys(render, Changed(render, source.facts, Keys(render, facts), at), facts);
      OnlyOn(render, names, view, said);
      ChangeBringsLevel(render, source.facts, facts, at);
    }
  }

  // ---- Every run ---------------------------------------------------------------------------------------

  ghost predicate Events(render: Render, names: set<string>, source: Source, events: seq<Event>)
    decreases |events|
  {
    events != [] ==>
      Fits(render, names, source, events[0]) && Events(render, names, After(render, source, events[0]), events[1..])
  }

  function SourceAfter(render: Render, source: Source, events: seq<Event>): Source
    decreases |events|
  {
    if events == [] then source else SourceAfter(render, After(render, source, events[0]), events[1..])
  }

  function SeenOf(render: Render, view: View, source: Source, events: seq<Event>): View
    decreases |events|
  {
    if events == [] then view
    else
      SeenOf(render, ReceiveAll(render, view, Said(render, source, events[0])), After(render, source, events[0]),
             events[1..])
  }

  /** However ticks and changes of facts take turns, a reader that misses nothing holds the facts as they were last
      said and what the sampler holds, each as though the other were not there. */
  lemma {:induction false} FeedHoldsBoth(render: Render, names: set<string>, view: View, source: Source,
                                         events: seq<Event>)
    requires Apart(render, names, source) && Level(render, names, view, source)
    requires Events(render, names, source, events)
    ensures Level(render, names, SeenOf(render, view, source, events), SourceAfter(render, source, events))
    ensures events != [] && events[|events| - 1].Ticked? ==>
              Off(names, SeenOf(render, view, source, events)) == SourceAfter(render, source, events).held
    decreases |events|
  {
    hide Apart, Level, Fits, After, Said, ReceiveAll, Of, Off;
    if events != [] {
      var event := events[0];
      match event {
        case Ticked(tick) => TickKeepsLevel(render, names, view, source, tick);
        case Looked(facts, at) => LookKeepsLevel(render, names, view, source, facts, at);
      }
      var after, seen := After(render, source, event), ReceiveAll(render, view, Said(render, source, event));
      assert Apart(render, names, after) && Level(render, names, seen, after) by {
        SaidOfTick(render, source, event);
      }
      FeedHoldsBoth(render, names, seen, after, events[1..]);
      if |events| == 1 && event.Ticked? {
        SaidOfTick(render, source, event);
      }
    }
  }

  lemma SaidOfTick(render: Render, source: Source, event: Event)
    ensures event.Ticked? ==> Said(render, source, event) == event.tick.readings + event.tick.gone
  {
  }

  /** The batch a feed opens with, the facts and then a snapshot, is such a start. */
  lemma OpensLevel(render: Render, names: set<string>, current: View, facts: seq<Entry>, shown: seq<Entry>,
                   boot: u64, open: nat)
    requires Sound(render, current) && Apart(render, names, Source(current, facts))
    requires ReceiveAll(render, map[], shown) == Snapshot(render, current, ChannelClients(boot, open))
    requires AllOff(render, names, shown)
    ensures Level(render, names, ReceiveAll(render, map[], facts + shown), Source(current, facts))
  {
    hide IdentityKey, Entry.IsEnded, Of, Keyed, Keys, ReceiveAll, Snapshot, Agrees, CountedOnce;
    var view := ReceiveAll(render, map[], facts);
    ReceiveConcat(render, map[], facts, shown);
    OnlyOn(render, names, map[], facts);
    OnlyOff(render, names, view, shown);
    assert On(names, map[]) == map[] && Off(names, map[]) == map[];
    SnapshotAgrees(render, current, boot, open);
  }
}
