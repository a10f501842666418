/** Entries: the record facts and readings share, how its status is set, and its members on the wire. */
module Readings {
  import opened Wrappers
  import opened Json

  const STATUS := "status"
  const TOLD_APART_BY_VALUE: seq<string> := ["network-address"]

  type u32 = n: int | 0 <= n < 0x1_0000_0000
  type u64 = n: int | 0 <= n < 0x1_0000_0000_0000_0000

  datatype Status = Passed | Warning | Failed | Skipped | Broken | Ended
  {
    function Word(): string
    {
      match this
      case Passed => "passed"
      case Warning => "warning"
      case Failed => "failed"
      case Skipped => "skipped"
      case Broken => "broken"
      case Ended => "ended"
    }

    predicate CarriesValue()
    {
      Passed? || Warning? || Failed?
    }
  }

  datatype Entry =
    Entry(at: u64, name: string, traits: Members, kind: string, unit: Option<string>, value: Option<Json>)
  {
    predicate ToldApartByValue()
    {
      name in TOLD_APART_BY_VALUE
    }

    // The status is set with the value it allows: present for some, absent for the rest.
    function WithStatus(status: Status, reason: Option<string>): Entry
    {
      var is_ := map["is" := String(status.Word())];
      var status_ := if reason.Some? then is_["reason" := String(reason.value)] else is_;
      this.(traits := traits[STATUS := Object(status_)], value := if status.CarriesValue() then value else None)
    }

    // The entry with its status overwritten; `Sampler.EndedIsTheSame` needs the value where it is in the key.
    function Ended(at: u64, reason: string): Entry
    {
      var entry := this.(at := at).WithStatus(Status.Ended, Some(reason));
      if ToldApartByValue() then entry.(value := value) else entry
    }

    // The status an entry carries, where it carries one as text.
    function StatusWord(): Option<string>
    {
      if STATUS in traits && traits[STATUS].Object? && "is" in traits[STATUS].members
         && traits[STATUS].members["is"].String? then Some(traits[STATUS].members["is"].text)
      else None
    }

    predicate IsEnded()
    {
      StatusWord() == Some("ended")
    }

    // The entry as the members of a message, named against `nameMember`.
    function Write(nameMember: string): Members
    {
      var m := map["at" := Number(Int(at))][nameMember := String(name)];
      With(With(m["traits" := Object(traits)]["kind" := String(kind)],
                "unit", if unit.Some? then Some(String(unit.value)) else None),
           "value", value)
    }

    static function Read(nameMember: string, m: Members): Option<Entry>
    {
      if !(("at" in m && m["at"].Number? && m["at"].number.Int?
            && 0 <= m["at"].number.i < 0x1_0000_0000_0000_0000)) then None
      else if !(nameMember in m && m[nameMember].String?) then None
      else if !("traits" in m && m["traits"].Object?) then None
      else if !("kind" in m && m["kind"].String?) then None
      else if "unit" in m && !m["unit"].Null? && !m["unit"].String? then None
      else Some(Entry(m["at"].number.i, m[nameMember].text, m["traits"].members, m["kind"].text,
                      if "unit" in m && m["unit"].String? then Some(m["unit"].text) else None,
                      if "value" in m then Some(m["value"]) else None))
    }
  }

  // A member added where there is one to add.
  function With(m: Members, name: string, value: Option<Json>): Members
  {
    if value.Some? then m[name := value.value] else m
  }

  // What is written is read back, whatever the traits and the value hold.
  lemma EntryReadsBack(entry: Entry, nameMember: string, m: Members)
    requires nameMember in {"fact", "measurement"}
    requires forall k :: k in entry.Write(nameMember) ==> k in m && m[k] == entry.Write(nameMember)[k]
    requires forall k | k in {"unit", "value"} :: k in m ==> k in entry.Write(nameMember)
    ensures Entry.Read(nameMember, m) == Some(entry)
  {
    var w := entry.Write(nameMember);
    assert "at" in w && nameMember in w && "traits" in w && "kind" in w;
    assert "unit" in w <==> entry.unit.Some?;
    assert "value" in w <==> entry.value.Some?;
  }

  // All `Ended` changes is the time, the status and, unless the name is a listed one, the value.
  lemma EndedSaysSo(entry: Entry, at: u64, reason: string)
    ensures var ended := entry.Ended(at, reason);
            && ended.IsEnded() && ended.at == at
            && ended.name == entry.name && ended.kind == entry.kind && ended.unit == entry.unit
            && ended.traits - {STATUS} == entry.traits - {STATUS}
            && ended.value == if entry.ToldApartByValue() then entry.value else None
    ensures entry.Ended(at, reason).traits["status"] == Object(map["is" := String("ended"), "reason" := String(reason)])
    ensures entry.ToldApartByValue() <==> entry.name == "network-address"
  {
  }

  /** A status says its word and any reason, and the value stands only beside a check that was carried through. */
  lemma StatusSays(entry: Entry, status: Status, reason: Option<string>)
    ensures var set_ := entry.WithStatus(status, reason);
            && set_.at == entry.at && set_.name == entry.name && set_.kind == entry.kind && set_.unit == entry.unit
            && set_.traits - {"status"} == entry.traits - {"status"}
            && "status" in set_.traits && set_.traits["status"].Object?
            && set_.value == if status in {Passed, Warning, Status.Failed} then entry.value else None
    ensures var members := entry.WithStatus(status, reason).traits["status"].members;
            && members.Keys == {"is"} + (if reason.Some? then {"reason"} else {})
            && (reason.Some? ==> members["reason"] == String(reason.value))
            && match status
               case Passed => members["is"] == String("passed")
               case Warning => members["is"] == String("warning")
               case Failed => members["is"] == String("failed")
               case Skipped => members["is"] == String("skipped")
               case Broken => members["is"] == String("broken")
               case Ended => members["is"] == String("ended")
  {
  }
}
