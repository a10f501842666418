// JSON as a value. An object's members are a map, so a name appears once and order means nothing; where
// the program iterates one it does so in the order of the names (`Text.Sorted`).
module Json {
  import opened Wrappers

  // A number as text can carry it: whole, or digits and a power of ten.
  datatype Number = Int(i: int) | Decimal(digits: int, power: int)

  datatype Json =
    | Null
    | Bool(b: bool)
    | Number(number: Number)
    | String(text: string)
    | Array(items: seq<Json>)
    | Object(members: Members)

  type Members = map<string, Json>

  // How a value is written as text.
  type Render = Json -> string

  // The `kind` of an object, where it has one as text.
  function KindOf(members: Members): Option<string>
  {
    if "kind" in members && members["kind"].String? then Some(members["kind"].text) else None
  }

  // A member left out, or null, is unset.
  predicate Unset(members: Members, name: string)
  {
    name !in members || members[name].Null?
  }
}
