// The nodes of a JSON value, where they are, and what one value says of another.
module Nodes {
  import opened Wrappers
  import opened Json
  import opened Path

  function Step(value: Json, s: Segment): Option<Json>
  {
    match s
    case Name(name) => if value.Object? && name in value.members then Some(value.members[name]) else None
    case Index(index) => if value.Array? && index < |value.items| then Some(value.items[index]) else None
  }

  function NodeAt(root: Json, path: seq<Segment>): Option<Json>
    decreases |path|
  {
    if path == [] then Some(root)
    else
      var child := Step(root, path[0]);
      if child.None? then None else NodeAt(child.value, path[1..])
  }

  predicate IsNode(root: Json, path: seq<Segment>)
  {
    NodeAt(root, path).Some?
  }

  // The path of a member some object of the value has or could have.
  predicate IsMember(root: Json, path: seq<Segment>)
  {
    && path != [] && path[|path| - 1].Name?
    && IsNode(root, path[..|path| - 1]) && NodeAt(root, path[..|path| - 1]).value.Object?
  }

  lemma {:induction false} NodeBelow(root: Json, at: seq<Segment>, s: Segment)
    requires IsNode(root, at)
    ensures NodeAt(root, at + [s]) == Step(NodeAt(root, at).value, s)
    decreases |at|
  {
    if at == [] {
      assert (at + [s])[1..] == [];
    } else {
      assert (at + [s])[1..] == at[1..] + [s];
      NodeBelow(Step(root, at[0]).value, at[1..], s);
    }
  }

  // ---- Containment -------------------------------------------------------------------------------------

  // Everything `a` says, `b` says; with `whole`, no list of `b` is the longer.
  predicate Contained(a: Json, b: Json, whole: bool)
  {
    match a
    case Object(members) =>
      b.Object? && forall k | k in members :: k in b.members && Contained(members[k], b.members[k], whole)
    case Array(items) =>
      && b.Array? && |items| <= |b.items| && (whole ==> |items| == |b.items|)
      && forall i | 0 <= i < |items| :: Contained(items[i], b.items[i], whole)
    case _ => a == b
  }
}
