/** JSON documents as the scripts read them: objects keep their order, and their keys are distinct. */
module Json {

  datatype Atom = Null | Bool(b: bool) | Num(r: real) | Str(s: string)

  datatype Json =
    | Scalar(atom: Atom)
    | List(items: seq<Json>)
    | Dict(entries: seq<(string, Json)>)

  /** The number of children of a document, its i-th child and, for an object, that child's key. */
  function Arity(v: Json): nat {
    match v
    case Scalar(_) => 0
    case List(items) => |items|
    case Dict(entries) => |entries|
  }

  function Child(v: Json, i: nat): (c: Json)
    requires i < Arity(v)
    ensures c < v
  {
    match v
    case List(items) => items[i]
    case Dict(entries) => ChildIsSmaller(v, i); entries[i].1
  }

  lemma ChildIsSmaller(v: Json, i: nat)
    requires v.Dict? && i < |v.entries|
    ensures v.entries[i].1 < v
  {
    assert v.entries[i] < v;
    assert v.entries[i].1 < v.entries[i];
  }

  /** No object of a parsed document has a key twice. */
  predicate DistinctKeys(v: Json) {
    v.Dict? ==> forall i, j | 0 <= i < j < |v.entries| :: v.entries[i].0 != v.entries[j].0
  }
}
