/** Renaming `tenant_id` to the operators' `account_id` all over a JSON document. */
module Remap {

  datatype Json =
    | Null
    | Bool(b: bool)
    | Number(n: real)
    | Text(s: string)
    | Array(items: seq<Json>)
    | Object(fields: map<string, Json>)

  function AccountId(id: int): Json {
    Number(id as real)
  }

  /** The document after the walk. An `account_id` next to a `tenant_id` is overwritten. */
  function Remapped(v: Json, id: int): Json {
    match v
    case Array(items) => Array(seq(|items|, i requires 0 <= i < |items| => Remapped(items[i], id)))
    case Object(fields) =>
      var kept := map k | k in fields && k != "tenant_id" :: Remapped(fields[k], id);
      Object(if "tenant_id" in fields then kept["account_id" := AccountId(id)] else kept)
    case _ => v
  }

  /** No object anywhere in the document has the key. */
  predicate Lacks(v: Json, key: string) {
    match v
    case Array(items) => forall i :: 0 <= i < |items| ==> Lacks(items[i], key)
    case Object(fields) => key !in fields && forall k :: k in fields ==> Lacks(fields[k], key)
    case _ => true
  }

  lemma {:induction false} RemappedLacksTenant(v: Json, id: int)
    ensures Lacks(Remapped(v, id), "tenant_id")
  {
    match v
    case Array(items) =>
      forall i | 0 <= i < |items|
        ensures Lacks(Remapped(items[i], id), "tenant_id")
      {
        RemappedLacksTenant(items[i], id);
      }
    case Object(fields) =>
      forall k | k in fields ensures Lacks(Remapped(fields[k], id), "tenant_id") { RemappedLacksTenant(fields[k], id); }
    case _ =>
  }

  /** A document changes exactly when it has a `tenant_id` somewhere. */
  lemma {:induction false} UnchangedExactly(v: Json, id: int)
    ensures Remapped(v, id) == v <==> Lacks(v, "tenant_id")
  {
    match v
    case Array(items) =>
      forall i | 0 <= i < |items| ensures Remapped(items[i], id) == items[i] <==> Lacks(items[i], "tenant_id") {
        UnchangedExactly(items[i], id);
      }
      if Remapped(v, id) == v {
        forall i | 0 <= i < |items|
          ensures Lacks(items[i], "tenant_id")
        {
          assert Remapped(v, id).items[i] == Remapped(items[i], id);
        }
      }
    case Object(fields) =>
      forall k | k in fields ensures Remapped(fields[k], id) == fields[k] <==> Lacks(fields[k], "tenant_id") {
        UnchangedExactly(fields[k], id);
      }
      if Remapped(v, id) == v {
        assert Remapped(v, id).fields == fields;
        assert "tenant_id" !in Remapped(v, id).fields;
        forall k | k in fields
          ensures Lacks(fields[k], "tenant_id")
        {
          assert Remapped(v, id).fields[k] == Remapped(fields[k], id);
        }
      }
    case _ =>
  }

  /** Walking again, even for another account, changes nothing. */
  lemma {:induction false} Idempotent(v: Json, id: int, other: int)
    ensures Remapped(Remapped(v, id), other) == Remapped(v, id)
  {
    RemappedLacksTenant(v, id);
    UnchangedExactly(Remapped(v, id), other);
  }

  /** A place in a document: object keys and array positions from the root. */
  datatype Hop = Key(k: string) | Index(i: nat)

  predicate Reaches(v: Json, path: seq<Hop>) {
    if path == [] then true
    else match v
      case Array(items) => path[0].Index? && path[0].i < |items| && Reaches(items[path[0].i], path[1..])
      case Object(fields) => path[0].Key? && path[0].k in fields && Reaches(fields[path[0].k], path[1..])
      case _ => false
  }

  function At(v: Json, path: seq<Hop>): Json
    requires Reaches(v, path)
  {
    if path == [] then v
    else if v.Array? then At(v.items[path[0].i], path[1..])
    else At(v.fields[path[0].k], path[1..])
  }

  /** Inside an object that had a `tenant_id`, neither that member nor the old `account_id` survives. */
  predicate Survives(v: Json, path: seq<Hop>)
    requires Reaches(v, path)
  {
    if path == [] then true
    else if v.Array? then Survives(v.items[path[0].i], path[1..])
    else
      && (path[0].k == "account_id" ==> "tenant_id" !in v.fields)
      && path[0].k != "tenant_id"
      && Survives(v.fields[path[0].k], path[1..])
  }

  function KeysAfter(keys: set<string>): set<string> {
    if "tenant_id" in keys then keys - {"tenant_id"} + {"account_id"} else keys
  }

  /** Every other place stays where it was and holds the remapped value: objects that had a `tenant_id`
      carry the account id, all other keys are kept, arrays keep their length and order. */
  lemma {:induction false} PlacesKept(v: Json, id: int, path: seq<Hop>)
    requires Reaches(v, path) && Survives(v, path)
    ensures Reaches(Remapped(v, id), path)
    ensures var (before, after) := (At(v, path), At(Remapped(v, id), path));
            && after == Remapped(before, id)
            && (before.Object? && "tenant_id" in before.fields
                ==> "account_id" in after.fields && after.fields["account_id"] == Number(id as real))
            && (before.Object? ==> after.fields.Keys == KeysAfter(before.fields.Keys))
            && (before.Array? ==> |after.items| == |before.items|)
    decreases |path|
  {
    if path != [] {
      if v.Array? {
        PlacesKept(v.items[path[0].i], id, path[1..]);
      } else {
        PlacesKept(v.fields[path[0].k], id, path[1..]);
      }
    }
  }

  /** A member `account_id` of an object that had a `tenant_id`. */
  predicate IsNewMember(v: Json, path: seq<Hop>) {
    if path == [] then false
    else match v
      case Array(items) => path[0].Index? && path[0].i < |items| && IsNewMember(items[path[0].i], path[1..])
      case Object(fields) =>
        && path[0].Key? && path[0].k != "tenant_id"
        && if path[0].k == "account_id" && "tenant_id" in fields then |path| == 1
           else path[0].k in fields && IsNewMember(fields[path[0].k], path[1..])
      case _ => false
  }

  /** The places of the remapped document are the surviving ones and the new `account_id` members, which hold the id. */
  lemma {:induction false} PlacesComeFrom(v: Json, id: int, path: seq<Hop>)
    ensures Reaches(Remapped(v, id), path) <==> (Reaches(v, path) && Survives(v, path)) || IsNewMember(v, path)
    ensures IsNewMember(v, path) ==> At(Remapped(v, id), path) == Number(id as real)
    decreases |path|
  {
    if path != [] {
      match v
      case Array(items) =>
        if path[0].Index? && path[0].i < |items| { PlacesComeFrom(items[path[0].i], id, path[1..]); }
      case Object(fields) =>
        if path[0].Key? && path[0].k in fields { PlacesComeFrom(fields[path[0].k], id, path[1..]); }
      case _ =>
    }
  }
}
