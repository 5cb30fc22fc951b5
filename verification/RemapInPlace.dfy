/** The walk as the program does it: keys deleted and set in the nodes of the document. */
module RemapInPlace {
  import opened Remap

  /** What a node of the decoded document holds. */
  datatype Content = Scalar(v: Json) | Items(nodes: seq<Node>) | Fields(members: map<string, Node>)

  class Node {
    var content: Content
    ghost var Repr: set<Node>

    constructor (v: Json)
      requires !v.Array? && !v.Object?
      ensures Holds(v) && fresh(Repr)
    {
      content := Scalar(v);
      Repr := {this};
    }

    /** The nodes below this one form a tree that spells the document `v`. */
    ghost predicate Holds(v: Json)
      reads this, Repr
      ensures Holds(v) ==> this in Repr
      decreases v
    {
      this in Repr &&
      match content
      case Scalar(x) => v == x && !x.Array? && !x.Object?
      case Items(nodes) =>
        && v.Array? && |nodes| == |v.items|
        && (forall i :: 0 <= i < |nodes| ==>
              nodes[i] in Repr && nodes[i].Repr <= Repr && this !in nodes[i].Repr && nodes[i].Holds(v.items[i]))
        && (forall i, j :: 0 <= i < j < |nodes| ==> nodes[i].Repr !! nodes[j].Repr)
      case Fields(members) =>
        && v.Object? && members.Keys == v.fields.Keys
        && (forall k :: k in members ==>
              members[k] in Repr && members[k].Repr <= Repr && this !in members[k].Repr
              && members[k].Holds(v.fields[k]))
        && (forall k, l :: k in members && l in members && k != l ==> members[k].Repr !! members[l].Repr)
    }
  }

  /** Separate trees under the places of one container, inside `region`, spelling `docs`. */
  ghost predicate Family<I(!new)>(members: map<I, Node>, docs: map<I, Json>, region: set<Node>)
    reads region
  {
    && members.Keys == docs.Keys
    && (forall k :: k in members ==> members[k] in region && members[k].Repr <= region && members[k].Holds(docs[k]))
    && (forall k, l :: k in members && l in members && k != l ==> members[k].Repr !! members[l].Repr)
  }

  method WalkRemap(n: Node, id: int, ghost v: Json)
    requires n.Holds(v)
    modifies n.Repr
    ensures n.Holds(Remapped(v, id)) && fresh(n.Repr - old(n.Repr))
    decreases v, 1
  {
    match n.content
    case Scalar(_) =>
    case Items(nodes) => WalkItems(n, nodes, id, v);
    case Fields(members) => WalkFields(n, id, v);
  }

  /** Walks one child. Its siblings live in other nodes and are not disturbed. */
  method WalkChild<I(!new)>(ghost members: map<I, Node>, ghost k: I, c: Node, id: int, ghost docs: map<I, Json>,
                            ghost region: set<Node>)
    returns (ghost wider: set<Node>)
    requires k in members && members[k] == c && Family(members, docs, region)
    modifies c.Repr
    ensures Family(members, docs[k := Remapped(docs[k], id)], wider) && region <= wider && fresh(wider - region)
    decreases docs[k], 3
  {
    hide Node.Holds, Remapped, Family, Without;
    Apart(members, docs, region, k);
    ghost var rest := region - c.Repr;
    WalkBeside(Without(members, k), Without(docs, k), rest, c, id, docs[k]);
    wider := region + c.Repr;
    Rejoin(members, docs, rest, k, c, Remapped(docs[k], id), wider);
  }

  ghost function Without<I(!new), T>(m: map<I, T>, k: I): map<I, T> {
    map l | l in m && l != k :: m[l]
  }

  lemma Apart<I(!new)>(members: map<I, Node>, docs: map<I, Json>, region: set<Node>, k: I)
    requires k in members && Family(members, docs, region)
    ensures Family(Without(members, k), Without(docs, k), region - members[k].Repr)
    ensures k in docs && members[k].Holds(docs[k]) && members[k].Repr <= region
  {
    forall l | l in members && l != k ensures members[l] in members[l].Repr { assert members[l].Holds(docs[l]); }
  }

  lemma Rejoin<I(!new)>(members: map<I, Node>, docs: map<I, Json>, rest: set<Node>, k: I, c: Node, v: Json,
                        wider: set<Node>)
    requires Family(Without(members, k), Without(docs, k), rest) && c.Holds(v) && c.Repr !! rest
    requires rest + c.Repr <= wider
    ensures Family(members[k := c], docs[k := v], wider)
    ensures k in members && members[k] == c ==> members[k := c] == members
  {
    hide Node.Holds;
    var (ms, ds) := (Without(members, k), Without(docs, k));
    assert members[k := c] == ms[k := c] && docs[k := v] == ds[k := v];
    forall l | l in ms ensures ms[l] in rest && ms[l].Repr <= rest && ms[l].Holds(ds[l]) { }
  }

  /** The same with the child apart from its siblings. */
  method WalkBeside<I(!new)>(ghost others: map<I, Node>, ghost docs: map<I, Json>, ghost region: set<Node>, c: Node,
                             id: int, ghost v: Json)
    requires Family(others, docs, region) && c.Holds(v) && c.Repr !! region
    modifies c.Repr
    ensures c.Holds(Remapped(v, id)) && fresh(c.Repr - old(c.Repr))
    ensures Family(others, docs, region) && c.Repr !! region
    decreases v, 2
  {
    hide Node.Holds, Remapped, Family;
    WalkRemap(c, id, v);
  }

  /** A container over a separate family, with its own footprint, spells the container document. */
  lemma FieldsHold(n: Node, members: map<string, Node>, docs: map<string, Json>, region: set<Node>)
    requires n.content == Fields(members) && Family(members, docs, region) && n !in region && region + {n} <= n.Repr
    ensures n.Holds(Object(docs))
  {
  }

  lemma ItemsHold(n: Node, nodes: seq<Node>, items: seq<Json>, region: set<Node>)
    requires n.content == Items(nodes) && |nodes| == |items| && Family(Places(nodes), Places(items), region)
    requires n !in region && region + {n} <= n.Repr
    ensures n.Holds(Array(items))
  {
    var (p, q) := (Places(nodes), Places(items));
    forall i | 0 <= i < |nodes| ensures nodes[i] in region && nodes[i].Repr <= region && nodes[i].Holds(items[i]) {
      assert i in p && p[i].Holds(q[i]);
    }
    forall i, j | 0 <= i < j < |nodes| ensures nodes[i].Repr !! nodes[j].Repr {
      assert i in p && j in p;
    }
  }

  ghost function Places<T>(s: seq<T>): map<nat, T> {
    map i: nat | 0 <= i < |s| :: s[i]
  }

  /** The documents below an array when the first `i` children are walked. */
  ghost function ItemsDone(items: seq<Json>, id: int, i: nat): seq<Json> {
    seq(|items|, j requires 0 <= j < |items| => if j < i then Remapped(items[j], id) else items[j])
  }

  lemma ItemsStart(n: Node, nodes: seq<Node>, v: Json)
    requires n.Holds(v) && n.content == Items(nodes)
    ensures v.Array? && |v.items| == |nodes| && Family(Places(nodes), Places(v.items), n.Repr - {n})
  {
    assert forall i :: 0 <= i < |nodes| ==> nodes[i].Holds(v.items[i]);
  }

  lemma ItemsDoneEnds(items: seq<Json>, id: int)
    ensures ItemsDone(items, id, 0) == items
    ensures Array(ItemsDone(items, id, |items|)) == Remapped(Array(items), id)
  {
    assert ItemsDone(items, id, |items|) == Remapped(Array(items), id).items;
  }

  lemma ItemsDoneNext(items: seq<Json>, id: int, i: nat)
    requires i < |items|
    ensures i in Places(ItemsDone(items, id, i)) && Places(ItemsDone(items, id, i))[i] == items[i]
    ensures Places(ItemsDone(items, id, i))[i := Remapped(items[i], id)] == Places(ItemsDone(items, id, i + 1))
  {
  }

  method WalkItems(n: Node, nodes: seq<Node>, id: int, ghost v: Json)
    requires n.Holds(v) && n.content == Items(nodes)
    modifies n.Repr
    ensures n.Holds(Remapped(v, id)) && fresh(n.Repr - old(n.Repr))
    decreases v, 0
  {
    ItemsStart(n, nodes, v);
    ItemsDoneEnds(v.items, id);
    ghost var items := v.items;
    ghost var region := n.Repr - {n};
    hide Node.Holds, Remapped, Family, ItemsDone, Places;
    var i := 0;
    while i < |nodes|
      invariant 0 <= i <= |nodes|
      invariant Family(Places(nodes), Places(ItemsDone(items, id, i)), region)
      invariant n.content == Items(nodes) && n.Repr == old(n.Repr)
      invariant n !in region && fresh(region - n.Repr)
    {
      region := WalkPlace(nodes, i, id, items, region);
      i := i + 1;
    }
    AbsorbItems(n, nodes, ItemsDone(items, id, i), region);
  }

  /** One round of the loop over the items. */
  method WalkPlace(nodes: seq<Node>, i: nat, id: int, ghost items: seq<Json>, ghost region: set<Node>)
    returns (ghost wider: set<Node>)
    requires i < |nodes| == |items| && Family(Places(nodes), Places(ItemsDone(items, id, i)), region)
    modifies region
    ensures Family(Places(nodes), Places(ItemsDone(items, id, i + 1)), wider) && region <= wider
    ensures fresh(wider - region)
    decreases items, 0, 0
  {
    ItemsDoneNext(items, id, i);
    FamilyAt(Places(nodes), Places(ItemsDone(items, id, i)), region, i);
    hide Node.Holds, Remapped, Family, ItemsDone;
    wider := WalkChild(Places(nodes), i, nodes[i], id, Places(ItemsDone(items, id, i)), region);
  }

  /** Takes the nodes created below `n` into its footprint. */
  ghost method AbsorbItems(n: Node, nodes: seq<Node>, items: seq<Json>, region: set<Node>)
    requires n.content == Items(nodes) && |nodes| == |items| && Family(Places(nodes), Places(items), region)
    requires n !in region && n in n.Repr
    modifies n`Repr
    ensures n.Holds(Array(items)) && n.Repr == old(n.Repr) + region
  {
    hide Node.Holds, Family;
    n.Repr := n.Repr + region;
    ItemsHold(n, nodes, items, region);
  }

  ghost method AbsorbFields(n: Node, members: map<string, Node>, docs: map<string, Json>, region: set<Node>)
    requires n.content == Fields(members) && Family(members, docs, region) && n !in region && n in n.Repr
    modifies n`Repr
    ensures n.Holds(Object(docs)) && n.Repr == old(n.Repr) + region
  {
    hide Node.Holds, Family;
    n.Repr := n.Repr + region;
    FieldsHold(n, members, docs, region);
  }

  lemma FamilyAt<I(!new)>(members: map<I, Node>, docs: map<I, Json>, region: set<Node>, k: I)
    requires Family(members, docs, region) && k in members
    ensures k in docs && members[k].Repr <= region && members[k].Holds(docs[k])
  {
  }

  /** The members after the renaming, before the children are walked. */
  ghost function Renamed(fields: map<string, Json>, id: int): map<string, Json> {
    if "tenant_id" in fields then (fields - {"tenant_id"})["account_id" := AccountId(id)] else fields
  }

  method RenameKey(n: Node, id: int, ghost v: Json) returns (x: map<string, Node>, ghost region: set<Node>)
    requires n.Holds(v) && n.content.Fields?
    modifies n`content
    ensures v.Object? && n.content == Fields(x) && n !in region && fresh(region - n.Repr)
    ensures Family(x, Renamed(v.fields, id), region) && x.Keys == Renamed(v.fields, id).Keys
  {
    x := n.content.members;
    region := n.Repr - {n};
    FieldsStart(n, x, v);
    if "tenant_id" !in x { return; }
    hide Node.Holds, Family, Renamed;
    var account := new Node(AccountId(id));
    RenamedFamily(x, v.fields, region, account, id);
    x := WithAccount(x, account);
    n.content := Fields(x);
    region := region + account.Repr;
  }

  function WithAccount<T>(m: map<string, T>, account: T): map<string, T> {
    (map k | k in m && k != "tenant_id" :: m[k])["account_id" := account]
  }

  lemma RenamedFamily(members: map<string, Node>, docs: map<string, Json>, region: set<Node>, account: Node, id: int)
    requires Family(members, docs, region) && account.Holds(AccountId(id)) && account.Repr !! region
    requires "tenant_id" in members
    ensures Family(WithAccount(members, account), Renamed(docs, id), region + account.Repr)
    ensures WithAccount(members, account).Keys == Renamed(docs, id).Keys
  {
    hide Node.Holds;
    assert Renamed(docs, id) == WithAccount(docs, AccountId(id));
  }

  lemma FieldsStart(n: Node, members: map<string, Node>, v: Json)
    requires n.Holds(v) && n.content == Fields(members)
    ensures v.Object? && Family(members, v.fields, n.Repr - {n})
  {
    assert forall k :: k in members ==> members[k].Holds(v.fields[k]);
  }

  /** The documents below an object when the members in `todo` are still to be walked. */
  ghost function FieldsDone(fields: map<string, Json>, id: int, todo: set<string>): map<string, Json> {
    map k | k in fields :: if k in todo then fields[k] else Remapped(fields[k], id)
  }

  lemma FieldsDoneEnds(fields: map<string, Json>, id: int)
    ensures FieldsDone(fields, id, fields.Keys) == fields
    ensures Object(FieldsDone(Renamed(fields, id), id, {})) == Remapped(Object(fields), id)
  {
    assert FieldsDone(Renamed(fields, id), id, {}) == Remapped(Object(fields), id).fields;
  }

  lemma FieldsDoneNext(fields: map<string, Json>, id: int, todo: set<string>, k: string)
    requires k in todo && k in fields
    ensures k in FieldsDone(fields, id, todo) && FieldsDone(fields, id, todo)[k] == fields[k]
    ensures FieldsDone(fields, id, todo)[k := Remapped(fields[k], id)] == FieldsDone(fields, id, todo - {k})
    ensures !fields[k].Array? && !fields[k].Object?
            ==> FieldsDone(fields, id, todo) == FieldsDone(fields, id, todo - {k})
  {
  }

  method WalkFields(n: Node, id: int, ghost v: Json)
    requires n.Holds(v) && n.content.Fields?
    modifies n.Repr
    ensures n.Holds(Remapped(v, id)) && fresh(n.Repr - old(n.Repr))
    decreases v, 0
  {
    hide Node.Holds, Remapped, Family, FieldsDone, Renamed;
    var x: map<string, Node>;
    ghost var region;
    assert n in n.Repr;
    x, region := RenameKey(n, id, v);
    ghost var before := Renamed(v.fields, id);
    FieldsDoneEnds(v.fields, id);
    FieldsDoneEnds(before, id);
    var todo := x.Keys;
    while todo != {}
      invariant todo <= x.Keys == before.Keys
      invariant Family(x, FieldsDone(before, id, todo), region)
      invariant n.content == Fields(x) && n.Repr == old(n.Repr)
      invariant n !in region && fresh(region - n.Repr)
      decreases todo
    {
      var k :| k in todo;
      region := WalkMember(x, k, id, v, todo, region);
      todo := todo - {k};
    }
    AbsorbFields(n, x, FieldsDone(before, id, todo), region);
  }

  /** One round of the loop over the members. */
  method WalkMember(x: map<string, Node>, k: string, id: int, ghost v: Json, ghost todo: set<string>,
                    ghost region: set<Node>)
    returns (ghost wider: set<Node>)
    requires v.Object? && k in todo && k in x && x.Keys == Renamed(v.fields, id).Keys
    requires Family(x, FieldsDone(Renamed(v.fields, id), id, todo), region)
    modifies region
    ensures Family(x, FieldsDone(Renamed(v.fields, id), id, todo - {k}), wider) && region <= wider
    ensures fresh(wider - region)
    decreases v, 0, 0
  {
    ghost var before := Renamed(v.fields, id);
    FieldsDoneNext(before, id, todo, k);
    FamilyAt(x, FieldsDone(before, id, todo), region, k);
    // a scalar, such as the new account id, has nothing below it
    if x[k].content.Scalar? { return region; }
    wider := WalkChild(x, k, x[k], id, FieldsDone(before, id, todo), region);
  }
}
