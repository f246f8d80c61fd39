/**
 Saving and loading inventories over a shared key-value store
 (crates/rpytest-core/src/inventory/store.rs).

 The store is a map; a value is what its bytes decode to.
 */
module InventoryStore {
  import opened Models

  const SCHEMA_VERSION: nat := 1
  const SCHEMA_KEY := "_schema_version"

  datatype StoredNode = StoredNode(nodeId: string, details: string)

  datatype Meta = Meta(hash: string, collectedAt: nat, nodeCount: nat, schemaVersion: nat)

  datatype Value = NodeValue(node: StoredNode) | MetaValue(meta: Meta) | VersionValue(version: nat) | Undecodable

  datatype Error = Corrupted | Serialization

  datatype Inventory = Inventory(nodes: map<string, StoredNode>, meta: Meta)

  datatype LoadResult = Loaded(inventory: Inventory) | LoadFailed(error: Error)

  type Data = map<string, Value>

  const EMPTY_STORE: Data := map[]
  const DEFAULT_META := Meta("", 0, 0, SCHEMA_VERSION)

  function InvPrefix(context: string): string {
    "inv:" + context + ":"
  }

  function InvKey(context: string, nodeId: string): string {
    InvPrefix(context) + nodeId
  }

  function MetaKey(context: string): string {
    "ctx:" + context + ":_meta"
  }

  // ----- Keys

  predicate NoColon(s: string) {
    forall i :: 0 <= i < |s| ==> s[i] != ':'
  }

  lemma KeysApart(a: string, id: string, b: string)
    ensures InvKey(a, id) != MetaKey(b) && InvKey(a, id) != SCHEMA_KEY && MetaKey(b) != SCHEMA_KEY
    ensures !(InvPrefix(a) <= MetaKey(b)) && !(InvPrefix(a) <= SCHEMA_KEY)
    ensures InvPrefix(a) <= InvKey(a, id)
  {
    assert InvKey(a, id)[0] == 'i' && InvPrefix(a)[0] == 'i' && MetaKey(b)[0] == 'c' && SCHEMA_KEY[0] == '_';
  }

  lemma MetaKeyInjective(a: string, b: string)
    requires MetaKey(a) == MetaKey(b)
    ensures a == b
  {
    assert |MetaKey(a)| == |a| + 10 && |MetaKey(b)| == |b| + 10;
    assert MetaKey(a)[4..4 + |a|] == a && MetaKey(b)[4..4 + |b|] == b;
  }

  lemma InvKeyInjective(context: string, a: string, b: string)
    requires InvKey(context, a) == InvKey(context, b)
    ensures a == b
  {
    var n := |InvPrefix(context)|;
    assert InvKey(context, a)[n..] == a && InvKey(context, b)[n..] == b;
  }

  /** Neither context id, closed by a colon, begins the other. */
  predicate Apart(a: string, b: string) {
    !(a + ":" <= b + ":") && !(b + ":" <= a + ":")
  }

  /** A scan for `a` can pick up an entry of `b` exactly when the two are not apart. */
  lemma PrefixConfusion(a: string, b: string)
    ensures (exists id :: InvPrefix(a) <= InvKey(b, id)) <==> !Apart(a, b)
  {
    forall id
      ensures InvPrefix(a) <= InvKey(b, id) <==> a + ":" <= b + ":" + id
    {
      ScanMeets(a, b, id);
    }
    PrefixOfSome(a + ":", b + ":");
  }

  lemma ScanMeets(a: string, b: string, id: string)
    ensures InvPrefix(a) <= InvKey(b, id) <==> a + ":" <= b + ":" + id
  {
    var x, s := a + ":", b + ":" + id;
    assert InvPrefix(a) == "inv:" + x && InvKey(b, id) == "inv:" + s;
    PrefixAfter("inv:", x, s);
  }

  lemma PrefixAfter(p: string, x: string, s: string)
    ensures p + x <= p + s <==> x <= s
  {
    assert (p + x)[|p|..] == x && (p + s)[|p|..] == s;
    if p + x <= p + s {
      assert (p + s)[..|p + x|] == p + x;
      assert s[..|x|] == (p + s)[..|p + x|][|p|..];
    }
  }

  lemma PrefixOfSome(x: string, y: string)
    ensures (exists id: string :: x <= y + id) <==> x <= y || y <= x
  {
    if x <= y {
      assert x <= y + "";
    }
    if y <= x {
      assert y + x[|y|..] == x;
    }
    if id: string :| x <= y + id {
      if |x| <= |y| {
        assert x == (y + id)[..|x|] == y[..|x|];
      } else {
        assert y == (y + id)[..|y|] == x[..|y|];
      }
    }
  }

  /** Different ids without colons are apart. */
  lemma ColonFreeApart(a: string, b: string)
    requires NoColon(a) && NoColon(b) && a != b
    ensures Apart(a, b)
  {
    if a + ":" <= b + ":" {
      ColonEnds(a, b);
    }
    if b + ":" <= a + ":" {
      ColonEnds(b, a);
    }
  }

  lemma ColonEnds(a: string, b: string)
    requires NoColon(a) && NoColon(b) && a + ":" <= b + ":"
    ensures a == b
  {
    var x, y := a + ":", b + ":";
    assert x[|a|] == ':' && y[|a|] == ':';
    assert forall i :: 0 <= i < |b| ==> y[i] == b[i] != ':';
    assert y[..|a|] == x[..|a|] == a;
    assert |a| == |b| && y[..|b|] == b;
  }

  /** Keys of contexts that are apart never fall under each other's prefix. */
  lemma ForeignKey(a: string, b: string, id: string)
    requires Apart(a, b)
    ensures !(InvPrefix(a) <= InvKey(b, id))
  {
    PrefixConfusion(a, b);
  }

  lemma KeyUnderPrefix(context: string, key: string)
    requires InvPrefix(context) <= key
    ensures key == InvKey(context, key[|InvPrefix(context)|..])
  {
  }

  // ----- What a context shows

  datatype View = View(nodes: map<string, StoredNode>, meta: Option<Meta>)

  const EMPTY_VIEW := View(map[], None)

  ghost predicate SchemaOk(data: Data) {
    SCHEMA_KEY in data ==> data[SCHEMA_KEY] == VersionValue(SCHEMA_VERSION)
  }

  /** Exactly the nodes and the metadata of `v` are stored for `context`. */
  ghost predicate Shows(data: Data, context: string, v: View) {
    && SchemaOk(data)
    && (forall id :: InvKey(context, id) in data <==> id in v.nodes)
    && (forall id :: id in v.nodes ==> data[InvKey(context, id)] == NodeValue(v.nodes[id]) && v.nodes[id].nodeId == id)
    && (match v.meta
        case None => MetaKey(context) !in data
        case Some(m) => MetaKey(context) in data && data[MetaKey(context)] == MetaValue(m))
  }

  /** Every node is filed under its own id, as `add` files it. */
  ghost predicate Filed(inventory: Inventory) {
    forall id :: id in inventory.nodes ==> inventory.nodes[id].nodeId == id
  }

  function Overlay(v: View, inventory: Inventory): View {
    View(v.nodes + inventory.nodes, Some(inventory.meta))
  }

  function InventoryOf(v: View): Inventory {
    var meta := if v.meta.Some? then v.meta.value else DEFAULT_META;
    Inventory(v.nodes, meta.(nodeCount := |v.nodes|))
  }

  datatype Op = SaveOp(context: string, inventory: Inventory) | ClearOp(context: string)

  /** The inventories saved for `context` since its last clear, later ones on top. */
  function Expected(ops: seq<Op>, context: string): View {
    if ops == [] then EMPTY_VIEW
    else ExpectedNext(ops[|ops| - 1], context, Expected(ops[..|ops| - 1], context))
  }

  function ExpectedNext(op: Op, context: string, v: View): View {
    match op
    case SaveOp(c, inventory) => if c == context then Overlay(v, inventory) else v
    case ClearOp(c) => if c == context then EMPTY_VIEW else v
  }

  // ----- The operations, as relations between store contents

  ghost predicate IsSaved(data: Data, data': Data, context: string, inventory: Inventory) {
    && (forall k :: k in data' <==>
                    k in data || k == MetaKey(context) || k == SCHEMA_KEY || IsNodeKey(k, context, inventory))
    && (forall id :: id in inventory.nodes ==>
                       InvKey(context, id) in data' && data'[InvKey(context, id)] == NodeValue(inventory.nodes[id]))
    && MetaKey(context) in data' && data'[MetaKey(context)] == MetaValue(inventory.meta)
    && SCHEMA_KEY in data' && data'[SCHEMA_KEY] == VersionValue(SCHEMA_VERSION)
    && (forall k :: k in data && k != MetaKey(context) && k != SCHEMA_KEY && !IsNodeKey(k, context, inventory) ==>
                      k in data' && data'[k] == data[k])
  }

  ghost predicate IsNodeKey(key: string, context: string, inventory: Inventory) {
    exists id :: id in inventory.nodes && key == InvKey(context, id)
  }

  ghost predicate IsCleared(data: Data, data': Data, context: string) {
    && (forall k :: k in data' <==> k in data && !(InvPrefix(context) <= k) && k != MetaKey(context))
    && (forall k :: k in data' ==> data'[k] == data[k])
  }

  /** All nodes but those of `todo` have been written, and nothing else has changed. */
  ghost predicate NodesSaved(data: Data, data': Data, context: string, inventory: Inventory, todo: set<string>) {
    && (forall id :: id in inventory.nodes && id !in todo ==>
                       InvKey(context, id) in data' && data'[InvKey(context, id)] == NodeValue(inventory.nodes[id]))
    && (forall k :: k in data' ==> k in data || IsNodeKey(k, context, inventory))
    && (forall k :: k in data ==> k in data')
    && (forall k :: k in data && !IsNodeKey(k, context, inventory) ==> data'[k] == data[k])
  }

  lemma OneMoreSaved(data: Data, data': Data, context: string, inventory: Inventory, todo: set<string>, id: string)
    requires NodesSaved(data, data', context, inventory, todo) && id in inventory.nodes
    ensures NodesSaved(data, data'[InvKey(context, id) := NodeValue(inventory.nodes[id])],
                       context, inventory, todo - {id})
  {
    assert IsNodeKey(InvKey(context, id), context, inventory);
    forall other | InvKey(context, other) == InvKey(context, id)
      ensures other == id
    {
      InvKeyInjective(context, other, id);
    }
  }

  lemma MetaCompletesSave(data: Data, data': Data, context: string, inventory: Inventory)
    requires NodesSaved(data, data', context, inventory, {})
    ensures var data'' := data'[MetaKey(context) := MetaValue(inventory.meta)];
            IsSaved(data, data''[SCHEMA_KEY := VersionValue(SCHEMA_VERSION)], context, inventory)
  {
    forall id
      ensures InvKey(context, id) != MetaKey(context) && InvKey(context, id) != SCHEMA_KEY
      ensures MetaKey(context) != SCHEMA_KEY
    {
      KeysApart(context, id, context);
    }
    KeysApart(context, "", context);
  }

  lemma SaveShowsOverlay(data: Data, data': Data, context: string, inventory: Inventory, v: View)
    requires Shows(data, context, v) && IsSaved(data, data', context, inventory) && Filed(inventory)
    ensures Shows(data', context, Overlay(v, inventory))
  {
    forall id
      ensures InvKey(context, id) in data' <==> id in v.nodes || id in inventory.nodes
      ensures id in v.nodes && id !in inventory.nodes ==> data'[InvKey(context, id)] == NodeValue(v.nodes[id])
    {
      SavedEntry(data, data', context, inventory, v, id);
    }
    assert SchemaOk(data');
  }

  lemma SavedEntry(data: Data, data': Data, context: string, inventory: Inventory, v: View, id: string)
    requires Shows(data, context, v) && IsSaved(data, data', context, inventory)
    ensures InvKey(context, id) in data' <==> id in v.nodes || id in inventory.nodes
    ensures id in v.nodes && id !in inventory.nodes ==> data'[InvKey(context, id)] == NodeValue(v.nodes[id])
  {
    if id !in inventory.nodes {
      NotSaved(context, id, inventory);
      SaveKeepsKey(data, data', context, inventory, InvKey(context, id));
    }
  }

  lemma NotSaved(context: string, id: string, inventory: Inventory)
    requires id !in inventory.nodes
    ensures !IsNodeKey(InvKey(context, id), context, inventory)
    ensures InvKey(context, id) != MetaKey(context) && InvKey(context, id) != SCHEMA_KEY
  {
    KeysApart(context, id, context);
    if IsNodeKey(InvKey(context, id), context, inventory) {
      var id' :| id' in inventory.nodes && InvKey(context, id) == InvKey(context, id');
      InvKeyInjective(context, id, id');
    }
  }

  /** `key` holds the same in both stores. */
  ghost predicate SameAt(data: Data, data': Data, key: string) {
    (key in data' <==> key in data) && (key in data ==> data'[key] == data[key])
  }

  lemma SaveKeepsKey(data: Data, data': Data, c: string, inventory: Inventory, key: string)
    requires IsSaved(data, data', c, inventory)
    requires key != MetaKey(c) && key != SCHEMA_KEY && !IsNodeKey(key, c, inventory)
    ensures SameAt(data, data', key)
  {
  }

  lemma ClearKeepsKey(data: Data, data': Data, c: string, key: string)
    requires IsCleared(data, data', c) && key != MetaKey(c) && !(InvPrefix(c) <= key)
    ensures SameAt(data, data', key)
  {
  }

  /** What a context shows depends on its own keys only. */
  lemma SameKeysShowTheSame(data: Data, data': Data, context: string, v: View)
    requires Shows(data, context, v) && SchemaOk(data')
    requires forall id :: SameAt(data, data', InvKey(context, id))
    requires SameAt(data, data', MetaKey(context))
    ensures Shows(data', context, v)
  {
  }

  /** The keys of one context lie outside the reach of operations on another. */
  lemma OutOfReach(c: string, context: string, id: string)
    requires Apart(c, context)
    ensures !(InvPrefix(c) <= InvKey(context, id)) && !(InvPrefix(c) <= MetaKey(context))
    ensures InvKey(context, id) != MetaKey(c) && MetaKey(context) != MetaKey(c)
    ensures InvKey(context, id) != SCHEMA_KEY && MetaKey(context) != SCHEMA_KEY
  {
    ForeignKey(c, context, id);
    KeysApart(c, id, context);
    KeysApart(context, id, c);
    if MetaKey(context) == MetaKey(c) {
      MetaKeyInjective(context, c);
    }
  }

  lemma NodeKeysUnderPrefix(key: string, c: string, inventory: Inventory)
    requires IsNodeKey(key, c, inventory)
    ensures InvPrefix(c) <= key
  {
  }

  lemma SaveElsewhere(data: Data, data': Data, c: string, inventory: Inventory, context: string, v: View)
    requires Apart(c, context)
    requires Shows(data, context, v) && IsSaved(data, data', c, inventory)
    ensures Shows(data', context, v)
  {
    forall id
      ensures SameAt(data, data', InvKey(context, id))
    {
      SaveKeepsForeign(data, data', c, inventory, context, id);
    }
    SaveKeepsForeign(data, data', c, inventory, context, "");
    SameKeysShowTheSame(data, data', context, v);
  }

  lemma SaveKeepsForeign(data: Data, data': Data, c: string, inventory: Inventory, context: string, id: string)
    requires Apart(c, context) && IsSaved(data, data', c, inventory)
    ensures SameAt(data, data', InvKey(context, id)) && SameAt(data, data', MetaKey(context))
  {
    OutOfReach(c, context, id);
    if IsNodeKey(InvKey(context, id), c, inventory) {
      NodeKeysUnderPrefix(InvKey(context, id), c, inventory);
    }
    if IsNodeKey(MetaKey(context), c, inventory) {
      NodeKeysUnderPrefix(MetaKey(context), c, inventory);
    }
    SaveKeepsKey(data, data', c, inventory, InvKey(context, id));
    SaveKeepsKey(data, data', c, inventory, MetaKey(context));
  }

  lemma ClearShowsEmpty(data: Data, data': Data, context: string)
    requires SchemaOk(data) && IsCleared(data, data', context)
    ensures Shows(data', context, EMPTY_VIEW)
  {
    ClearKeepsSchema(data, data', context);
    forall id
      ensures InvKey(context, id) !in data'
    {
      KeysApart(context, id, context);
      ClearDropsKey(data, data', context, InvKey(context, id));
    }
    ClearDropsKey(data, data', context, MetaKey(context));
    NothingShows(data', context);
  }

  lemma ClearKeepsSchema(data: Data, data': Data, context: string)
    requires SchemaOk(data) && IsCleared(data, data', context)
    ensures SchemaOk(data')
  {
  }

  lemma ClearDropsKey(data: Data, data': Data, context: string, key: string)
    requires IsCleared(data, data', context) && (key == MetaKey(context) || InvPrefix(context) <= key)
    ensures key !in data'
  {
  }

  lemma NothingShows(data: Data, context: string)
    requires SchemaOk(data) && MetaKey(context) !in data && forall id :: InvKey(context, id) !in data
    ensures Shows(data, context, EMPTY_VIEW)
  {
  }

  lemma ClearElsewhere(data: Data, data': Data, c: string, context: string, v: View)
    requires Apart(c, context)
    requires Shows(data, context, v) && IsCleared(data, data', c)
    ensures Shows(data', context, v)
  {
    forall id
      ensures SameAt(data, data', InvKey(context, id))
    {
      ClearKeepsForeign(data, data', c, context, id);
    }
    ClearKeepsForeign(data, data', c, context, "");
    ClearKeepsSchema(data, data', c);
    SameKeysShowTheSame(data, data', context, v);
  }

  lemma ClearKeepsForeign(data: Data, data': Data, c: string, context: string, id: string)
    requires Apart(c, context) && IsCleared(data, data', c)
    ensures SameAt(data, data', InvKey(context, id)) && SameAt(data, data', MetaKey(context))
  {
    OutOfReach(c, context, id);
    ClearKeepsKey(data, data', c, InvKey(context, id));
    ClearKeepsKey(data, data', c, MetaKey(context));
  }

  // ----- Sequences of operations

  ghost predicate IsHistory(ops: seq<Op>, stores: seq<Data>) {
    && |stores| == |ops| + 1
    && forall k :: 0 <= k < |ops| ==> Applies(ops[k], stores[k], stores[k + 1])
  }

  ghost predicate Applies(op: Op, data: Data, data': Data) {
    match op
    case SaveOp(c, inventory) => Filed(inventory) && IsSaved(data, data', c, inventory)
    case ClearOp(c) => IsCleared(data, data', c)
  }

  lemma OpShowsExpected(op: Op, data: Data, data': Data, context: string, v: View)
    requires op.context == context || Apart(op.context, context)
    requires Shows(data, context, v) && Applies(op, data, data')
    ensures Shows(data', context, ExpectedNext(op, context, v))
  {
    match op
    case SaveOp(c, inventory) =>
      if c == context {
        SaveShowsOverlay(data, data', context, inventory, v);
      } else {
        SaveElsewhere(data, data', c, inventory, context, v);
      }
    case ClearOp(c) =>
      if c == context {
        ClearShowsEmpty(data, data', context);
      } else {
        ClearElsewhere(data, data', c, context, v);
      }
  }

  /** Operations by the context itself and by contexts apart from it. */
  ghost predicate ApartFrom(ops: seq<Op>, context: string) {
    forall k :: 0 <= k < |ops| ==> ops[k].context == context || Apart(ops[k].context, context)
  }

  /**
   Isolation: after any number of saves and clears, by the context itself and by any contexts apart
   from it, a context shows exactly what was saved for it since its own last clear.
   */
  lemma {:induction false} EachContextShowsItsOwn(ops: seq<Op>, stores: seq<Data>, context: string, k: nat)
    requires IsHistory(ops, stores) && ApartFrom(ops, context) && Shows(stores[0], context, EMPTY_VIEW)
    requires k <= |ops|
    ensures Shows(stores[k], context, Expected(ops[..k], context))
  {
    if k > 0 {
      EachContextShowsItsOwn(ops, stores, context, k - 1);
      assert ops[..k][..k - 1] == ops[..k - 1];
      assert Applies(ops[k - 1], stores[k - 1], stores[k - 1 + 1]);
      OpShowsExpected(ops[k - 1], stores[k - 1], stores[k], context, Expected(ops[..k - 1], context));
    }
  }

  /** No save for `c` changes what `context` shows. */
  ghost predicate NeverDisturbs(c: string, context: string) {
    forall data, data', v, inventory ::
      Shows(data, context, v) && Filed(inventory) && IsSaved(data, data', c, inventory) ==> Shows(data', context, v)
  }

  /** Isolation needs that much: a context not apart from another can change what it shows. */
  lemma IsolationExactly(c: string, context: string)
    requires c != context
    ensures NeverDisturbs(c, context) <==> Apart(c, context)
  {
    if Apart(c, context) {
      forall data, data', v, inventory
        | Shows(data, context, v) && Filed(inventory) && IsSaved(data, data', c, inventory)
        ensures Shows(data', context, v)
      {
        SaveElsewhere(data, data', c, inventory, context, v);
      }
    } else {
      PrefixConfusion(context, c);
      var id :| InvPrefix(context) <= InvKey(c, id);
      var data' := SaveSingle(EMPTY_STORE, c, id);
      NothingShows(EMPTY_STORE, context);
      KeyUnderPrefix(context, InvKey(c, id));
      NotEmptyWith(data', context, InvKey(c, id)[|InvPrefix(context)|..]);
    }
  }

  lemma NotEmptyWith(data: Data, context: string, id: string)
    requires InvKey(context, id) in data
    ensures !Shows(data, context, EMPTY_VIEW)
  {
  }

  /** No clear for `c` changes what `context` shows. */
  ghost predicate NeverCleared(c: string, context: string) {
    forall data, data', v ::
      Shows(data, context, v) && IsCleared(data, data', c) ==> Shows(data', context, v)
  }

  /** The same holds for clearing. */
  lemma ClearIsolationExactly(c: string, context: string)
    requires c != context
    ensures NeverCleared(c, context) <==> Apart(c, context)
  {
    if Apart(c, context) {
      forall data, data', v | Shows(data, context, v) && IsCleared(data, data', c)
        ensures Shows(data', context, v)
      {
        ClearElsewhere(data, data', c, context, v);
      }
    } else {
      ClearDisturbs(c, context);
    }
  }

  function Cleared(data: Data, c: string): Data {
    map k | k in data && !(InvPrefix(c) <= k) && k != MetaKey(c) :: data[k]
  }

  lemma ClearedIsCleared(data: Data, c: string)
    ensures IsCleared(data, Cleared(data, c), c)
  {
  }

  lemma ClearDisturbs(c: string, context: string)
    requires !Apart(c, context)
    ensures !NeverCleared(c, context)
  {
    PrefixConfusion(c, context);
    var id :| InvPrefix(c) <= InvKey(context, id);
    var data := ShowSingle(context, id);
    ClearedIsCleared(data, c);
    ClearDropsKey(data, Cleared(data, c), c, InvKey(context, id));
    NotShownWithout(Cleared(data, c), context, Overlay(EMPTY_VIEW, Single(id)), id);
  }

  lemma ShowSingle(context: string, id: string) returns (data: Data)
    ensures IsSaved(EMPTY_STORE, data, context, Single(id)) && Filed(Single(id))
    ensures Shows(data, context, Overlay(EMPTY_VIEW, Single(id)))
  {
    data := SaveSingle(EMPTY_STORE, context, id);
    NothingShows(EMPTY_STORE, context);
    SaveShowsOverlay(EMPTY_STORE, data, context, Single(id), EMPTY_VIEW);
  }

  lemma NotShownWithout(data: Data, context: string, v: View, id: string)
    requires id in v.nodes && InvKey(context, id) !in data
    ensures !Shows(data, context, v)
  {
  }

  function Single(id: string): Inventory {
    Inventory(map[id := StoredNode(id, "")], DEFAULT_META)
  }

  /** What saving a single node leaves in a store. */
  lemma SaveSingle(data: Data, c: string, id: string) returns (data': Data)
    ensures Filed(Single(id)) && IsSaved(data, data', c, Single(id))
    ensures InvKey(c, id) in data' && data'[InvKey(c, id)] == NodeValue(Single(id).nodes[id])
  {
    OneMoreSaved(data, data, c, Single(id), {id}, id);
    var nodes := data[InvKey(c, id) := NodeValue(Single(id).nodes[id])];
    assert {id} - {id} == {};
    MetaCompletesSave(data, nodes, c, Single(id));
    data' := nodes[MetaKey(c) := MetaValue(Single(id).meta)][SCHEMA_KEY := VersionValue(SCHEMA_VERSION)];
  }

  // ----- Saving and loading

  predicate WrongSchema(data: Data) {
    SCHEMA_KEY in data && data[SCHEMA_KEY].VersionValue? && data[SCHEMA_KEY].version != SCHEMA_VERSION
  }

  ghost predicate Decodes(data: Data, context: string) {
    && (MetaKey(context) in data ==> data[MetaKey(context)].MetaValue?)
    && forall k :: k in data && InvPrefix(context) <= k ==> data[k].NodeValue?
  }

  function MetaIn(data: Data, context: string): Meta {
    if MetaKey(context) in data && data[MetaKey(context)].MetaValue? then data[MetaKey(context)].meta else DEFAULT_META
  }

  /** `nodes` are the decoded entries at `keys`, each under its own id. */
  ghost predicate ReadFrom(data: Data, nodes: map<string, StoredNode>, keys: set<string>) {
    && (forall k :: k in keys ==> k in data && data[k].NodeValue? && data[k].node.nodeId in nodes)
    && forall id :: id in nodes ==> exists k :: k in keys && data[k] == NodeValue(nodes[id]) && nodes[id].nodeId == id
  }

  function KeysUnder(data: Data, context: string): set<string> {
    set k | k in data && InvPrefix(context) <= k
  }

  /** What `load` answers on any store, well-formed or not. */
  ghost predicate LoadsTo(data: Data, context: string, r: LoadResult) {
    if WrongSchema(data) then r == LoadFailed(Corrupted)
    else if !Decodes(data, context) then r == LoadFailed(Serialization)
    else
      && r.Loaded?
      && ReadFrom(data, r.inventory.nodes, KeysUnder(data, context))
      && r.inventory.meta == MetaIn(data, context).(nodeCount := |r.inventory.nodes|)
  }

  /** Loading a context returns what it shows. */
  lemma LoadReturnsShown(data: Data, context: string, v: View, r: LoadResult)
    requires Shows(data, context, v) && LoadsTo(data, context, r)
    ensures r == Loaded(InventoryOf(v))
  {
    ShownDecodes(data, context, v);
    ShownNodesRead(data, context, v, r.inventory.nodes);
  }

  lemma ShownDecodes(data: Data, context: string, v: View)
    requires Shows(data, context, v)
    ensures !WrongSchema(data) && Decodes(data, context)
    ensures MetaIn(data, context) == if v.meta.Some? then v.meta.value else DEFAULT_META
  {
    SchemaIsRight(data);
    forall k | k in data && InvPrefix(context) <= k
      ensures data[k].NodeValue?
    {
      ShownUnderPrefix(data, context, v, k);
    }
    MetaDecodes(data, context, v);
  }

  lemma SchemaIsRight(data: Data)
    requires SchemaOk(data)
    ensures !WrongSchema(data)
  {
  }

  lemma MetaDecodes(data: Data, context: string, v: View)
    requires Shows(data, context, v)
    ensures MetaKey(context) in data ==> data[MetaKey(context)].MetaValue?
    ensures MetaIn(data, context) == if v.meta.Some? then v.meta.value else DEFAULT_META
  {
  }

  ghost predicate ShownAt(data: Data, context: string, v: View, key: string)
    requires key in data
  {
    exists id :: id in v.nodes && key == InvKey(context, id)
                 && data[key] == NodeValue(v.nodes[id]) && v.nodes[id].nodeId == id
  }

  lemma ShownUnderPrefix(data: Data, context: string, v: View, key: string)
    requires Shows(data, context, v) && key in data && InvPrefix(context) <= key
    ensures ShownAt(data, context, v, key)
  {
    KeyUnderPrefix(context, key);
  }

  lemma ShownNodesRead(data: Data, context: string, v: View, nodes: map<string, StoredNode>)
    requires Shows(data, context, v) && ReadFrom(data, nodes, KeysUnder(data, context))
    ensures nodes == v.nodes
  {
    forall id | id in nodes
      ensures id in v.nodes && nodes[id] == v.nodes[id]
    {
      var k :| k in KeysUnder(data, context) && data[k] == NodeValue(nodes[id]) && nodes[id].nodeId == id;
      ShownUnderPrefix(data, context, v, k);
    }
    forall id | id in v.nodes
      ensures id in nodes
    {
      KeysApart(context, id, context);
      assert InvKey(context, id) in KeysUnder(data, context);
    }
  }

  /** A save in terms of the keys and values themselves. */
  lemma SavedKeys(data: Data, data': Data, context: string, inventory: Inventory)
    requires IsSaved(data, data', context, inventory)
    ensures forall id :: id in inventory.nodes ==>
                           var key := "inv:" + context + ":" + id;
                           key in data' && data'[key] == NodeValue(inventory.nodes[id])
    ensures var key := "ctx:" + context + ":_meta"; key in data' && data'[key] == MetaValue(inventory.meta)
    ensures "_schema_version" in data' && data'["_schema_version"] == VersionValue(1)
  {
    forall id | id in inventory.nodes
      ensures "inv:" + context + ":" + id == InvKey(context, id)
    {
    }
  }

  /** A store of another version is refused, and so is metadata or a node that does not decode. */
  lemma LoadRefuses(data: Data, context: string, r: LoadResult)
    requires LoadsTo(data, context, r)
    ensures (&& "_schema_version" in data && data["_schema_version"].VersionValue?
             && data["_schema_version"].version != 1) ==> r == LoadFailed(Corrupted)
    ensures var meta := "ctx:" + context + ":_meta";
            SchemaOk(data) && meta in data && !data[meta].MetaValue? ==> r == LoadFailed(Serialization)
    ensures (SchemaOk(data)
             && exists id :: var key := "inv:" + context + ":" + id; key in data && !data[key].NodeValue?)
            ==> r == LoadFailed(Serialization)
  {
    if SchemaOk(data) {
      SchemaIsRight(data);
      if id :| var key := "inv:" + context + ":" + id; key in data && !data[key].NodeValue? {
        KeysApart(context, id, context);
        assert "inv:" + context + ":" + id == InvKey(context, id);
      }
    }
  }

  /** Loading from an empty store gives an empty inventory of the current version. */
  lemma LoadEmpty(context: string, r: LoadResult)
    requires LoadsTo(EMPTY_STORE, context, r)
    ensures r == Loaded(Inventory(map[], Meta("", 0, 0, 1)))
  {
    NothingShows(EMPTY_STORE, context);
    LoadReturnsShown(EMPTY_STORE, context, EMPTY_VIEW, r);
  }

  /**
   Saving and loading returns what was saved exactly when the new inventory has every node that was
   there before; nodes it lacks are not deleted.
   */
  lemma SaveRestoresExactly(data: Data, data': Data, context: string, inventory: Inventory, v: View, r: LoadResult)
    requires Shows(data, context, v) && IsSaved(data, data', context, inventory) && Filed(inventory)
    requires LoadsTo(data', context, r)
    ensures r.Loaded?
    ensures r.inventory.nodes == inventory.nodes <==> v.nodes.Keys <= inventory.nodes.Keys
    ensures Shows(data', context, View(inventory.nodes, Some(inventory.meta))) <==> v.nodes.Keys <= inventory.nodes.Keys
  {
    SaveShowsOverlay(data, data', context, inventory, v);
    LoadReturnsShown(data', context, Overlay(v, inventory), r);
    OverlayIsTop(v.nodes, inventory.nodes);
    if Shows(data', context, View(inventory.nodes, Some(inventory.meta))) {
      LoadReturnsShown(data', context, View(inventory.nodes, Some(inventory.meta)), r);
    }
  }

  /** Saving "t", then saving "u", and loading: both are there. */
  lemma OverlayExample(context: string) returns (first: Data, second: Data)
    ensures IsSaved(EMPTY_STORE, first, context, Single("t")) && IsSaved(first, second, context, Single("u"))
    ensures forall r :: LoadsTo(second, context, r) ==> r.Loaded? && r.inventory.nodes.Keys == {"t", "u"}
  {
    first := ShowSingle(context, "t");
    second := SaveSingle(first, context, "u");
    var v := Overlay(EMPTY_VIEW, Single("t"));
    SaveShowsOverlay(first, second, context, Single("u"), v);
    forall r | LoadsTo(second, context, r)
      ensures r.Loaded? && r.inventory.nodes.Keys == {"t", "u"}
    {
      LoadReturnsShown(second, context, Overlay(v, Single("u")), r);
      BothShown("t", "u");
    }
  }

  lemma BothShown(a: string, b: string)
    ensures Overlay(Overlay(EMPTY_VIEW, Single(a)), Single(b)).nodes.Keys == {a, b}
  {
  }

  lemma OverlayIsTop(bottom: map<string, StoredNode>, top: map<string, StoredNode>)
    ensures bottom + top == top <==> bottom.Keys <= top.Keys
  {
    assert forall id :: id in bottom ==> id in bottom + top;
    if bottom.Keys <= top.Keys {
      assert forall id :: id in bottom + top <==> id in top;
    }
  }

  /** Loading "x" returns a node that was saved for "x:y". */
  lemma ColonExample() returns (data': Data)
    ensures IsSaved(EMPTY_STORE, data', "x:y", Single("t"))
    ensures forall r :: LoadsTo(data', "x", r) ==> r.Loaded? && "t" in r.inventory.nodes
  {
    data' := SaveSingle(EMPTY_STORE, "x:y", "t");
    var key := InvKey("x:y", "t");
    assert key in KeysUnder(data', "x") by {
      assert InvPrefix("x") <= key;
    }
    forall k | k in data'
      ensures k == key || k == MetaKey("x:y") || k == SCHEMA_KEY
    {
      assert IsNodeKey(k, "x:y", Single("t")) ==> k == key;
    }
    KeysApart("x", "", "x:y");
    KeysApart("x", "", "x");
    if MetaKey("x") == MetaKey("x:y") {
      MetaKeyInjective("x", "x:y");
    }
  }

  // ----- The store object

  class Storage {
    var data: Data

    constructor ()
      ensures data == map[]
    {
      data := map[];
    }

    method Save(context: string, inventory: Inventory)
      modifies this
      ensures IsSaved(old(data), data, context, inventory)
    {
      SaveNodes(context, inventory);
      MetaCompletesSave(old(data), data, context, inventory);
      data := data[MetaKey(context) := MetaValue(inventory.meta)];
      data := data[SCHEMA_KEY := VersionValue(SCHEMA_VERSION)];
    }

    /** The loop over the nodes, in whatever order the map yields them. */
    method SaveNodes(context: string, inventory: Inventory)
      modifies this
      ensures NodesSaved(old(data), data, context, inventory, {})
    {
      var todo := inventory.nodes.Keys;
      while todo != {}
        invariant todo <= inventory.nodes.Keys
        invariant NodesSaved(old(data), data, context, inventory, todo)
      {
        var id :| id in todo;
        OneMoreSaved(old(data), data, context, inventory, todo, id);
        data := data[InvKey(context, id) := NodeValue(inventory.nodes[id])];
        todo := todo - {id};
      }
    }

    method ClearStorage(context: string)
      modifies this
      ensures IsCleared(old(data), data, context)
    {
      var todo := set k | k in data && InvPrefix(context) <= k;
      while todo != {}
        invariant forall k :: k in todo ==> k in data && InvPrefix(context) <= k
        invariant forall k :: k in old(data) && k !in data ==> InvPrefix(context) <= k
        invariant forall k :: k in data ==> k in old(data) && data[k] == old(data)[k]
        invariant forall k :: k in data && InvPrefix(context) <= k ==> k in todo
      {
        var key :| key in todo;
        data := data - {key};
        todo := todo - {key};
      }
      data := data - {MetaKey(context)};
    }

    method Load(context: string) returns (r: LoadResult)
      ensures LoadsTo(data, context, r)
    {
      if WrongSchema(data) {
        return LoadFailed(Corrupted);
      }
      var meta := DEFAULT_META;
      if MetaKey(context) in data {
        if !data[MetaKey(context)].MetaValue? {
          return LoadFailed(Serialization);
        }
        meta := data[MetaKey(context)].meta;
      }
      var nodes: map<string, StoredNode> := map[];
      var entries := KeysUnder(data, context);
      var todo := entries;
      while todo != {}
        invariant todo <= entries
        invariant ReadFrom(data, nodes, entries - todo)
      {
        var key :| key in todo;
        if !data[key].NodeValue? {
          return LoadFailed(Serialization);
        }
        ReadOne(data, nodes, entries - todo, key);
        nodes := nodes[data[key].node.nodeId := data[key].node];
        assert entries - (todo - {key}) == (entries - todo) + {key};
        todo := todo - {key};
      }
      assert entries - todo == entries;
      r := Loaded(Inventory(nodes, meta.(nodeCount := |nodes|)));
    }
  }

  lemma ReadOne(data: Data, nodes: map<string, StoredNode>, keys: set<string>, key: string)
    requires ReadFrom(data, nodes, keys) && key in data && data[key].NodeValue?
    ensures ReadFrom(data, nodes[data[key].node.nodeId := data[key].node], keys + {key})
  {
    var nodes' := nodes[data[key].node.nodeId := data[key].node];
    forall id | id in nodes'
      ensures exists k :: k in keys + {key} && data[k] == NodeValue(nodes'[id]) && nodes'[id].nodeId == id
    {
      if id == data[key].node.nodeId {
        assert key in keys + {key} && data[key] == NodeValue(nodes'[id]);
      } else {
        var k :| k in keys && data[k] == NodeValue(nodes[id]) && nodes[id].nodeId == id;
        assert k in keys + {key};
      }
    }
  }
}
