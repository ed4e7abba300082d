/**
 * The assurance-graph editor of Ejemplos/sain_builder.py: a map of
 * subservice nodes and a list of dependencies kept in the session, the
 * save, delete and import handlers that change them, the JSON document
 * exported for the ietf-service-assurance YANG module (section 3 of
 * RFC 9418: `subservices/subservice` with `dependencies/dependency`) and
 * the edges the drawn graph keeps.
 *
 * The nodes dict keeps Python's insertion order: `order` lists its keys,
 * `nodes` maps them to their values.
 */
module SainBuilder {
  import opened Wrappers
  import opened Text
  import opened Json

  // ---------------------------------------------------------------------
  // Presets and colours
  // ---------------------------------------------------------------------

  /** An entry of `TYPE_PRESETS` (the parameter hint is a UI default and is left out). */
  datatype Preset = Preset(name: string, yangModule: string, paramsKey: string)

  const TypePresets: seq<Preset> := [
    Preset("service-instance-type", "ietf-service-assurance", "service-instance-parameter"),
    Preset("ietf-service-assurance-interface:interface-type", "ietf-service-assurance-interface",
           "ietf-service-assurance-interface:parameters"),
    Preset("ietf-service-assurance-device:device-type", "ietf-service-assurance-device",
           "ietf-service-assurance-device:parameters"),
    Preset("example-service-assurance-ip-connectivity:ip-connectivity-type", "example-service-assurance-ip-connectivity",
           "example-service-assurance-ip-connectivity:parameters"),
    Preset("example-service-assurance-is-is:is-is-type", "example-service-assurance-is-is",
           "example-service-assurance-is-is:parameters"),
    Preset("custom:<namespace>:<type>", "custom", "custom:parameters")
  ]

  /** `COLOR_MAP`, in insertion order. */
  const ColorMap: seq<(string, string)> := [
    ("service-instance-type", "#4C78A8"),
    ("ietf-service-assurance-interface:interface-type", "#F58518"),
    ("ietf-service-assurance-device:device-type", "#54A24B"),
    ("example-service-assurance-ip-connectivity:ip-connectivity-type", "#E45756"),
    ("example-service-assurance-is-is:is-is-type", "#72B7B2")
  ]

  const DefaultColor := "#A0A0A0"

  /** The colour of the first entry of `ColorMap[i..]` whose key starts `nodeType`. */
  function ColorFrom(nodeType: string, i: nat): string
    requires i <= |ColorMap|
    decreases |ColorMap| - i
  {
    if i == |ColorMap| then DefaultColor
    else if IsPrefix(ColorMap[i].0, nodeType) then ColorMap[i].1
    else ColorFrom(nodeType, i + 1)
  }

  /** The key of the first `ColorMap` entry that is a prefix of `nodeType` decides its colour. */
  lemma {:induction false} ColorFromFirstPrefix(nodeType: string, i: nat, k: nat)
    requires i <= k < |ColorMap| && IsPrefix(ColorMap[k].0, nodeType)
    requires forall j :: i <= j < k ==> !IsPrefix(ColorMap[j].0, nodeType)
    ensures ColorFrom(nodeType, i) == ColorMap[k].1
    decreases k - i
  {
    if i < k {
      ColorFromFirstPrefix(nodeType, i + 1, k);
    }
  }

  /** With no key of `ColorMap` a prefix of `nodeType` the colour is the grey default. */
  lemma {:induction false} ColorFromNoPrefix(nodeType: string, i: nat)
    requires i <= |ColorMap|
    requires forall j :: i <= j < |ColorMap| ==> !IsPrefix(ColorMap[j].0, nodeType)
    ensures ColorFrom(nodeType, i) == DefaultColor
    decreases |ColorMap| - i
  {
    if i < |ColorMap| {
      ColorFromNoPrefix(nodeType, i + 1);
    }
  }

  /** `get_color`: the colour of the first `COLOR_MAP` key that is a prefix of the type, else grey. */
  method GetColor(nodeType: string) returns (color: string)
    ensures color == ColorFrom(nodeType, 0)
    ensures forall k ::
      (0 <= k < |ColorMap| && IsPrefix(ColorMap[k].0, nodeType)
       && forall j :: 0 <= j < k ==> !IsPrefix(ColorMap[j].0, nodeType))
      ==> color == ColorMap[k].1
    ensures (forall k :: 0 <= k < |ColorMap| ==> !IsPrefix(ColorMap[k].0, nodeType)) ==> color == DefaultColor
  {
    var i := 0;
    while i < |ColorMap|
      invariant 0 <= i <= |ColorMap|
      invariant ColorFrom(nodeType, i) == ColorFrom(nodeType, 0)
      invariant forall j :: 0 <= j < i ==> !IsPrefix(ColorMap[j].0, nodeType)
    {
      if IsPrefix(ColorMap[i].0, nodeType) {
        color := ColorMap[i].1;
        forall k | 0 <= k < |ColorMap| && IsPrefix(ColorMap[k].0, nodeType)
          && (forall j :: 0 <= j < k ==> !IsPrefix(ColorMap[j].0, nodeType))
          ensures color == ColorMap[k].1
        {
          assert k == i;
        }
        return;
      }
      i := i + 1;
    }
    color := DefaultColor;
  }

  const DefaultCustomType := "vendor-x:foo-type"

  lemma DefaultTypeStripped(t: string)
    requires t == DefaultCustomType
    ensures t != "" && Strip(t) == t
  {
    assert t[0] == 'v' && t[|t| - 1] == 'e';
    StripUnchanged(t);
  }

  /** Line 78-82: a custom preset takes the typed type, trimmed, or `vendor-x:foo-type` when blank. */
  function NodeType(preset: Preset, customType: string): (t: string)
    ensures !IsPrefix("custom:", preset.name) ==> t == preset.name
    ensures IsPrefix("custom:", preset.name) ==> t != "" && Strip(t) == t
    ensures IsPrefix("custom:", preset.name) && Strip(customType) != "" ==> t == Strip(customType)
  {
    if !IsPrefix("custom:", preset.name) then preset.name
    else
      var typed := Strip(customType);
      if typed != "" then
        StripUnchanged(typed);
        typed
      else
        DefaultTypeStripped(DefaultCustomType);
        DefaultCustomType
  }

  /** Line 80: a blank custom type falls back to `vendor-x:foo-type`. */
  lemma NodeTypeDefault(preset: Preset, customType: string)
    requires IsPrefix("custom:", preset.name) && Strip(customType) == ""
    ensures NodeType(preset, customType) == DefaultCustomType
  {
  }

  /**
   * `parse_params`: blank text gives `{}`; so does text that is not JSON
   * (`parsed` is the decoder's result, `None` when it raised); otherwise
   * the decoded value, which may be `null`.
   */
  function ParseParams(text: string, parsed: Option<Json>): (params: Json)
    ensures Strip(text) == "" ==> params == JObj([])
    ensures parsed.None? ==> params == JObj([])
    ensures Strip(text) != "" && parsed.Some? ==> params == parsed.value
  {
    if Strip(text) == "" then JObj([])
    else if parsed.None? then JObj([])
    else parsed.value
  }

  // ---------------------------------------------------------------------
  // Nodes, dependencies and the graph they form
  // ---------------------------------------------------------------------

  /** A value of the nodes dict: `{"id", "type", "parameters_key", "parameters"}`. */
  datatype Node = Node(id: string, nodeType: string, paramsKey: string, params: Json)

  /** An element of the dependencies list: `{"src_id", "dst_id", "dependency-type"}`. */
  datatype Dependency = Dependency(src: string, dst: string, depType: string)

  /** The nodes dict (its keys in insertion order, and their values) with the dependencies. */
  datatype Graph = Graph(order: seq<string>, nodes: map<string, Node>, deps: seq<Dependency>)

  /** A parameters key that cannot clash with the other keys of an exported subservice. */
  predicate PlainKey(k: string) {
    k != "type" && k != "id" && k != "dependencies"
  }

  /**
   * The nodes dict is consistent (its keys listed once each, every node
   * stored under its own id) and every dependency's source is a node.
   */
  ghost predicate WellFormed(g: Graph) {
    && Distinct(g.order)
    && (forall k :: k in g.nodes <==> k in g.order)
    && (forall k :: k in g.nodes ==> g.nodes[k].id == k && PlainKey(g.nodes[k].paramsKey))
    && (forall d :: d in g.deps ==> d.src in g.nodes)
  }

  /** The dependencies whose source is `src`, in list order. */
  function FromSource(deps: seq<Dependency>, src: string): (r: seq<Dependency>)
    ensures forall d :: d in r <==> d in deps && d.src == src
  {
    if deps == [] then []
    else (if deps[0].src == src then [deps[0]] else []) + FromSource(deps[1..], src)
  }

  /** `[d for d in deps if d["src_id"] != id]`. */
  function DropSource(deps: seq<Dependency>, id: string): (r: seq<Dependency>)
    ensures forall d :: d in r <==> d in deps && d.src != id
  {
    if deps == [] then []
    else (if deps[0].src != id then [deps[0]] else []) + DropSource(deps[1..], id)
  }

  /** `[d for d in deps if d["src_id"] != id and d["dst_id"] != id]`. */
  function DropNode(deps: seq<Dependency>, id: string): (r: seq<Dependency>)
    ensures forall d :: d in r <==> d in deps && d.src != id && d.dst != id
  {
    if deps == [] then []
    else (if deps[0].src != id && deps[0].dst != id then [deps[0]] else []) + DropNode(deps[1..], id)
  }

  /** One dependency from `src` per selected destination, in selection order. */
  function Linked(src: string, dsts: seq<string>, depType: string): (r: seq<Dependency>)
    ensures |r| == |dsts|
    ensures forall k :: 0 <= k < |dsts| ==> r[k] == Dependency(src, dsts[k], depType)
  {
    seq(|dsts|, k requires 0 <= k < |dsts| => Dependency(src, dsts[k], depType))
  }

  /** One more selected destination adds its dependency at the end. */
  lemma LinkedStep(src: string, dsts: seq<string>, k: nat, depType: string)
    requires k < |dsts|
    ensures Linked(src, dsts[..k + 1], depType) == Linked(src, dsts[..k], depType) + [Dependency(src, dsts[k], depType)]
  {
  }

  /** The key list without `id`. */
  function Without(order: seq<string>, id: string): (r: seq<string>)
    ensures forall k :: k in r <==> k in order && k != id
    ensures |r| <= |order|
  {
    if order == [] then []
    else (if order[0] != id then [order[0]] else []) + Without(order[1..], id)
  }

  /** No key listed twice. */
  predicate Distinct(order: seq<string>) {
    forall i, j :: 0 <= i < j < |order| ==> order[i] != order[j]
  }

  lemma {:induction false} WithoutDistinct(order: seq<string>, id: string)
    requires Distinct(order)
    ensures Distinct(Without(order, id))
  {
    if order != [] {
      var tail := order[1..];
      assert Distinct(tail) by {
        forall i, j | 0 <= i < j < |tail| ensures tail[i] != tail[j] {
          assert tail[i] == order[i + 1] && tail[j] == order[j + 1];
        }
      }
      WithoutDistinct(tail, id);
      var rest := Without(tail, id);
      if order[0] != id {
        assert order[0] !in tail;
        var r := [order[0]] + rest;
        forall i, j | 0 <= i < j < |r| ensures r[i] != r[j] {
          if i == 0 {
            assert r[j] == rest[j - 1] && rest[j - 1] in rest;
          } else {
            assert r[i] == rest[i - 1] && r[j] == rest[j - 1];
          }
        }
      }
    }
  }

  lemma {:induction false} FromSourceAppend(a: seq<Dependency>, b: seq<Dependency>, src: string)
    ensures FromSource(a + b, src) == FromSource(a, src) + FromSource(b, src)
  {
    if a != [] {
      assert (a + b)[0] == a[0] && (a + b)[1..] == a[1..] + b;
      FromSourceAppend(a[1..], b, src);
    } else {
      assert a + b == b;
    }
  }

  /** Dropping the dependencies of `id` leaves those of every other source as they were. */
  lemma {:induction false} FromSourceDrop(deps: seq<Dependency>, id: string, src: string)
    ensures FromSource(DropSource(deps, id), src) == if src == id then [] else FromSource(deps, src)
  {
    if deps != [] {
      FromSourceDrop(deps[1..], id, src);
      var head := if deps[0].src != id then [deps[0]] else [];
      FromSourceAppend(head, DropSource(deps[1..], id), src);
    }
  }

  lemma FromSourceLinked(owner: string, dsts: seq<string>, depType: string, src: string)
    ensures FromSource(Linked(owner, dsts, depType), src) == if src == owner then Linked(owner, dsts, depType) else []
  {
    var ds := Linked(owner, dsts, depType);
    if src == owner {
      FromSourceAll(ds, src);
    } else {
      FromSourceNone(ds, src);
    }
  }

  lemma {:induction false} FromSourceAll(deps: seq<Dependency>, src: string)
    requires forall d :: d in deps ==> d.src == src
    ensures FromSource(deps, src) == deps
  {
    if deps != [] {
      FromSourceAll(deps[1..], src);
      assert [deps[0]] + deps[1..] == deps;
    }
  }

  lemma {:induction false} FromSourceNone(deps: seq<Dependency>, src: string)
    requires forall d :: d in deps ==> d.src != src
    ensures FromSource(deps, src) == []
  {
    if deps != [] {
      FromSourceNone(deps[1..], src);
    }
  }

  /**
   * After a save of `id`, the dependencies leaving `id` are exactly the
   * selected ones and every other source keeps its dependencies.
   */
  lemma SavedDependencies(deps: seq<Dependency>, id: string, dsts: seq<string>, depType: string, src: string)
    ensures FromSource(DropSource(deps, id) + Linked(id, dsts, depType), src)
      == if src == id then Linked(id, dsts, depType) else FromSource(deps, src)
  {
    FromSourceAppend(DropSource(deps, id), Linked(id, dsts, depType), src);
    FromSourceDrop(deps, id, src);
    FromSourceLinked(id, dsts, depType, src);
  }

  /** Storing a node under its id with only dependencies leaving it keeps the graph well formed. */
  lemma StoreWellFormed(g: Graph, n: Node, ds: seq<Dependency>)
    requires WellFormed(g) && PlainKey(n.paramsKey)
    requires forall d :: d in ds ==> d.src == n.id
    ensures WellFormed(Graph(if n.id in g.nodes then g.order else g.order + [n.id], g.nodes[n.id := n], g.deps + ds))
  {
    var order := if n.id in g.nodes then g.order else g.order + [n.id];
    assert Distinct(order) by {
      if n.id !in g.nodes {
        forall i, j | 0 <= i < j < |order| ensures order[i] != order[j] {
          if j == |g.order| { assert order[i] == g.order[i] && g.order[i] in g.order; }
          else { assert order[i] == g.order[i] && order[j] == g.order[j]; }
        }
      }
    }
  }

  /** Replacing the dependencies leaving a node by new ones from it keeps the graph well formed. */
  lemma RelinkWellFormed(g: Graph, id: string, dsts: seq<string>, depType: string)
    requires WellFormed(g) && id in g.nodes
    ensures WellFormed(Graph(g.order, g.nodes, DropSource(g.deps, id) + Linked(id, dsts, depType)))
  {
    forall d | d in DropSource(g.deps, id) + Linked(id, dsts, depType) ensures d.src in g.nodes {
      if d !in DropSource(g.deps, id) {
        var k :| 0 <= k < |dsts| && Linked(id, dsts, depType)[k] == d;
      }
    }
  }

  lemma PresetKeysPlain(preset: Preset)
    requires preset in TypePresets
    ensures PlainKey(preset.paramsKey)
  {
  }

  // ---------------------------------------------------------------------
  // Export (lines 178-197)
  // ---------------------------------------------------------------------

  /** One element of a subservice's `dependency` list: the destination's type, or `unknown`. */
  function DepEntry(d: Dependency, nodes: map<string, Node>): Json {
    JObj([("type", JStr(if d.dst in nodes then nodes[d.dst].nodeType else "unknown")),
          ("id", JStr(d.dst)),
          ("dependency-type", JStr(d.depType))])
  }

  function DepEntries(ds: seq<Dependency>, nodes: map<string, Node>): (r: seq<Json>)
    ensures |r| == |ds| && forall k :: 0 <= k < |ds| ==> r[k] == DepEntry(ds[k], nodes)
  {
    seq(|ds|, k requires 0 <= k < |ds| => DepEntry(ds[k], nodes))
  }

  /** The `dependencies` container of a subservice with outgoing dependencies `out`. */
  function DependenciesBlock(out: seq<Dependency>, nodes: map<string, Node>): Json {
    JObj([("dependency", JArr(DepEntries(out, nodes)))])
  }

  /**
   * The subservice exported for node `n`: `type` and `id`, then the
   * parameters under the node's parameters key when they are truthy, then
   * a dependencies block when the node has outgoing dependencies. (The
   * parameters key of a stored node never clashes with the other keys, so
   * each assignment of the source adds a key at the end.)
   */
  function Entry(n: Node, g: Graph): Json {
    var out := FromSource(g.deps, n.id);
    JObj([("type", JStr(n.nodeType)), ("id", JStr(n.id))]
         + (if Truthy(n.params) then [(n.paramsKey, n.params)] else [])
         + (if out != [] then [("dependencies", DependenciesBlock(out, g.nodes))] else []))
  }

  const SubservicesKey := "ietf-service-assurance:subservices"

  /** `{"ietf-service-assurance:subservices": {"subservice": subs}}`. */
  function Document(subs: seq<Json>): Json {
    JObj([(SubservicesKey, JObj([("subservice", JArr(subs))]))])
  }

  /** The subservices of the nodes listed in `keys`. */
  function Entries(g: Graph, keys: seq<string>): (subs: seq<Json>)
    requires forall k :: k in keys ==> k in g.nodes
    ensures |subs| == |keys| && forall i :: 0 <= i < |keys| ==> subs[i] == Entry(g.nodes[keys[i]], g)
  {
    if keys == [] then [] else Entries(g, keys[..|keys| - 1]) + [Entry(g.nodes[keys[|keys| - 1]], g)]
  }

  /** The exported document of a graph. */
  function Export(g: Graph): Json
    requires WellFormed(g)
  {
    Document(Entries(g, g.order))
  }

  /**
   * A subservice lists `type` and `id` first, then the parameters key when
   * the parameters are truthy, then `dependencies` when the node has
   * outgoing dependencies.
   */
  lemma EntryKeys(n: Node, g: Graph)
    ensures Entry(n, g).JObj?
    ensures Keys(Entry(n, g).members) ==
      ["type", "id"] + (if Truthy(n.params) then [n.paramsKey] else [])
      + (if FromSource(g.deps, n.id) != [] then ["dependencies"] else [])
  {
    var m := Entry(n, g).members;
    var keys := ["type", "id"] + (if Truthy(n.params) then [n.paramsKey] else [])
      + (if FromSource(g.deps, n.id) != [] then ["dependencies"] else []);
    assert |Keys(m)| == |keys|;
    forall k | 0 <= k < |keys| ensures Keys(m)[k] == keys[k] {
      assert Keys(m)[k] == m[k].0;
    }
  }

  /** The values under those keys are the node's type, id, parameters and dependencies block. */
  lemma EntryValues(n: Node, g: Graph)
    requires PlainKey(n.paramsKey)
    ensures Get(Entry(n, g).members, "type") == Some(JStr(n.nodeType))
    ensures Get(Entry(n, g).members, "id") == Some(JStr(n.id))
    ensures Truthy(n.params) ==> Get(Entry(n, g).members, n.paramsKey) == Some(n.params)
    ensures FromSource(g.deps, n.id) != [] ==>
      Get(Entry(n, g).members, "dependencies") == Some(DependenciesBlock(FromSource(g.deps, n.id), g.nodes))
  {
    var m := Entry(n, g).members;
    assert m[0] == ("type", JStr(n.nodeType)) && m[1] == ("id", JStr(n.id));
    assert Get(m, "id") == Get(m[1..], "id");
    if Truthy(n.params) {
      assert m[2] == (n.paramsKey, n.params);
      assert Get(m, n.paramsKey) == Get(m[1..], n.paramsKey) == Get(m[1..][1..], n.paramsKey);
    }
    var out := FromSource(g.deps, n.id);
    if out != [] {
      var j := |m| - 1;
      assert m[j] == ("dependencies", DependenciesBlock(out, g.nodes));
      assert Get(m, "dependencies") == Get(m[1..], "dependencies") == Get(m[1..][1..], "dependencies");
      if Truthy(n.params) {
        assert Get(m[1..][1..], "dependencies") == Get(m[1..][1..][1..], "dependencies");
      }
    }
  }

  /** A key absent from the keys listed so far is appended by the assignment. */
  lemma NewKey(members: seq<(string, Json)>, key: string, v: Json)
    requires key !in Keys(members)
    ensures Set(members, key, v) == members + [(key, v)]
  {
    KeysHasKey(members, key);
    SetNewKey(members, key, v);
  }

  /** The parameters key appears in a subservice exactly when the parameters are truthy. */
  lemma EntryHasParams(n: Node, g: Graph)
    requires PlainKey(n.paramsKey)
    ensures HasKey(Entry(n, g).members, n.paramsKey) <==> Truthy(n.params)
  {
    EntryKeys(n, g);
    var keys := Keys(Entry(n, g).members);
    assert HasKey(Entry(n, g).members, n.paramsKey) <==> n.paramsKey in keys by {
      KeysHasKey(Entry(n, g).members, n.paramsKey);
    }
  }

  /** A `dependencies` block appears exactly when the node has outgoing dependencies. */
  lemma EntryHasDependencies(n: Node, g: Graph)
    requires PlainKey(n.paramsKey)
    ensures HasKey(Entry(n, g).members, "dependencies") <==> FromSource(g.deps, n.id) != []
  {
    EntryKeys(n, g);
    KeysHasKey(Entry(n, g).members, "dependencies");
  }

  lemma KeysHasKey(members: seq<(string, Json)>, key: string)
    ensures HasKey(members, key) <==> key in Keys(members)
  {
    if HasKey(members, key) {
      var k :| 0 <= k < |members| && members[k].0 == key;
      assert Keys(members)[k] == key;
    }
  }

  /** Each exported dependency names its destination, its type (or `unknown`) and its dependency type. */
  lemma DepEntryFields(d: Dependency, nodes: map<string, Node>)
    ensures Get(DepEntry(d, nodes).members, "type") == Some(JStr(if d.dst in nodes then nodes[d.dst].nodeType else "unknown"))
    ensures Get(DepEntry(d, nodes).members, "id") == Some(JStr(d.dst))
    ensures Get(DepEntry(d, nodes).members, "dependency-type") == Some(JStr(d.depType))
  {
    var m := DepEntry(d, nodes).members;
    assert Get(m, "id") == Get(m[1..], "id");
    assert Get(m, "dependency-type") == Get(m[1..], "dependency-type") == Get(m[1..][1..], "dependency-type");
  }

  /** The export has one subservice per node, in the nodes dict's order. */
  lemma ExportOnePerNode(g: Graph)
    requires WellFormed(g)
    ensures Export(g) == Document(Entries(g, g.order))
    ensures |Entries(g, g.order)| == |g.order|
    ensures forall i :: 0 <= i < |g.order| ==>
      Get(Entries(g, g.order)[i].members, "id") == Some(JStr(g.order[i]))
  {
    forall i | 0 <= i < |g.order| ensures Get(Entries(g, g.order)[i].members, "id") == Some(JStr(g.order[i])) {
      EntryValues(g.nodes[g.order[i]], g);
    }
  }

  // ---------------------------------------------------------------------
  // Import (lines 204-233)
  // ---------------------------------------------------------------------

  /** `data.get(SubservicesKey, {}).get("subservice", [])`, as iterated; `None` where Python raises. */
  function SubservicesOf(doc: Json): Option<seq<Json>> {
    if !doc.JObj? then None
    else
      var container := GetOr(doc.members, SubservicesKey, JObj([]));
      if !container.JObj? then None
      else Iter(GetOr(container.members, "subservice", JArr([])))
  }

  /** The condition of line 215 for one preset. */
  predicate PresetApplies(stype: string, p: Preset) {
    IsPrefix(p.yangModule, stype) || (stype == "service-instance-type" && p.paramsKey == "service-instance-parameter")
  }

  /** The parameters key of the first preset from `TypePresets[i..]` that applies and whose key the subservice holds. */
  function PresetKeyFrom(stype: string, members: seq<(string, Json)>, i: nat): (pk: Option<string>)
    requires i <= |TypePresets|
    ensures pk.Some? ==>
      HasKey(members, pk.value) && exists j :: i <= j < |TypePresets| && pk.value == TypePresets[j].paramsKey
    decreases |TypePresets| - i
  {
    if i == |TypePresets| then None
    else if PresetApplies(stype, TypePresets[i]) && HasKey(members, TypePresets[i].paramsKey) then Some(TypePresets[i].paramsKey)
    else PresetKeyFrom(stype, members, i + 1)
  }

  /** The test of line 222. */
  predicate FallbackKey(k: string) {
    IsSuffix(":parameters", k) || k == "service-instance-parameter"
  }

  /** The first key from `keys[i..]` that passes the fallback test. */
  function FallbackKeyFrom(keys: seq<string>, i: nat): (pk: Option<string>)
    requires i <= |keys|
    ensures pk.Some? ==> pk.value in keys && FallbackKey(pk.value)
    decreases |keys| - i
  {
    if i == |keys| then None
    else if FallbackKey(keys[i]) then Some(keys[i])
    else FallbackKeyFrom(keys, i + 1)
  }

  /** Preset `p` applies to `stype` and its parameters key is one the subservice holds. */
  predicate PresetHit(stype: string, members: seq<(string, Json)>, p: Preset) {
    PresetApplies(stype, p) && HasKey(members, p.paramsKey)
  }

  /**
   * The preset loop stops at the first preset from `i` on that applies and
   * whose key the subservice holds, and finds nothing exactly when there is
   * no such preset.
   */
  lemma {:induction false} PresetKeyFirst(stype: string, members: seq<(string, Json)>, i: nat)
    requires i <= |TypePresets|
    ensures PresetKeyFrom(stype, members, i).None? <==>
      forall j :: i <= j < |TypePresets| ==> !PresetHit(stype, members, TypePresets[j])
    ensures PresetKeyFrom(stype, members, i).Some? ==>
      exists j :: i <= j < |TypePresets| && PresetHit(stype, members, TypePresets[j])
        && PresetKeyFrom(stype, members, i).value == TypePresets[j].paramsKey
        && forall l :: i <= l < j ==> !PresetHit(stype, members, TypePresets[l])
    decreases |TypePresets| - i
  {
    if i < |TypePresets| {
      PresetKeyFirst(stype, members, i + 1);
      if !PresetHit(stype, members, TypePresets[i]) && PresetKeyFrom(stype, members, i).Some? {
        var j :| i + 1 <= j < |TypePresets| && PresetHit(stype, members, TypePresets[j])
          && PresetKeyFrom(stype, members, i).value == TypePresets[j].paramsKey
          && forall l :: i + 1 <= l < j ==> !PresetHit(stype, members, TypePresets[l]);
        assert forall l :: i <= l < j ==> !PresetHit(stype, members, TypePresets[l]);
      }
    }
  }

  /**
   * The fallback loop stops at the first key from `i` on that passes the
   * test of line 222, and finds nothing exactly when no key does.
   */
  lemma {:induction false} FallbackKeyFirst(keys: seq<string>, i: nat)
    requires i <= |keys|
    ensures FallbackKeyFrom(keys, i).None? <==> forall j :: i <= j < |keys| ==> !FallbackKey(keys[j])
    ensures FallbackKeyFrom(keys, i).Some? ==>
      exists j :: i <= j < |keys| && FallbackKeyFrom(keys, i).value == keys[j] && FallbackKey(keys[j])
        && forall l :: i <= l < j ==> !FallbackKey(keys[l])
    decreases |keys| - i
  {
    if i < |keys| {
      FallbackKeyFirst(keys, i + 1);
      if !FallbackKey(keys[i]) && FallbackKeyFrom(keys, i).Some? {
        var j :| i + 1 <= j < |keys| && FallbackKeyFrom(keys, i).value == keys[j] && FallbackKey(keys[j])
          && forall l :: i + 1 <= l < j ==> !FallbackKey(keys[l]);
        assert forall l :: i <= l < j ==> !FallbackKey(keys[l]);
      }
    }
  }

  /** Lines 213-224: the parameters key guessed for a subservice of type `stype`. */
  function GuessKey(stype: string, members: seq<(string, Json)>): Option<string> {
    var fromPreset := PresetKeyFrom(stype, members, 0);
    if fromPreset.Some? then fromPreset else FallbackKeyFrom(Keys(members), 0)
  }

  lemma FallbackKeysPlain(k: string)
    requires FallbackKey(k)
    ensures PlainKey(k)
  {
  }

  /** A guessed key is one the subservice holds, and it never clashes with `type`, `id` or `dependencies`. */
  lemma GuessKeyFound(stype: string, members: seq<(string, Json)>)
    ensures GuessKey(stype, members).Some? ==>
      HasKey(members, GuessKey(stype, members).value) && PlainKey(GuessKey(stype, members).value)
  {
    var fromPreset := PresetKeyFrom(stype, members, 0);
    if fromPreset.Some? {
      var j :| 0 <= j < |TypePresets| && fromPreset.value == TypePresets[j].paramsKey;
      PresetKeysPlain(TypePresets[j]);
    } else {
      var pk := FallbackKeyFrom(Keys(members), 0);
      if pk.Some? {
        FallbackKeysPlain(pk.value);
        KeysHasKey(members, pk.value);
      }
    }
  }

  /** One element of a subservice's `dependency` list; the dependency type defaults to `impacting`. */
  function ImportDep(sid: string, d: Json): Option<Dependency> {
    if !d.JObj? then None
    else
      var dst := Get(d.members, "id");
      var depType := GetOr(d.members, "dependency-type", JStr("impacting"));
      if dst.Some? && dst.value.JStr? && depType.JStr? then Some(Dependency(sid, dst.value.s, depType.s))
      else None
  }

  /** `ds` followed by the dependencies of `rest`, unless `rest` failed. */
  function Prepend(ds: seq<Dependency>, rest: Option<seq<Dependency>>): Option<seq<Dependency>> {
    if rest.None? then None else Some(ds + rest.value)
  }

  lemma PrependTwice(ds: seq<Dependency>, more: seq<Dependency>, rest: Option<seq<Dependency>>)
    ensures Prepend(ds, Prepend(more, rest)) == Prepend(ds + more, rest)
  {
    if rest.Some? {
      assert ds + (more + rest.value) == ds + more + rest.value;
    }
  }

  /** The dependencies of a subservice `sid`, or `None` when one of them is malformed. */
  function ImportDeps(sid: string, items: seq<Json>): (ds: Option<seq<Dependency>>)
    ensures ds.Some? ==> |ds.value| == |items| && forall d :: d in ds.value ==> d.src == sid
  {
    if items == [] then Some([])
    else
      var d := ImportDep(sid, items[0]);
      if d.None? then None else Prepend([d.value], ImportDeps(sid, items[1..]))
  }

  /**
   * The dependency list imports exactly when every entry does, and then
   * holds the import of each entry, in order.
   */
  lemma {:induction false} ImportDepsSpec(sid: string, items: seq<Json>)
    ensures ImportDeps(sid, items).None? <==> exists k :: 0 <= k < |items| && ImportDep(sid, items[k]).None?
    ensures ImportDeps(sid, items).Some? ==> forall k :: 0 <= k < |items| ==>
      ImportDep(sid, items[k]).Some? && ImportDeps(sid, items).value[k] == ImportDep(sid, items[k]).value
    decreases |items|
  {
    if items != [] {
      var rest := items[1..];
      ImportDepsSpec(sid, rest);
      assert forall k :: 1 <= k < |items| ==> items[k] == rest[k - 1];
      if ImportDep(sid, items[0]).Some? && ImportDeps(sid, rest).None? {
        var k :| 0 <= k < |rest| && ImportDep(sid, rest[k]).None?;
        assert ImportDep(sid, items[k + 1]).None?;
      }
    }
  }

  /**
   * An imported dependency leaves `sid`, points at the entry's `id`, and has
   * the entry's `dependency-type`, or `impacting` when the entry has none.
   */
  lemma ImportDepFields(sid: string, d: Json)
    requires ImportDep(sid, d).Some?
    ensures d.JObj?
    ensures var dep := ImportDep(sid, d).value;
      && dep.src == sid && Get(d.members, "id") == Some(JStr(dep.dst))
      && (HasKey(d.members, "dependency-type") ==> Get(d.members, "dependency-type") == Some(JStr(dep.depType)))
      && (!HasKey(d.members, "dependency-type") ==> dep.depType == "impacting")
  {
    GetFinds(d.members, "dependency-type");
  }

  /** Lines 210-228 for one subservice: the node it defines and the dependencies leaving it. */
  function ImportOne(s: Json): (r: Option<(Node, seq<Dependency>)>)
    ensures r.Some? ==> PlainKey(r.value.0.paramsKey) && forall d :: d in r.value.1 ==> d.src == r.value.0.id
  {
    if !s.JObj? then None
    else
      var sid := Get(s.members, "id");
      var stype := Get(s.members, "type");
      if !(sid.Some? && sid.value.JStr? && stype.Some? && stype.value.JStr?) then None
      else
        var pk := GuessKey(stype.value.s, s.members);
        var params := if pk.Some? then GetOr(s.members, pk.value, JObj([])) else JObj([]);
        var block := GetOr(s.members, "dependencies", JObj([]));
        if !block.JObj? then None
        else
          var items := Iter(GetOr(block.members, "dependency", JArr([])));
          if items.None? then None
          else
            var ds := ImportDeps(sid.value.s, items.value);
            if ds.None? then None
            else
              GuessKeyFound(stype.value.s, s.members);
              Some((Node(sid.value.s, stype.value.s, pk.GetOr("custom:parameters"), params), ds.value))
  }

  /** `nodes[sid] = node` (a new id goes last) and the node's dependencies appended. */
  function Store(g: Graph, n: Node, ds: seq<Dependency>): Graph {
    Graph(if n.id in g.nodes then g.order else g.order + [n.id], g.nodes[n.id := n], g.deps + ds)
  }

  /** Importing the subservices `subs` into the graph built so far; `None` as soon as one is malformed. */
  function ImportInto(g: Graph, subs: seq<Json>): Option<Graph>
    decreases |subs|
  {
    if subs == [] then Some(g)
    else
      var one := ImportOne(subs[0]);
      if one.None? then None else ImportInto(Store(g, one.value.0, one.value.1), subs[1..])
  }

  /** Importing fails exactly when one of the subservices cannot be imported. */
  lemma {:induction false} ImportIntoFails(g: Graph, subs: seq<Json>)
    ensures ImportInto(g, subs).None? <==> exists k :: 0 <= k < |subs| && ImportOne(subs[k]).None?
    decreases |subs|
  {
    if subs != [] {
      var one := ImportOne(subs[0]);
      if one.None? {
        assert ImportOne(subs[0]).None?;
      } else {
        var rest := subs[1..];
        ImportIntoFails(Store(g, one.value.0, one.value.1), rest);
        SubsShift(subs);
      }
    }
  }

  /** Some subservice fails to import exactly when one after the first does, given the first imports. */
  lemma SubsShift(subs: seq<Json>)
    requires subs != [] && ImportOne(subs[0]).Some?
    ensures (exists k :: 0 <= k < |subs| && ImportOne(subs[k]).None?)
        <==> (exists k :: 0 <= k < |subs[1..]| && ImportOne(subs[1..][k]).None?)
  {
    var rest := subs[1..];
    if exists k :: 0 <= k < |subs| && ImportOne(subs[k]).None? {
      var k :| 0 <= k < |subs| && ImportOne(subs[k]).None?;
      assert rest[k - 1] == subs[k];
    }
    if exists k :: 0 <= k < |rest| && ImportOne(rest[k]).None? {
      var k :| 0 <= k < |rest| && ImportOne(rest[k]).None?;
      assert subs[k + 1] == rest[k];
    }
  }

  const EmptyGraph := Graph([], map[], [])

  /** The graph a document imports to (`doc` is `None` when the file is not JSON), or `None` on error. */
  function ImportDoc(doc: Option<Json>): Option<Graph> {
    if doc.None? then None
    else
      var subs := SubservicesOf(doc.value);
      if subs.None? then None else ImportInto(EmptyGraph, subs.value)
  }

  lemma {:induction false} ImportIntoWellFormed(g: Graph, subs: seq<Json>)
    requires WellFormed(g)
    ensures ImportInto(g, subs).Some? ==> WellFormed(ImportInto(g, subs).value)
    decreases |subs|
  {
    if subs != [] {
      var one := ImportOne(subs[0]);
      if one.Some? {
        StoreWellFormed(g, one.value.0, one.value.1);
        ImportIntoWellFormed(Store(g, one.value.0, one.value.1), subs[1..]);
      }
    }
  }

  /** An imported graph keeps the invariant: every dependency leaves an imported node. */
  lemma ImportDocWellFormed(doc: Option<Json>)
    ensures ImportDoc(doc).Some? ==> WellFormed(ImportDoc(doc).value)
  {
    if doc.Some? && SubservicesOf(doc.value).Some? {
      ImportIntoWellFormed(EmptyGraph, SubservicesOf(doc.value).value);
    }
  }

  /** A dependency without a `dependency-type` imports as `impacting`. */
  lemma ImportDepDefaultType(sid: string, members: seq<(string, Json)>, dst: string)
    requires Get(members, "id") == Some(JStr(dst))
    requires !HasKey(members, "dependency-type")
    ensures ImportDep(sid, JObj(members)) == Some(Dependency(sid, dst, "impacting"))
  {
    GetFinds(members, "dependency-type");
  }

  /**
   * An imported node holds the subservice's id and type; when no
   * parameters key can be guessed it gets `custom:parameters` and empty
   * parameters, otherwise the guessed key and the value stored under it.
   */
  lemma ImportOneNode(s: Json)
    requires ImportOne(s).Some?
    ensures s.JObj?
    ensures var n := ImportOne(s).value.0;
      && Get(s.members, "id") == Some(JStr(n.id))
      && Get(s.members, "type") == Some(JStr(n.nodeType))
      && (GuessKey(n.nodeType, s.members).None? ==> n.paramsKey == "custom:parameters" && n.params == JObj([]))
      && (GuessKey(n.nodeType, s.members).Some? ==>
           n.paramsKey == GuessKey(n.nodeType, s.members).value && Get(s.members, n.paramsKey) == Some(n.params))
  {
    var n := ImportOne(s).value.0;
    GuessKeyFound(n.nodeType, s.members);
    if GuessKey(n.nodeType, s.members).Some? {
      GetFinds(s.members, n.paramsKey);
    }
  }

  // ---------------------------------------------------------------------
  // The drawn graph (lines 238-242)
  // ---------------------------------------------------------------------

  /**
   * The labelled edges of the directed graph that is drawn: a dependency
   * becomes an edge only when both of its ends are nodes; a later
   * dependency between the same two nodes relabels the edge.
   */
  function DrawnEdges(nodes: map<string, Node>, deps: seq<Dependency>): (edges: map<(string, string), string>)
    ensures forall e :: e in edges <==>
      exists k :: 0 <= k < |deps| && deps[k].src in nodes && deps[k].dst in nodes && (deps[k].src, deps[k].dst) == e
  {
    if deps == [] then map[]
    else
      var before := DrawnEdges(nodes, deps[..|deps| - 1]);
      var d := deps[|deps| - 1];
      assert forall k :: 0 <= k < |deps| - 1 ==> deps[..|deps| - 1][k] == deps[k];
      if d.src in nodes && d.dst in nodes then before[(d.src, d.dst) := d.depType] else before
  }

  /** An edge carries the dependency type of the last dependency between its two ends. */
  lemma {:induction false} DrawnEdgeLabel(nodes: map<string, Node>, deps: seq<Dependency>, k: nat)
    requires k < |deps| && deps[k].src in nodes && deps[k].dst in nodes
    requires forall j :: k < j < |deps| ==> (deps[j].src, deps[j].dst) != (deps[k].src, deps[k].dst)
    ensures DrawnEdges(nodes, deps)[(deps[k].src, deps[k].dst)] == deps[k].depType
    decreases |deps|
  {
    var init := deps[..|deps| - 1];
    if k < |deps| - 1 {
      assert init[k] == deps[k];
      DrawnEdgeLabel(nodes, init, k);
    }
  }

  // ---------------------------------------------------------------------
  // The editor session
  // ---------------------------------------------------------------------

  /** What the "Guardar" handler did. */
  datatype SaveOutcome = EmptyId | Duplicate | NullParams | Saved

  /**
   * Which branch of the save handler runs: a blank id is refused, so is an
   * existing id other than the selected one, and a parameter text that
   * decodes to `null` stores nothing.
   */
  function SaveDecision(selectedId: string, nodes: map<string, Node>, nodeId: string, params: Json): (o: SaveOutcome)
    ensures o == Saved <==> Strip(nodeId) != "" && (nodeId == selectedId || nodeId !in nodes) && params != JNull
    ensures o == NullParams <==> Strip(nodeId) != "" && (nodeId == selectedId || nodeId !in nodes) && params == JNull
    ensures o == EmptyId <==> Strip(nodeId) == ""
    ensures o == Duplicate <==> Strip(nodeId) != "" && nodeId != selectedId && nodeId in nodes
  {
    if Strip(nodeId) == "" then EmptyId
    else if nodeId != selectedId && nodeId in nodes then Duplicate
    else if params == JNull then NullParams
    else Saved
  }

  /** Lines 214-224: the preset loop, then the fallback loop over the subservice's keys. */
  method GuessParamsKey(stype: string, members: seq<(string, Json)>) returns (pk: Option<string>)
    ensures pk == GuessKey(stype, members)
  {
    for i := 0 to |TypePresets|
      invariant PresetKeyFrom(stype, members, 0) == PresetKeyFrom(stype, members, i)
    {
      var preset := TypePresets[i];
      if PresetApplies(stype, preset) && HasKey(members, preset.paramsKey) {
        return Some(preset.paramsKey);
      }
    }
    var keys := Keys(members);
    for i := 0 to |keys|
      invariant FallbackKeyFrom(keys, 0) == FallbackKeyFrom(keys, i)
    {
      if FallbackKey(keys[i]) {
        return Some(keys[i]);
      }
    }
    return None;
  }

  /** The body of the import loop for one subservice, with its loop over the dependency list. */
  method ImportSubservice(s: Json) returns (r: Option<(Node, seq<Dependency>)>)
    ensures r == ImportOne(s)
  {
    if !s.JObj? {
      return None;
    }
    var sid := Get(s.members, "id");
    var stype := Get(s.members, "type");
    if !(sid.Some? && sid.value.JStr? && stype.Some? && stype.value.JStr?) {
      return None;
    }
    var pk := GuessParamsKey(stype.value.s, s.members);
    var params := if pk.Some? then GetOr(s.members, pk.value, JObj([])) else JObj([]);
    var block := GetOr(s.members, "dependencies", JObj([]));
    if !block.JObj? {
      return None;
    }
    var items := Iter(GetOr(block.members, "dependency", JArr([])));
    if items.None? {
      return None;
    }
    var ds := [];
    assert items.value[0..] == items.value;
    assert ImportDeps(sid.value.s, items.value).Some? ==>
      [] + ImportDeps(sid.value.s, items.value).value == ImportDeps(sid.value.s, items.value).value;
    for k := 0 to |items.value|
      invariant ImportDeps(sid.value.s, items.value) == Prepend(ds, ImportDeps(sid.value.s, items.value[k..]))
    {
      assert items.value[k..][0] == items.value[k] && items.value[k..][1..] == items.value[k + 1..];
      var d := ImportDep(sid.value.s, items.value[k]);
      if d.None? {
        return None;
      }
      PrependTwice(ds, [d.value], ImportDeps(sid.value.s, items.value[k + 1..]));
      ds := ds + [d.value];
    }
    assert items.value[|items.value|..] == [] && ds + [] == ds;
    r := Some((Node(sid.value.s, stype.value.s, pk.GetOr("custom:parameters"), params), ds));
  }

  /** The state the session keys `nodes`, `dependencies` and `selected_id` hold. */
  class Editor {
    var order: seq<string>
    var nodes: map<string, Node>
    var deps: seq<Dependency>
    var selectedId: string

    ghost predicate Valid()
      reads this
    {
      WellFormed(Graph(order, nodes, deps))
    }

    /** `ensure_state` on a new session. */
    constructor ()
      ensures Valid()
      ensures order == [] && nodes == map[] && deps == [] && selectedId == ""
    {
      order := [];
      nodes := map[];
      deps := [];
      selectedId := "";
    }

    /**
     * Lines 115-139: the "Guardar" button. A saved node is stored under its
     * id (a new id goes last, an existing one keeps its place); the
     * dependencies leaving it are replaced by one per selected destination.
     */
    method Save(nodeId: string, preset: Preset, customType: string, paramsText: string, parsed: Option<Json>,
                depSelected: seq<string>, depType: string) returns (outcome: SaveOutcome)
      requires Valid()
      requires preset in TypePresets
      modifies this
      ensures Valid()
      ensures outcome == SaveDecision(old(selectedId), old(nodes), nodeId, ParseParams(paramsText, parsed))
      ensures outcome != Saved ==>
        order == old(order) && nodes == old(nodes) && deps == old(deps) && selectedId == old(selectedId)
      ensures outcome == Saved ==>
        && nodes == old(nodes)[nodeId := Node(nodeId, NodeType(preset, customType), preset.paramsKey, ParseParams(paramsText, parsed))]
        && order == (if nodeId in old(nodes) then old(order) else old(order) + [nodeId])
        && deps == DropSource(old(deps), nodeId) + Linked(nodeId, depSelected, depType)
        && selectedId == nodeId
    {
      var params := ParseParams(paramsText, parsed);
      outcome := SaveDecision(selectedId, nodes, nodeId, params);
      if outcome != Saved {
        return;
      }
      PresetKeysPlain(preset);
      Put(Node(nodeId, NodeType(preset, customType), preset.paramsKey, params));
      Relink(nodeId, depSelected, depType);
      selectedId := nodeId;
    }

    /** Lines 124-129: `nodes[node.id] = node`; a new id goes last, an existing one keeps its place. */
    method Put(node: Node)
      requires Valid() && PlainKey(node.paramsKey)
      modifies this
      ensures Valid()
      ensures nodes == old(nodes)[node.id := node]
      ensures order == (if node.id in old(nodes) then old(order) else old(order) + [node.id])
      ensures deps == old(deps) && selectedId == old(selectedId)
    {
      StoreWellFormed(Graph(order, nodes, deps), node, []);
      assert deps + [] == deps;
      if node.id !in nodes {
        order := order + [node.id];
      }
      nodes := nodes[node.id := node];
    }

    /** Lines 131-137: drop the dependencies leaving `nodeId`, then append one per selected destination. */
    method Relink(nodeId: string, depSelected: seq<string>, depType: string)
      requires Valid() && nodeId in nodes
      modifies this
      ensures Valid()
      ensures deps == DropSource(old(deps), nodeId) + Linked(nodeId, depSelected, depType)
      ensures order == old(order) && nodes == old(nodes) && selectedId == old(selectedId)
    {
      RelinkWellFormed(Graph(order, nodes, deps), nodeId, depSelected, depType);
      deps := DropSource(deps, nodeId);
      for k := 0 to |depSelected|
        invariant deps == DropSource(old(deps), nodeId) + Linked(nodeId, depSelected[..k], depType)
        invariant order == old(order) && nodes == old(nodes) && selectedId == old(selectedId)
      {
        LinkedStep(nodeId, depSelected, k, depType);
        deps := deps + [Dependency(nodeId, depSelected[k], depType)];
      }
      assert depSelected[..|depSelected|] == depSelected;
    }

    /**
     * Lines 141-145: deleting an existing node removes it with every
     * dependency that starts or ends at it and clears the selection; an
     * unknown id changes nothing.
     */
    method Delete(nodeId: string)
      requires Valid()
      modifies this
      ensures Valid()
      ensures nodeId !in old(nodes) ==>
        order == old(order) && nodes == old(nodes) && deps == old(deps) && selectedId == old(selectedId)
      ensures nodeId in old(nodes) ==>
        && nodes == old(nodes) - {nodeId} && order == Without(old(order), nodeId)
        && deps == DropNode(old(deps), nodeId) && selectedId == ""
      ensures forall d :: d in deps ==> d.src != nodeId || nodeId !in old(nodes)
      ensures forall d :: d in deps ==> d.dst != nodeId || nodeId !in old(nodes)
    {
      if nodeId in nodes {
        WithoutDistinct(order, nodeId);
        nodes := nodes - {nodeId};
        order := Without(order, nodeId);
        deps := DropNode(deps, nodeId);
        selectedId := "";
      }
    }

    /** The body of the loop of `build_json` for one node. */
    method SubserviceOf(node: Node) returns (entry: Json)
      requires PlainKey(node.paramsKey)
      ensures entry == Entry(node, Graph(order, nodes, deps))
    {
      var members := [("type", JStr(node.nodeType)), ("id", JStr(node.id))];
      if Truthy(node.params) {
        NewKey(members, node.paramsKey, node.params);
        members := Set(members, node.paramsKey, node.params);
      }
      var out := FromSource(deps, node.id);
      if out != [] {
        NewKey(members, "dependencies", DependenciesBlock(out, nodes));
        members := Set(members, "dependencies", DependenciesBlock(out, nodes));
      }
      entry := JObj(members);
    }

    /** `build_json`: one subservice per node, in the nodes dict's order. */
    method BuildJson() returns (doc: Json)
      requires Valid()
      ensures doc == Export(Graph(order, nodes, deps))
    {
      ghost var g := Graph(order, nodes, deps);
      var subs := [];
      for k := 0 to |order|
        invariant subs == Entries(g, order[..k])
      {
        var entry := SubserviceOf(nodes[order[k]]);
        assert order[..k + 1][..k] == order[..k];
        subs := subs + [entry];
      }
      assert order[..|order|] == order;
      doc := Document(subs);
    }

    /**
     * Lines 204-233: the uploaded document replaces the nodes and the
     * dependencies only once every subservice has been read; on any error
     * they stay as they were. The selection is never touched.
     */
    method Import(doc: Option<Json>) returns (ok: bool)
      requires Valid()
      modifies this
      ensures Valid()
      ensures ok <==> ImportDoc(doc).Some?
      ensures ok ==> Graph(order, nodes, deps) == ImportDoc(doc).value
      ensures !ok ==> order == old(order) && nodes == old(nodes) && deps == old(deps)
      ensures selectedId == old(selectedId)
    {
      if doc.None? {
        return false;
      }
      var subs := SubservicesOf(doc.value);
      if subs.None? {
        return false;
      }
      var g := EmptyGraph;
      assert subs.value[0..] == subs.value;
      for k := 0 to |subs.value|
        invariant ImportInto(EmptyGraph, subs.value) == ImportInto(g, subs.value[k..])
        invariant order == old(order) && nodes == old(nodes) && deps == old(deps) && selectedId == old(selectedId)
      {
        var one := ImportSubservice(subs.value[k]);
        assert subs.value[k..][0] == subs.value[k] && subs.value[k..][1..] == subs.value[k + 1..];
        if one.None? {
          return false;
        }
        g := Store(g, one.value.0, one.value.1);
      }
      ImportDocWellFormed(doc);
      order, nodes, deps := g.order, g.nodes, g.deps;
      ok := true;
    }

    /** Lines 147-149: "Limpiar" only forgets the selection. */
    method Clear()
      requires Valid()
      modifies this
      ensures Valid()
      ensures order == old(order) && nodes == old(nodes) && deps == old(deps) && selectedId == ""
    {
      selectedId := "";
    }
  }
}
