/**
 * The in-memory graph built from a fetched graph payload: its node and edge
 * lists, first-match node lookup and the directional edge filters.
 */
module GraphIndex {
  import opened Wrappers
  import opened Json
  import opened Entities

  /** The argument of `edges_for`: a node id string, or a node itself. */
  datatype NodeRef = ById(id: string) | Given(node: Entity)

  /** The four lists a graph holds once its payload has been converted. */
  datatype GraphFields = GraphFields(
    edges: seq<Entity>, nodes: seq<Entity>, nodeTypes: seq<Entity>, edgeTypes: seq<Entity>)

  // ---------------------------------------------------------------------------
  // Construction: `map(Edge, self.edges or [])` and its three siblings
  // ---------------------------------------------------------------------------

  /** The exception `dict(v)` raises for a list element that is not a JSON object. */
  function ConversionError(v: Value): Error {
    if v.Null? || v.Bool? || v.Int? then TypeError else ValueError
  }

  /** `map(Entity, items)`: converts every element, raising at the first one that is not an object. */
  function ToEntities(items: seq<Value>): (r: Result<seq<Entity>, Error>)
    ensures r.Success? ==> |r.value| == |items|
  {
    if items == [] then Success([])
    else if !items[0].Obj? then Failure(ConversionError(items[0]))
    else match ToEntities(items[1..])
      case Failure(err) => Failure(err)
      case Success(rest) => Success([items[0].fields] + rest)
  }

  /** `map(Entity, v or [])` for the value `v` a payload field reads as. */
  function EntityList(v: Value): (r: Result<seq<Entity>, Error>)
    ensures r.Success? && r.value != [] ==> v.Arr? && |r.value| == |v.items|
  {
    if !Truthy(v) then Success([])
    else match v
      case Arr(items) => ToEntities(items)
      case Str(_) => Failure(ValueError)
      case Obj(_) => Failure(ValueError)
      case _ => Failure(TypeError)
  }

  /** The payload fields `Graph.__init__` converts, in the order it converts them. */
  const ListKeys: seq<string> := ["edges", "nodes", "nodeTypes", "edgeTypes"]

  /**
   * The four conversions in the order `Graph.__init__` performs them; the
   * first to raise wins. An absent field reads as None and never makes
   * construction fail: only a field that is present and truthy can.
   */
  function ReadFields(payload: Entity): (r: Result<GraphFields, Error>)
    ensures r.Failure? ==> exists key | key in ListKeys :: key in payload && Truthy(payload[key])
    ensures (forall key | key in ListKeys :: key !in payload) ==> r == Success(GraphFields([], [], [], []))
  {
    var edges := EntityList(Attr(payload, "edges"));
    var nodes := EntityList(Attr(payload, "nodes"));
    var nodeTypes := EntityList(Attr(payload, "nodeTypes"));
    var edgeTypes := EntityList(Attr(payload, "edgeTypes"));
    if edges.Failure? then Failure(edges.error)
    else if nodes.Failure? then Failure(nodes.error)
    else if nodeTypes.Failure? then Failure(nodeTypes.error)
    else if edgeTypes.Failure? then Failure(edgeTypes.error)
    else Success(GraphFields(edges.value, nodes.value, nodeTypes.value, edgeTypes.value))
  }

  /** A list of JSON objects converts to the same entities, one per element, in order. */
  lemma {:induction false} ToEntitiesPreserves(items: seq<Value>)
    requires forall i | 0 <= i < |items| :: items[i].Obj?
    ensures ToEntities(items).Success?
    ensures |ToEntities(items).value| == |items|
    ensures forall i | 0 <= i < |items| :: items[i] == Obj(ToEntities(items).value[i])
  {
    if items != [] {
      ToEntitiesPreserves(items[1..]);
    }
  }

  /** The conversion raises exactly when some element is not an object, and then for the first such element. */
  lemma {:induction false} ToEntitiesFails(items: seq<Value>)
    ensures ToEntities(items).Failure? <==> exists i | 0 <= i < |items| :: !items[i].Obj?
    ensures ToEntities(items).Failure? ==>
      exists i | 0 <= i < |items| ::
        !items[i].Obj? && ToEntities(items).error == ConversionError(items[i]) &&
        forall j | 0 <= j < i :: items[j].Obj?
  {
    if items != [] {
      ToEntitiesFails(items[1..]);
      if items[0].Obj? && ToEntities(items).Failure? {
        var i :| 0 <= i < |items[1..]| && !items[1..][i].Obj? && ToEntities(items[1..]).error == ConversionError(items[1..][i]) &&
          forall j | 0 <= j < i :: items[1..][j].Obj?;
        assert !items[i + 1].Obj?;
        assert forall j | 0 <= j < i + 1 :: items[j].Obj? by {
          forall j | 0 <= j < i + 1 ensures items[j].Obj? {
            if j > 0 { assert items[j] == items[1..][j - 1]; }
          }
        }
      }
      if exists i | 0 <= i < |items| :: !items[i].Obj? {
        var i :| 0 <= i < |items| && !items[i].Obj?;
        if i > 0 { assert !items[1..][i - 1].Obj?; }
      }
    }
  }

  /** An absent (or falsy) payload field gives an empty list; a list of objects gives one entity per element, in order. */
  lemma EntityListNormalises(payload: Entity, key: string)
    ensures !Truthy(Attr(payload, key)) ==> EntityList(Attr(payload, key)) == Success([])
    ensures key !in payload ==> EntityList(Attr(payload, key)) == Success([])
    ensures (Attr(payload, key).Arr? && forall i | 0 <= i < |Attr(payload, key).items| :: Attr(payload, key).items[i].Obj?) ==>
      var items := Attr(payload, key).items;
      EntityList(Attr(payload, key)).Success? &&
      |EntityList(Attr(payload, key)).value| == |items| &&
      forall i | 0 <= i < |items| :: items[i] == Obj(EntityList(Attr(payload, key)).value[i])
  {
    var v := Attr(payload, key);
    if v.Arr? && forall i | 0 <= i < |v.items| :: v.items[i].Obj? {
      ToEntitiesPreserves(v.items);
    }
  }

  /** Conversion of a field raises exactly for a truthy value that is not a list, or a list with a non-object element. */
  lemma EntityListFails(v: Value)
    ensures EntityList(v).Failure? <==>
      Truthy(v) && (!v.Arr? || exists i | 0 <= i < |v.items| :: !v.items[i].Obj?)
  {
    if v.Arr? {
      ToEntitiesFails(v.items);
    }
  }

  // ---------------------------------------------------------------------------
  // Lookup and edge filters, on the lists
  // ---------------------------------------------------------------------------

  /** The first node of `nodes` whose `id` equals `id`, or None. */
  function FindNode(nodes: seq<Entity>, id: Value): (r: Option<Entity>)
    ensures r.Some? ==> r.value in nodes && Id(r.value) == id
  {
    if nodes == [] then None
    else if Id(nodes[0]) == id then Some(nodes[0])
    else FindNode(nodes[1..], id)
  }

  /** FindNode is a first-match search: None exactly when no node has the id, otherwise the earliest node that has it. */
  lemma {:induction false} FindNodeFirstMatch(nodes: seq<Entity>, id: Value)
    ensures FindNode(nodes, id).None? <==> forall k | 0 <= k < |nodes| :: Id(nodes[k]) != id
    ensures FindNode(nodes, id).Some? ==>
      exists k | 0 <= k < |nodes| ::
        nodes[k] == FindNode(nodes, id).value && Id(nodes[k]) == id &&
        forall j | 0 <= j < k :: Id(nodes[j]) != id
  {
    if nodes != [] && Id(nodes[0]) != id {
      FindNodeFirstMatch(nodes[1..], id);
      if FindNode(nodes, id).Some? {
        var k :| 0 <= k < |nodes[1..]| && nodes[1..][k] == FindNode(nodes, id).value && Id(nodes[1..][k]) == id &&
          forall j | 0 <= j < k :: Id(nodes[1..][j]) != id;
        assert nodes[k + 1] == nodes[1..][k];
        assert forall j | 0 <= j < k + 1 :: Id(nodes[j]) != id by {
          forall j | 0 <= j < k + 1 ensures Id(nodes[j]) != id {
            if j > 0 { assert nodes[j] == nodes[1..][j - 1]; }
          }
        }
      }
      if forall k | 0 <= k < |nodes[1..]| :: Id(nodes[1..][k]) != id {
        forall k | 0 <= k < |nodes| ensures Id(nodes[k]) != id {
          if k > 0 { assert nodes[k] == nodes[1..][k - 1]; }
        }
      }
    }
  }

  /** No two nodes of the list share an id. */
  ghost predicate DistinctIds(nodes: seq<Entity>) {
    forall i, j | 0 <= i < j < |nodes| :: Id(nodes[i]) != Id(nodes[j])
  }

  /**
   * Looking a node up by its own id finds a node with that id at or before it;
   * when ids are distinct it finds the node itself.
   */
  lemma {:induction false} FindNodeOfMember(nodes: seq<Entity>, k: nat)
    requires k < |nodes|
    ensures FindNode(nodes, Id(nodes[k])).Some?
    ensures Id(FindNode(nodes, Id(nodes[k])).value) == Id(nodes[k])
    ensures exists j | 0 <= j <= k :: FindNode(nodes, Id(nodes[k])) == Some(nodes[j])
    ensures DistinctIds(nodes) ==> FindNode(nodes, Id(nodes[k])) == Some(nodes[k])
  {
    if Id(nodes[0]) != Id(nodes[k]) {
      FindNodeOfMember(nodes[1..], k - 1);
      assert nodes[1..][k - 1] == nodes[k];
      var j :| 0 <= j <= k - 1 && FindNode(nodes[1..], Id(nodes[k])) == Some(nodes[1..][j]);
      assert nodes[1..][j] == nodes[j + 1];
      if DistinctIds(nodes) {
        assert DistinctIds(nodes[1..]) by {
          forall i, i' | 0 <= i < i' < |nodes[1..]| ensures Id(nodes[1..][i]) != Id(nodes[1..][i']) {
            assert nodes[1..][i] == nodes[i + 1] && nodes[1..][i'] == nodes[i' + 1];
          }
        }
      }
    }
  }

  /** `edge[key] == id`, for an edge known to have the key. */
  predicate Matches(edge: Entity, key: string, id: Value) {
    key in edge && edge[key] == id
  }

  /**
   * The list comprehension `[edge for edge in edges if edge[key] == node.id]`,
   * evaluated left to right: `edge[key]` raises KeyError when the edge lacks
   * the key, then `node.id` raises AttributeError when the node is None.
   */
  function Select(edges: seq<Entity>, key: string, node: Option<Entity>): (r: Result<seq<Entity>, Error>)
    ensures r.Success? ==> |r.value| <= |edges|
    ensures r.Success? && node.Some? ==> forall e | e in r.value :: e in edges && Matches(e, key, Id(node.value))
    ensures r.Success? && node.None? ==> edges == [] && r.value == []
  {
    if edges == [] then Success([])
    else if key !in edges[0] then Failure(KeyError(key))
    else if node.None? then Failure(AttributeError("id"))
    else match Select(edges[1..], key, node)
      case Failure(err) => Failure(err)
      case Success(rest) => Success(if edges[0][key] == Id(node.value) then [edges[0]] + rest else rest)
  }

  /** `sub` is `s` with some elements left out, the rest kept in order. */
  ghost predicate IsSubsequence(sub: seq<Entity>, s: seq<Entity>)
    decreases |s|
  {
    if sub == [] then true
    else if s == [] then false
    else (sub[0] == s[0] && IsSubsequence(sub[1..], s[1..])) || IsSubsequence(sub, s[1..])
  }

  /**
   * `selected` holds exactly the edges of `edges` whose `key` equals `id`:
   * in their original order, each as often as it occurs there, and nothing else.
   */
  ghost predicate IsSelection(selected: seq<Entity>, edges: seq<Entity>, key: string, id: Value) {
    && IsSubsequence(selected, edges)
    && forall e :: multiset(selected)[e] == if Matches(e, key, id) then multiset(edges)[e] else 0
  }

  /** The comprehension succeeds exactly when every edge has the key and, unless there are no edges, the node is not None. */
  lemma {:induction false} SelectSucceeds(edges: seq<Entity>, key: string, node: Option<Entity>)
    ensures Select(edges, key, node).Success? <==>
      (forall k | 0 <= k < |edges| :: key in edges[k]) && (edges != [] ==> node.Some?)
    ensures Select(edges, key, node).Failure? ==>
      edges != [] &&
      Select(edges, key, node).error == if node.None? && key in edges[0] then AttributeError("id") else KeyError(key)
  {
    if edges != [] && key in edges[0] && node.Some? {
      SelectSucceeds(edges[1..], key, node);
      if forall k | 0 <= k < |edges[1..]| :: key in edges[1..][k] {
        forall k | 0 <= k < |edges| ensures key in edges[k] {
          if k > 0 { assert edges[k] == edges[1..][k - 1]; }
        }
      } else {
        var k :| 0 <= k < |edges[1..]| && key !in edges[1..][k];
        assert key !in edges[k + 1];
      }
    }
  }

  /** What the comprehension returns for a node is the selection of the edges whose `key` is that node's id. */
  lemma {:induction false} SelectIsSelection(edges: seq<Entity>, key: string, n: Entity)
    requires Select(edges, key, Some(n)).Success?
    ensures IsSelection(Select(edges, key, Some(n)).value, edges, key, Id(n))
  {
    if edges != [] {
      var rest := Select(edges[1..], key, Some(n)).value;
      SelectIsSelection(edges[1..], key, n);
      var r := Select(edges, key, Some(n)).value;
      assert edges == [edges[0]] + edges[1..];
      assert multiset(edges) == multiset{edges[0]} + multiset(edges[1..]);
      if Matches(edges[0], key, Id(n)) {
        assert r == [edges[0]] + rest;
        assert r[0] == edges[0] && r[1..] == rest;
        assert multiset(r) == multiset{edges[0]} + multiset(rest);
      } else {
        assert r == rest;
        assert IsSubsequence(r, edges) by {
          if r != [] { assert IsSubsequence(r, edges[1..]); }
        }
      }
    } else {
      assert Select(edges, key, Some(n)).value == [];
    }
  }

  /** Every edge of a subsequence comes from the original list. */
  lemma {:induction false} SubsequenceMembers(sub: seq<Entity>, s: seq<Entity>)
    requires IsSubsequence(sub, s)
    ensures |sub| <= |s|
    ensures forall e | e in sub :: e in s
    decreases |s|
  {
    if sub != [] {
      if sub[0] == s[0] && IsSubsequence(sub[1..], s[1..]) {
        SubsequenceMembers(sub[1..], s[1..]);
        assert sub == [sub[0]] + sub[1..];
      } else {
        SubsequenceMembers(sub, s[1..]);
      }
    }
  }

  /** A selection contains an edge exactly when the edge is in the list and matches. */
  lemma SelectionMembers(selected: seq<Entity>, edges: seq<Entity>, key: string, id: Value)
    requires IsSelection(selected, edges, key, id)
    ensures |selected| <= |edges|
    ensures forall e :: e in selected <==> e in edges && Matches(e, key, id)
  {
    SubsequenceMembers(selected, edges);
    forall e ensures e in selected <==> e in edges && Matches(e, key, id) {
      assert e in selected <==> multiset(selected)[e] > 0;
      assert e in edges <==> multiset(edges)[e] > 0;
    }
  }

  // ---------------------------------------------------------------------------
  // The graph object
  // ---------------------------------------------------------------------------

  /** A fetched graph: the payload it was built from and the four lists `__init__` assigns, read-only afterwards. */
  class Graph {
    const payload: Entity
    const edges: seq<Entity>
    const nodes: seq<Entity>
    const nodeTypes: seq<Entity>
    const edgeTypes: seq<Entity>

    /** `Graph.__init__` on a payload whose four lists convert. */
    constructor (payload: Entity)
      requires ReadFields(payload).Success?
      ensures this.payload == payload
      ensures edges == ReadFields(payload).value.edges
      ensures nodes == ReadFields(payload).value.nodes
      ensures nodeTypes == ReadFields(payload).value.nodeTypes
      ensures edgeTypes == ReadFields(payload).value.edgeTypes
    {
      var fields := ReadFields(payload).value;
      this.payload := payload;
      edges := fields.edges;
      nodes := fields.nodes;
      nodeTypes := fields.nodeTypes;
      edgeTypes := fields.edgeTypes;
    }

    /** `Graph(**payload)`, including the exception raised when a list does not convert. */
    static method Load(payload: Entity) returns (r: Result<Graph, Error>)
      ensures r.Failure? <==> ReadFields(payload).Failure?
      ensures r.Failure? ==> r.error == ReadFields(payload).error
      ensures r.Success? ==>
        && fresh(r.value)
        && r.value.payload == payload
        && r.value.edges == ReadFields(payload).value.edges
        && r.value.nodes == ReadFields(payload).value.nodes
        && r.value.nodeTypes == ReadFields(payload).value.nodeTypes
        && r.value.edgeTypes == ReadFields(payload).value.edgeTypes
    {
      var fields := ReadFields(payload);
      if fields.Failure? {
        return Failure(fields.error);
      }
      var g := new Graph(payload);
      return Success(g);
    }

    /** `get_node`: the first node whose `id` equals `id`, or None. */
    method GetNode(id: Value) returns (r: Option<Entity>)
      ensures r == FindNode(nodes, id)
      ensures r.None? <==> forall k | 0 <= k < |nodes| :: Id(nodes[k]) != id
      ensures r.Some? ==>
        exists k | 0 <= k < |nodes| ::
          nodes[k] == r.value && Id(nodes[k]) == id &&
          forall j | 0 <= j < k :: Id(nodes[j]) != id
    {
      FindNodeFirstMatch(nodes, id);
      var i := 0;
      while i < |nodes|
        invariant 0 <= i <= |nodes|
        invariant FindNode(nodes[i..], id) == FindNode(nodes, id)
      {
        if Id(nodes[i]) == id {
          return Some(nodes[i]);
        }
        assert nodes[i..][1..] == nodes[i + 1..];
        i := i + 1;
      }
      return None;
    }

    /** The node `edges_for` compares against: an id string goes through `get_node` first. */
    function Resolve(node: NodeRef): Option<Entity>
    {
      match node
      case ById(id) => FindNode(nodes, Str(id))
      case Given(n) => Some(n)
    }

    /** `edges_for(node, direction)`: the edges whose `direction` field equals the node's id. */
    function EdgesFor(node: NodeRef, direction: string): (r: Result<seq<Entity>, Error>)
      ensures r.Success? <==>
        (forall k | 0 <= k < |edges| :: direction in edges[k]) && (edges != [] ==> Resolve(node).Some?)
      ensures r.Success? && Resolve(node).Some? ==> IsSelection(r.value, edges, direction, Id(Resolve(node).value))
      ensures r.Success? && Resolve(node).None? ==> edges == [] && r.value == []
      ensures r.Failure? ==>
        edges != [] &&
        r.error == if Resolve(node).None? && direction in edges[0] then AttributeError("id") else KeyError(direction)
    {
      SelectSucceeds(edges, direction, Resolve(node));
      var n := Resolve(node);
      if n.Some? && Select(edges, direction, n).Success? then
        SelectIsSelection(edges, direction, n.value);
        Select(edges, direction, n)
      else
        Select(edges, direction, n)
    }

    /** `edges_from`: the edges leaving the node, in list order. */
    function EdgesFrom(node: NodeRef): (r: Result<seq<Entity>, Error>)
      ensures r.Success? <==>
        (forall k | 0 <= k < |edges| :: "from" in edges[k]) && (edges != [] ==> Resolve(node).Some?)
      ensures r.Success? && Resolve(node).Some? ==> IsSelection(r.value, edges, "from", Id(Resolve(node).value))
      ensures r.Success? && Resolve(node).None? ==> edges == [] && r.value == []
      ensures r.Failure? ==>
        edges != [] &&
        r.error == if Resolve(node).None? && "from" in edges[0] then AttributeError("id") else KeyError("from")
    {
      EdgesFor(node, "from")
    }

    /** `edges_to`: the edges entering the node, in list order. */
    function EdgesTo(node: NodeRef): (r: Result<seq<Entity>, Error>)
      ensures r.Success? <==>
        (forall k | 0 <= k < |edges| :: "to" in edges[k]) && (edges != [] ==> Resolve(node).Some?)
      ensures r.Success? && Resolve(node).Some? ==> IsSelection(r.value, edges, "to", Id(Resolve(node).value))
      ensures r.Success? && Resolve(node).None? ==> edges == [] && r.value == []
      ensures r.Failure? ==>
        edges != [] &&
        r.error == if Resolve(node).None? && "to" in edges[0] then AttributeError("id") else KeyError("to")
    {
      EdgesFor(node, "to")
    }
  }

  /**
   * Passing an id string is passing the node `get_node` finds for it; when no
   * node has that id the call raises AttributeError unless there are no edges
   * at all (or the first one lacks the key, which raises KeyError first).
   */
  lemma EdgesForById(g: Graph, id: string, direction: string)
    ensures FindNode(g.nodes, Str(id)).Some? ==>
      g.EdgesFor(ById(id), direction) == g.EdgesFor(Given(FindNode(g.nodes, Str(id)).value), direction)
    ensures FindNode(g.nodes, Str(id)).None? && g.edges == [] ==> g.EdgesFor(ById(id), direction) == Success([])
    ensures FindNode(g.nodes, Str(id)).None? && g.edges != [] && direction in g.edges[0] ==>
      g.EdgesFor(ById(id), direction) == Failure(AttributeError("id"))
  {
  }
}
