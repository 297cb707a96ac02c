/** The aviation knowledge graph (analytics/knowledge_graph.py) and its consistency
    check (analytics/pipeline_integrity.py).

    The node and edge tables are sequences; the queries see every row, because each
    new row is flushed at once.  Fresh ids come from a counter.
 */
module KnowledgeGraph {
  import opened Common

  type Id = nat
  type Properties = map<string, string>

  datatype Key = Key(kind: string, entity: string)
  datatype Node = Node(id: Id, key: Key, title: string, properties: Properties, mentions: int)

  datatype Ends = Ends(source: Id, target: Id, kind: string)
  datatype Edge = Edge(id: Id, ends: Ends, weight: real, properties: Properties)

  datatype Graph = Graph(nodes: seq<Node>, edges: seq<Edge>, cache: map<Key, Id>, supply: Id)

  function FindNode(nodes: seq<Node>, key: Key): (r: Option<nat>)
    ensures r.Some? ==> r.value < |nodes| && nodes[r.value].key == key
    ensures r.None? ==> forall i | 0 <= i < |nodes| :: nodes[i].key != key
  {
    if nodes == [] then None
    else
      var r := FindNode(nodes[..|nodes| - 1], key);
      if r.Some? then r else if nodes[|nodes| - 1].key == key then Some(|nodes| - 1) else None
  }

  function FindEdge(edges: seq<Edge>, ends: Ends): (r: Option<nat>)
    ensures r.Some? ==> r.value < |edges| && edges[r.value].ends == ends
    ensures r.None? ==> forall i | 0 <= i < |edges| :: edges[i].ends != ends
  {
    if edges == [] then None
    else
      var r := FindEdge(edges[..|edges| - 1], ends);
      if r.Some? then r else if edges[|edges| - 1].ends == ends then Some(|edges| - 1) else None
  }

  // ----- ensure_node and ensure_edge -----

  function Mentioned(x: Node, properties: Properties): Node {
    x.(mentions := x.mentions + 1, properties := x.properties + properties)
  }

  function AfterNode(g: Graph, key: Key, title: string, properties: Properties): Graph {
    if key in g.cache then g
    else match FindNode(g.nodes, key)
      case Some(i) =>
        g.(nodes := g.nodes[i := Mentioned(g.nodes[i], properties)], cache := g.cache[key := g.nodes[i].id])
      case None =>
        Graph(g.nodes + [Node(g.supply, key, title, properties, 1)], g.edges, g.cache[key := g.supply], g.supply + 1)
  }

  function Strengthened(e: Edge, weight: real, properties: Properties): Edge {
    e.(weight := e.weight + weight, properties := e.properties + properties)
  }

  function AfterEdge(g: Graph, ends: Ends, weight: real, properties: Properties): Graph {
    match FindEdge(g.edges, ends)
    case Some(i) => g.(edges := g.edges[i := Strengthened(g.edges[i], weight, properties)])
    case None => g.(edges := g.edges + [Edge(g.supply, ends, weight, properties)], supply := g.supply + 1)
  }

  // ----- runs -----

  /** Join links the nodes that the builder was given for two keys. */
  datatype Op =
    | Touch(key: Key, title: string, properties: Properties)
    | Join(source: Key, target: Key, kind: string, weight: real, properties: Properties)

  predicate Ready(g: Graph, op: Op) {
    op.Join? ==> op.source in g.cache && op.target in g.cache
  }

  function EndsOf(g: Graph, op: Op): Ends
    requires op.Join? && Ready(g, op)
  {
    Ends(g.cache[op.source], g.cache[op.target], op.kind)
  }

  function Apply(g: Graph, op: Op): Graph
    requires Ready(g, op)
  {
    match op
    case Touch(key, title, properties) => AfterNode(g, key, title, properties)
    case Join(_, _, _, weight, properties) => AfterEdge(g, EndsOf(g, op), weight, properties)
  }

  predicate Touched(ops: seq<Op>, key: Key) {
    exists i :: 0 <= i < |ops| && ops[i].Touch? && ops[i].key == key
  }

  /** Edges are only asked for between nodes asked for before. */
  predicate Follows(ops: seq<Op>) {
    ops == []
    || var pre, op := ops[..|ops| - 1], ops[|ops| - 1];
       Follows(pre) && (op.Join? ==> Touched(pre, op.source) && Touched(pre, op.target))
  }

  /** A builder starts with an empty cache. */
  function Exec(g: Graph, ops: seq<Op>): (r: Graph)
    requires Follows(ops)
    ensures forall key | Touched(ops, key) :: key in r.cache
    decreases |ops|
  {
    if ops == [] then g.(cache := map[])
    else
      var pre, op := ops[..|ops| - 1], ops[|ops| - 1];
      var before := Exec(g, pre);
      assert forall key | Touched(ops, key) :: Touched(pre, key) || (op.Touch? && op.key == key) by {
        forall key | Touched(ops, key) ensures Touched(pre, key) || (op.Touch? && op.key == key) {
          var i :| 0 <= i < |ops| && ops[i].Touch? && ops[i].key == key;
          assert i < |pre| ==> pre[i] == ops[i];
        }
      }
      Apply(before, op)
  }

  lemma ExecExtend(g: Graph, ops: seq<Op>, op: Op)
    requires Follows(ops) && (op.Join? ==> Touched(ops, op.source) && Touched(ops, op.target))
    ensures Follows(ops + [op]) && Ready(Exec(g, ops), op)
    ensures Exec(g, ops + [op]) == Apply(Exec(g, ops), op)
  {
    assert (ops + [op])[..|ops|] == ops;
  }

  // ----- the invariant -----

  predicate HasId(nodes: seq<Node>, id: Id) {
    exists i :: 0 <= i < |nodes| && nodes[i].id == id
  }

  predicate UniqueNodes(nodes: seq<Node>) {
    forall i, j | 0 <= i < j < |nodes| :: nodes[i].key != nodes[j].key && nodes[i].id != nodes[j].id
  }

  predicate UniqueEdges(edges: seq<Edge>) {
    forall i, j | 0 <= i < j < |edges| :: edges[i].ends != edges[j].ends
  }

  predicate Anchored(nodes: seq<Node>, edges: seq<Edge>) {
    forall k | 0 <= k < |edges| :: HasId(nodes, edges[k].ends.source) && HasId(nodes, edges[k].ends.target)
  }

  /** The id under which the table keeps a key. */
  function IdOf(nodes: seq<Node>, key: Key): Option<Id> {
    var i := FindNode(nodes, key);
    if i.Some? then Some(nodes[i.value].id) else None
  }

  predicate CacheNames(g: Graph) {
    forall key | key in g.cache :: IdOf(g.nodes, key) == Some(g.cache[key])
  }

  predicate Sound(g: Graph) {
    && UniqueNodes(g.nodes) && UniqueEdges(g.edges) && Anchored(g.nodes, g.edges)
    && CacheNames(g) && forall i | 0 <= i < |g.nodes| :: g.nodes[i].id < g.supply
  }

  lemma FoundIsTheOne(nodes: seq<Node>, i: nat)
    requires UniqueNodes(nodes) && i < |nodes|
    ensures FindNode(nodes, nodes[i].key) == Some(i)
  {
  }

  /** Every id, and every key's id, stays what it was. */
  predicate KeepsIds(nodes: seq<Node>, later: seq<Node>) {
    |nodes| <= |later| && forall i | 0 <= i < |nodes| :: later[i].id == nodes[i].id && later[i].key == nodes[i].key
  }

  lemma KeptIds(nodes: seq<Node>, later: seq<Node>, edges: seq<Edge>)
    requires KeepsIds(nodes, later)
    ensures Anchored(nodes, edges) ==> Anchored(later, edges)
  {
    if Anchored(nodes, edges) {
      forall k | 0 <= k < |edges| ensures HasId(later, edges[k].ends.source) && HasId(later, edges[k].ends.target) {
        var i :| 0 <= i < |nodes| && nodes[i].id == edges[k].ends.source;
        var j :| 0 <= j < |nodes| && nodes[j].id == edges[k].ends.target;
        assert later[i].id == nodes[i].id && later[j].id == nodes[j].id;
      }
    }
  }

  lemma KeptKey(nodes: seq<Node>, later: seq<Node>, key: Key)
    requires KeepsIds(nodes, later) && UniqueNodes(later)
    ensures IdOf(nodes, key).Some? ==> IdOf(later, key) == IdOf(nodes, key)
  {
    var i := FindNode(nodes, key);
    if i.Some? {
      assert later[i.value].key == key;
      FoundIsTheOne(later, i.value);
    }
  }

  lemma CacheExtends(nodes: seq<Node>, later: seq<Node>, cache: map<Key, Id>, at: nat)
    requires KeepsIds(nodes, later) && UniqueNodes(later) && at < |later|
    requires forall k | k in cache :: IdOf(nodes, k) == Some(cache[k])
    ensures var c := cache[later[at].key := later[at].id]; forall k | k in c :: IdOf(later, k) == Some(c[k])
  {
    var c := cache[later[at].key := later[at].id];
    FoundIsTheOne(later, at);
    forall k | k in c ensures IdOf(later, k) == Some(c[k]) {
      if k != later[at].key {
        KeptKey(nodes, later, k);
      }
    }
  }

  lemma MentionKeepsIds(nodes: seq<Node>, i: nat, properties: Properties)
    requires i < |nodes| && UniqueNodes(nodes)
    ensures var later := nodes[i := Mentioned(nodes[i], properties)]; UniqueNodes(later) && KeepsIds(nodes, later)
  {
  }

  lemma AppendKeepsIds(nodes: seq<Node>, x: Node)
    requires UniqueNodes(nodes) && forall i | 0 <= i < |nodes| :: nodes[i].key != x.key && nodes[i].id != x.id
    ensures UniqueNodes(nodes + [x]) && KeepsIds(nodes, nodes + [x])
  {
  }

  lemma TouchKeepsSound(g: Graph, key: Key, title: string, properties: Properties)
    requires Sound(g)
    ensures var r := AfterNode(g, key, title, properties);
            Sound(r) && KeepsIds(g.nodes, r.nodes) && key in r.cache
  {
    var r := AfterNode(g, key, title, properties);
    if key !in g.cache {
      hide UniqueNodes, KeepsIds, Anchored, FindNode, IdOf;
      match FindNode(g.nodes, key) {
        case Some(i) =>
          MentionKeepsIds(g.nodes, i, properties);
          CacheExtends(g.nodes, r.nodes, g.cache, i);
        case None =>
          AppendKeepsIds(g.nodes, r.nodes[|g.nodes|]);
          CacheExtends(g.nodes, r.nodes, g.cache, |g.nodes|);
      }
      KeptIds(g.nodes, r.nodes, g.edges);
    }
  }

  lemma CachedHasId(g: Graph, key: Key)
    requires Sound(g) && key in g.cache
    ensures HasId(g.nodes, g.cache[key])
  {
    var i := FindNode(g.nodes, key);
    assert IdOf(g.nodes, key) == Some(g.cache[key]);
    assert g.nodes[i.value].id == g.cache[key];
  }

  lemma JoinKeepsSound(g: Graph, ends: Ends, weight: real, properties: Properties)
    requires Sound(g) && HasId(g.nodes, ends.source) && HasId(g.nodes, ends.target)
    ensures Sound(AfterEdge(g, ends, weight, properties))
  {
    var r := AfterEdge(g, ends, weight, properties);
    assert UniqueEdges(r.edges);
    forall k | 0 <= k < |r.edges|
      ensures HasId(r.nodes, r.edges[k].ends.source) && HasId(r.nodes, r.edges[k].ends.target)
    {
      if k < |g.edges| {
        assert r.edges[k].ends == g.edges[k].ends;
      } else {
        assert r.edges[k].ends == ends;
      }
    }
  }

  lemma ApplyKeepsSound(g: Graph, op: Op)
    requires Sound(g) && Ready(g, op)
    ensures Sound(Apply(g, op)) && KeepsIds(g.nodes, Apply(g, op).nodes)
  {
    match op {
      case Touch(key, title, properties) =>
        TouchKeepsSound(g, key, title, properties);
      case Join(source, target, _, weight, properties) =>
        CachedHasId(g, source);
        CachedHasId(g, target);
        JoinKeepsSound(g, EndsOf(g, op), weight, properties);
    }
  }

  /** Over any run: nodes stay unique by key and by id, edges by ends and kind, the
      cache always names the node of its key, no edge dangles, and no key ever
      changes its id. */
  lemma {:induction false} RunKeepsSound(g: Graph, ops: seq<Op>)
    requires Sound(g) && Follows(ops)
    ensures Sound(Exec(g, ops)) && KeepsIds(g.nodes, Exec(g, ops).nodes)
    decreases |ops|
  {
    if ops != [] {
      var pre := ops[..|ops| - 1];
      RunKeepsSound(g, pre);
      ApplyKeepsSound(Exec(g, pre), ops[|ops| - 1]);
    }
  }

  lemma FollowsBefore(ops: seq<Op>, k: nat)
    requires Follows(ops) && k <= |ops|
    ensures Follows(ops[..k])
    decreases |ops|
  {
    if k < |ops| {
      FollowsBefore(ops[..|ops| - 1], k);
      assert ops[..|ops| - 1][..k] == ops[..k];
    } else {
      assert ops[..k] == ops;
    }
  }

  /** Asking for a key twice in a run gives the same id: the one of its only node. */
  lemma {:induction false} RepeatsGiveTheSameId(g: Graph, ops: seq<Op>, k: nat, key: Key)
    requires Sound(g) && Follows(ops) && k <= |ops| && Follows(ops[..k]) && key in Exec(g, ops[..k]).cache
    ensures var first, last := Exec(g, ops[..k]), Exec(g, ops);
            && key in last.cache && last.cache[key] == first.cache[key]
            && IdOf(last.nodes, key) == Some(first.cache[key])
    decreases |ops|
  {
    RunKeepsSound(g, ops);
    if k == |ops| {
      assert ops[..k] == ops;
    } else {
      var pre := ops[..|ops| - 1];
      assert pre[..k] == ops[..k];
      RepeatsGiveTheSameId(g, pre, k, key);
      RunKeepsSound(g, pre);
      assert Exec(g, ops) == Apply(Exec(g, pre), ops[|ops| - 1]);
      hide Exec, Follows, Touched;
      CacheKeeps(Exec(g, pre), ops[|ops| - 1], key);
    }
  }

  lemma CacheKeeps(g: Graph, op: Op, key: Key)
    requires Sound(g) && Ready(g, op) && key in g.cache
    ensures var r := Apply(g, op); key in r.cache && r.cache[key] == g.cache[key]
  {
  }

  // ----- weights -----

  function WeightOf(edges: seq<Edge>, ends: Ends): real {
    var i := FindEdge(edges, ends);
    if i.Some? then edges[i.value].weight else 0.0
  }

  /** The sum of all weights passed for `ends` in a run. */
  function Passed(g: Graph, ops: seq<Op>, ends: Ends): real
    requires Follows(ops)
    decreases |ops|
  {
    if ops == [] then 0.0
    else
      var pre, op := ops[..|ops| - 1], ops[|ops| - 1];
      Passed(g, pre, ends)
        + if op.Join? && EndsOf(Exec(g, pre), op) == ends then op.weight else 0.0
  }

  lemma FoundEdgeIsTheOne(edges: seq<Edge>, i: nat)
    requires UniqueEdges(edges) && i < |edges|
    ensures FindEdge(edges, edges[i].ends) == Some(i)
  {
  }

  lemma FoundWeight(edges: seq<Edge>, k: nat)
    requires UniqueEdges(edges) && k < |edges|
    ensures WeightOf(edges, edges[k].ends) == edges[k].weight
  {
    FoundEdgeIsTheOne(edges, k);
  }

  lemma NoWeight(edges: seq<Edge>, ends: Ends)
    requires FindEdge(edges, ends).None?
    ensures WeightOf(edges, ends) == 0.0
  {
  }

  lemma EdgeAddsWeight(g: Graph, at: Ends, weight: real, properties: Properties, ends: Ends)
    requires UniqueEdges(g.edges)
    ensures WeightOf(AfterEdge(g, at, weight, properties).edges, ends)
            == WeightOf(g.edges, ends) + if at == ends then weight else 0.0
  {
    var r := AfterEdge(g, at, weight, properties).edges;
    assert UniqueEdges(r);
    match FindEdge(g.edges, at) {
      case Some(i) =>
        var y := Strengthened(g.edges[i], weight, properties);
        assert r == g.edges[i := y] && r[i] == y && y.ends == at == g.edges[i].ends;
        assert y.weight == g.edges[i].weight + weight;
        hide *;
        if at == ends {
          FoundWeight(r, i);
          FoundWeight(g.edges, i);
        } else {
          OtherEdge(g.edges, r, ends);
        }
      case None =>
        var y := Edge(g.supply, at, weight, properties);
        assert r == g.edges + [y] && r[|g.edges|] == y;
        hide *;
        if at == ends {
          FoundWeight(r, |g.edges|);
          NoWeight(g.edges, ends);
        } else {
          OtherEdge(g.edges, r, ends);
        }
    }
  }

  function PropertiesOf(edges: seq<Edge>, ends: Ends): Properties {
    var i := FindEdge(edges, ends);
    if i.Some? then edges[i.value].properties else map[]
  }

  lemma OtherEdge(edges: seq<Edge>, later: seq<Edge>, ends: Ends)
    requires UniqueEdges(later) && |edges| <= |later|
    requires forall k | 0 <= k < |later| ::
               if k < |edges| then later[k].ends == edges[k].ends && (edges[k].ends == ends ==> later[k] == edges[k])
               else later[k].ends != ends
    ensures PropertiesOf(later, ends) == PropertiesOf(edges, ends) && WeightOf(later, ends) == WeightOf(edges, ends)
  {
    var j := FindEdge(edges, ends);
    if j.Some? {
      FoundEdgeIsTheOne(later, j.value);
    }
  }

  lemma FoundProperties(edges: seq<Edge>, k: nat)
    requires UniqueEdges(edges) && k < |edges|
    ensures PropertiesOf(edges, edges[k].ends) == edges[k].properties
  {
    FoundEdgeIsTheOne(edges, k);
  }

  lemma NoProperties(edges: seq<Edge>, ends: Ends)
    requires FindEdge(edges, ends).None?
    ensures PropertiesOf(edges, ends) == map[]
  {
  }

  /** A request for an edge merges its properties into that edge alone. */
  lemma EdgeMergesProperties(g: Graph, at: Ends, weight: real, properties: Properties, ends: Ends)
    requires UniqueEdges(g.edges)
    ensures PropertiesOf(AfterEdge(g, at, weight, properties).edges, ends)
            == PropertiesOf(g.edges, ends) + if at == ends then properties else map[]
  {
    var r := AfterEdge(g, at, weight, properties).edges;
    assert UniqueEdges(r);
    match FindEdge(g.edges, at) {
      case Some(i) =>
        var y := Strengthened(g.edges[i], weight, properties);
        assert r == g.edges[i := y] && r[i] == y && y.ends == at == g.edges[i].ends;
        assert y.properties == g.edges[i].properties + properties;
        hide *;
        if at == ends {
          FoundProperties(r, i);
          FoundProperties(g.edges, i);
        } else {
          OtherEdge(g.edges, r, ends);
        }
      case None =>
        var y := Edge(g.supply, at, weight, properties);
        assert r == g.edges + [y] && r[|g.edges|] == y;
        hide *;
        if at == ends {
          FoundProperties(r, |g.edges|);
          NoProperties(g.edges, ends);
        } else {
          OtherEdge(g.edges, r, ends);
        }
    }
  }

  /** The weight of an edge is the sum of all weights ever passed for it. */
  lemma {:induction false} WeightsAddUp(g: Graph, ops: seq<Op>, ends: Ends)
    requires Sound(g) && Follows(ops)
    ensures WeightOf(Exec(g, ops).edges, ends) == WeightOf(g.edges, ends) + Passed(g, ops, ends)
    decreases |ops|
  {
    if ops != [] {
      var pre, op := ops[..|ops| - 1], ops[|ops| - 1];
      WeightsAddUp(g, pre, ends);
      RunKeepsSound(g, pre);
      if op.Join? {
        EdgeAddsWeight(Exec(g, pre), EndsOf(Exec(g, pre), op), op.weight, op.properties, ends);
      }
    }
  }

  /** The weight between the nodes of two keys. */
  function KeyWeight(g: Graph, source: Key, target: Key, kind: string): real {
    var i, j := IdOf(g.nodes, source), IdOf(g.nodes, target);
    if i.Some? && j.Some? then WeightOf(g.edges, Ends(i.value, j.value, kind)) else 0.0
  }

  function Asked(op: Op, source: Key, target: Key, kind: string): real {
    if op.Join? && op.source == source && op.target == target && op.kind == kind then op.weight else 0.0
  }

  /** The sum of all weights that a run asks for between two keys. */
  function Requested(ops: seq<Op>, source: Key, target: Key, kind: string): real {
    if ops == [] then 0.0
    else Requested(ops[..|ops| - 1], source, target, kind) + Asked(ops[|ops| - 1], source, target, kind)
  }

  lemma EndsAreOld(g: Graph, k: nat)
    requires Sound(g) && k < |g.edges|
    ensures g.edges[k].ends.source < g.supply && g.edges[k].ends.target < g.supply
  {
    assert HasId(g.nodes, g.edges[k].ends.source) && HasId(g.nodes, g.edges[k].ends.target);
  }

  lemma NoEdgeYet(g: Graph, ends: Ends)
    requires Sound(g) && (ends.source >= g.supply || ends.target >= g.supply)
    ensures WeightOf(g.edges, ends) == 0.0
  {
    forall k | 0 <= k < |g.edges| ensures g.edges[k].ends != ends {
      EndsAreOld(g, k);
    }
  }

  lemma NewKeyId(g: Graph, at: Key, title: string, properties: Properties, key: Key)
    requires Sound(g)
    ensures var r := IdOf(AfterNode(g, at, title, properties).nodes, key);
            if IdOf(g.nodes, key).Some? then r == IdOf(g.nodes, key) else r.Some? ==> r.value == g.supply
  {
    var r := AfterNode(g, at, title, properties);
    TouchKeepsSound(g, at, title, properties);
    KeptKey(g.nodes, r.nodes, key);
    if IdOf(g.nodes, key).None? {
      assert forall k | 0 <= k < |g.nodes| :: r.nodes[k].key == g.nodes[k].key != key;
    }
  }

  lemma TouchKeepsWeights(g: Graph, op: Op, source: Key, target: Key, kind: string)
    requires Sound(g) && op.Touch?
    ensures KeyWeight(Apply(g, op), source, target, kind) == KeyWeight(g, source, target, kind)
  {
    var r := Apply(g, op);
    var i, j := IdOf(r.nodes, source), IdOf(r.nodes, target);
    NewKeyId(g, op.key, op.title, op.properties, source);
    NewKeyId(g, op.key, op.title, op.properties, target);
    assert r.edges == g.edges;
    hide IdOf, AfterNode, Sound, WeightOf;
    if i.Some? && j.Some? && (i.value >= g.supply || j.value >= g.supply) {
      NoEdgeYet(g, Ends(i.value, j.value, kind));
    }
    KnownIdsAreOld(g, source);
    KnownIdsAreOld(g, target);
  }

  lemma KnownIdsAreOld(g: Graph, key: Key)
    requires Sound(g)
    ensures IdOf(g.nodes, key).Some? ==> IdOf(g.nodes, key).value < g.supply
  {
  }

  lemma CachedIdsDiffer(g: Graph, key: Key, other: Key)
    requires Sound(g) && key in g.cache
    ensures IdOf(g.nodes, key) == Some(g.cache[key])
    ensures IdOf(g.nodes, other) == Some(g.cache[key]) ==> other == key
  {
  }

  lemma JoinAddsWeight(g: Graph, op: Op, source: Key, target: Key, kind: string)
    requires Sound(g) && op.Join? && Ready(g, op)
    ensures KeyWeight(Apply(g, op), source, target, kind)
            == KeyWeight(g, source, target, kind) + Asked(op, source, target, kind)
  {
    var i, j := IdOf(g.nodes, source), IdOf(g.nodes, target);
    CachedIdsDiffer(g, op.source, source);
    CachedIdsDiffer(g, op.target, target);
    assert UniqueEdges(g.edges);
    assert Apply(g, op).nodes == g.nodes;
    hide IdOf, WeightOf, Sound, AfterEdge;
    if i.Some? && j.Some? {
      EdgeAddsWeight(g, EndsOf(g, op), op.weight, op.properties, Ends(i.value, j.value, kind));
    }
  }

  /** The weight between two keys grows by just what a run asks for between them. */
  lemma {:induction false} RequestsAddUp(g: Graph, ops: seq<Op>, source: Key, target: Key, kind: string)
    requires Sound(g) && Follows(ops)
    ensures KeyWeight(Exec(g, ops), source, target, kind)
            == KeyWeight(g, source, target, kind) + Requested(ops, source, target, kind)
    decreases |ops|
  {
    if ops != [] {
      var pre, op := ops[..|ops| - 1], ops[|ops| - 1];
      RunKeepsSound(g, pre);
      ExecExtend(g, pre, op);
      assert pre + [op] == ops;
      assert Requested(ops, source, target, kind) ==
        Requested(pre, source, target, kind) + Asked(op, source, target, kind);
      assert op.Touch? ==> Asked(op, source, target, kind) == 0.0;
      hide *;
      RequestsAddUp(g, pre, source, target, kind);
      if op.Touch? {
        TouchKeepsWeights(Exec(g, pre), op, source, target, kind);
      } else {
        JoinAddsWeight(Exec(g, pre), op, source, target, kind);
      }
    } else {
      assert Exec(g, ops) == g.(cache := map[]);
      hide IdOf, WeightOf;
    }
  }

  // ----- mentions -----

  function Mentions(nodes: seq<Node>, key: Key): int {
    var i := FindNode(nodes, key);
    if i.Some? then nodes[i.value].mentions else 0
  }

  lemma MentionsElsewhere(nodes: seq<Node>, later: seq<Node>, at: Key, key: Key)
    requires UniqueNodes(later) && at != key && |nodes| <= |later|
    requires forall k | 0 <= k < |nodes| ::
               later[k].key == nodes[k].key && (nodes[k].key != at ==> later[k] == nodes[k])
    requires forall k | |nodes| <= k < |later| :: later[k].key == at
    ensures Mentions(later, key) == Mentions(nodes, key)
  {
    var j := FindNode(nodes, key);
    if j.Some? {
      FoundIsTheOne(later, j.value);
    }
  }

  lemma FoundMentions(nodes: seq<Node>, i: nat)
    requires UniqueNodes(nodes) && i < |nodes|
    ensures Mentions(nodes, nodes[i].key) == nodes[i].mentions
  {
    FoundIsTheOne(nodes, i);
  }

  lemma NoMentions(nodes: seq<Node>, key: Key)
    requires FindNode(nodes, key).None?
    ensures Mentions(nodes, key) == 0
  {
  }

  lemma TouchCounts(g: Graph, at: Key, title: string, properties: Properties, key: Key)
    requires Sound(g)
    ensures Mentions(AfterNode(g, at, title, properties).nodes, key)
            == Mentions(g.nodes, key) + if at == key && key !in g.cache then 1 else 0
  {
    var r := AfterNode(g, at, title, properties).nodes;
    hide Sound, UniqueNodes, FindNode, KeepsIds, Mentions;
    TouchKeepsSound(g, at, title, properties);
    UniqueInSound(AfterNode(g, at, title, properties));
    UniqueInSound(g);
    if at !in g.cache {
      if at != key {
        MentionsElsewhere(g.nodes, r, at, key);
      } else {
        match FindNode(g.nodes, at) {
          case Some(i) =>
            FoundMentions(g.nodes, i);
            FoundMentions(r, i);
          case None =>
            NoMentions(g.nodes, at);
            FoundMentions(r, |g.nodes|);
        }
      }
    }
  }

  lemma UniqueInSound(g: Graph)
    requires Sound(g)
    ensures UniqueNodes(g.nodes)
  {
  }

  lemma TouchedExtend(ops: seq<Op>, op: Op, key: Key)
    ensures Touched(ops + [op], key) <==> Touched(ops, key) || (op.Touch? && op.key == key)
  {
    var all := ops + [op];
    if Touched(ops, key) {
      var i :| 0 <= i < |ops| && ops[i].Touch? && ops[i].key == key;
      assert all[i] == ops[i];
    }
    if op.Touch? && op.key == key {
      assert all[|ops|] == op;
    }
    if Touched(all, key) {
      var i :| 0 <= i < |all| && all[i].Touch? && all[i].key == key;
      assert i < |ops| ==> ops[i] == all[i];
    }
  }

  lemma ApplyCounts(g: Graph, op: Op, key: Key)
    requires Sound(g) && Ready(g, op)
    ensures var r := Apply(g, op);
            && Mentions(r.nodes, key)
               == Mentions(g.nodes, key) + (if op.Touch? && op.key == key && key !in g.cache then 1 else 0)
            && (key in r.cache <==> key in g.cache || (op.Touch? && op.key == key))
  {
    hide Sound, Mentions;
    if op.Touch? {
      TouchCounts(g, op.key, op.title, op.properties, key);
    }
  }

  /** A run adds one mention to a key however often it asks for it. */
  lemma {:induction false} OneMentionPerRun(g: Graph, ops: seq<Op>, key: Key)
    requires Sound(g) && Follows(ops)
    ensures Mentions(Exec(g, ops).nodes, key) == Mentions(g.nodes, key) + if Touched(ops, key) then 1 else 0
    ensures key in Exec(g, ops).cache <==> Touched(ops, key)
    decreases |ops|
  {
    if ops != [] {
      var pre, op := ops[..|ops| - 1], ops[|ops| - 1];
      RunKeepsSound(g, pre);
      ExecExtend(g, pre, op);
      assert pre + [op] == ops;
      TouchedExtend(pre, op, key);
      hide *;
      OneMentionPerRun(g, pre, key);
      ApplyCounts(Exec(g, pre), op, key);
    }
  }

  // ----- titles and properties -----

  function NodeOf(nodes: seq<Node>, key: Key): Option<Node> {
    var i := FindNode(nodes, key);
    if i.Some? then Some(nodes[i.value]) else None
  }

  /** The first request for a key in a run. */
  function FirstTouch(ops: seq<Op>, key: Key): (r: Option<Op>)
    ensures r.Some? <==> Touched(ops, key)
    ensures r.Some? ==> r.value in ops && r.value.Touch? && r.value.key == key
  {
    if ops == [] then None
    else
      var pre, op := ops[..|ops| - 1], ops[|ops| - 1];
      assert pre + [op] == ops;
      TouchedExtend(pre, op, key);
      if Touched(pre, key) then FirstTouch(pre, key) else if op.Touch? && op.key == key then Some(op) else None
  }

  /** A known node keeps its title and merges the properties; a new one has just what
      was asked for; its mentions go up by one. */
  predicate Written(was: Option<Node>, first: Op, now: Option<Node>)
    requires first.Touch?
  {
    now.Some? && now.value.key == first.key &&
    match was
    case Some(x) =>
      now.value == x.(properties := x.properties + first.properties, mentions := x.mentions + 1)
    case None =>
      now.value.title == first.title && now.value.properties == first.properties && now.value.mentions == 1
  }

  lemma TouchWrites(g: Graph, op: Op)
    requires Sound(g) && op.Touch? && op.key !in g.cache
    ensures Written(NodeOf(g.nodes, op.key), op, NodeOf(Apply(g, op).nodes, op.key))
  {
    var r := Apply(g, op).nodes;
    TouchKeepsSound(g, op.key, op.title, op.properties);
    UniqueInSound(Apply(g, op));
    match FindNode(g.nodes, op.key) {
      case Some(i) =>
        assert r[i].key == op.key;
        FoundIsTheOne(r, i);
      case None =>
        FoundIsTheOne(r, |g.nodes|);
    }
  }

  lemma OthersStay(g: Graph, op: Op, key: Key)
    requires Sound(g) && Ready(g, op) && (op.Touch? ==> op.key != key || key in g.cache)
    ensures NodeOf(Apply(g, op).nodes, key) == NodeOf(g.nodes, key)
  {
    if op.Touch? && op.key !in g.cache {
      var r := Apply(g, op).nodes;
      TouchKeepsSound(g, op.key, op.title, op.properties);
      UniqueInSound(Apply(g, op));
      match FindNode(g.nodes, op.key) {
        case Some(i) =>
          assert r == g.nodes[i := Mentioned(g.nodes[i], op.properties)] && g.nodes[i].key == r[i].key == op.key;
          hide *;
          SameNode(g.nodes, r, op.key, key);
        case None =>
          assert r == g.nodes + [Node(g.supply, op.key, op.title, op.properties, 1)];
          hide *;
          SameNode(g.nodes, r, op.key, key);
      }
    }
  }

  lemma SameNode(nodes: seq<Node>, later: seq<Node>, at: Key, key: Key)
    requires UniqueNodes(later) && at != key && |nodes| <= |later|
    requires forall k | 0 <= k < |later| ::
               if k < |nodes| then nodes[k].key == later[k].key && (nodes[k].key != at ==> later[k] == nodes[k])
               else later[k].key == at
    ensures NodeOf(later, key) == NodeOf(nodes, key)
  {
    var i := FindNode(nodes, key);
    if i.Some? {
      FoundIsTheOne(later, i.value);
    }
  }

  /** In a run only the first request for a key writes to its node. */
  lemma {:induction false} FirstTouchWrites(g: Graph, ops: seq<Op>, key: Key)
    requires Sound(g) && Follows(ops)
    ensures var was, now, first := NodeOf(g.nodes, key), NodeOf(Exec(g, ops).nodes, key), FirstTouch(ops, key);
            if first.Some? then Written(was, first.value, now) else now == was
    decreases |ops|
  {
    if ops != [] {
      var pre, op := ops[..|ops| - 1], ops[|ops| - 1];
      RunKeepsSound(g, pre);
      ExecExtend(g, pre, op);
      assert pre + [op] == ops;
      TouchedExtend(pre, op, key);
      OneMentionPerRun(g, pre, key);
      assert FirstTouch(ops, key) == if Touched(pre, key) then FirstTouch(pre, key)
                                     else if op.Touch? && op.key == key then Some(op) else None;
      hide *;
      FirstTouchWrites(g, pre, key);
      if op.Touch? && op.key == key && !Touched(pre, key) {
        TouchWrites(Exec(g, pre), op);
      } else {
        OthersStay(Exec(g, pre), op, key);
      }
    }
  }

  // ----- the consistency check -----

  datatype Issue = EdgesWithoutNodes | OrphanEdges(count: nat)

  datatype Report = Report(valid: bool, nodeCount: nat, edgeCount: nat, issues: seq<Issue>)

  function Orphans(nodes: seq<Node>, edges: seq<Edge>): nat {
    if edges == [] then 0
    else
      Orphans(nodes, edges[..|edges| - 1]) + if HasId(nodes, edges[|edges| - 1].ends.source) then 0 else 1
  }

  /** validate_graph_consistency when both tables can be read. */
  method ValidateGraphConsistency(nodes: seq<Node>, edges: seq<Edge>) returns (report: Report)
    ensures report.valid <==> forall k | 0 <= k < |edges| :: HasId(nodes, edges[k].ends.source)
    ensures report.valid <==> report.issues == []
    ensures report.nodeCount == |nodes| && report.edgeCount == |edges|
    ensures var orphans := Orphans(nodes, edges);
            report.issues == (if edges != [] && nodes == [] then [EdgesWithoutNodes] else [])
                             + (if orphans > 0 then [OrphanEdges(orphans)] else [])
  {
    var issues: seq<Issue> := [];
    if |edges| > 0 && |nodes| == 0 {
      issues := issues + [EdgesWithoutNodes];
    }
    if |edges| > 0 {
      var orphans := 0;
      for k := 0 to |edges|
        invariant orphans == Orphans(nodes, edges[..k])
      {
        assert edges[..k + 1][..k] == edges[..k];
        if !HasId(nodes, edges[k].ends.source) {
          orphans := orphans + 1;
        }
      }
      assert edges[..|edges|] == edges;
      if orphans != 0 {
        issues := issues + [OrphanEdges(orphans)];
      }
    }
    NoOrphansExactlyWhen(nodes, edges);
    report := Report(issues == [], |nodes|, |edges|, issues);
    if edges != [] && nodes == [] {
      assert issues[0] == EdgesWithoutNodes;
      assert !HasId(nodes, edges[0].ends.source);
    }
    if Orphans(nodes, edges) > 0 {
      assert issues[|issues| - 1] == OrphanEdges(Orphans(nodes, edges));
    }
  }

  lemma {:induction false} NoOrphansExactlyWhen(nodes: seq<Node>, edges: seq<Edge>)
    ensures Orphans(nodes, edges) == 0 <==> forall k | 0 <= k < |edges| :: HasId(nodes, edges[k].ends.source)
  {
    if edges != [] {
      NoOrphansExactlyWhen(nodes, edges[..|edges| - 1]);
    }
  }

  /** After any run the check has nothing to report. */
  lemma RunsLeaveNoOrphans(g: Graph, ops: seq<Op>)
    requires Sound(g) && Follows(ops)
    ensures Orphans(Exec(g, ops).nodes, Exec(g, ops).edges) == 0
  {
    RunKeepsSound(g, ops);
    NoOrphansExactlyWhen(Exec(g, ops).nodes, Exec(g, ops).edges);
  }

  /** The check looks at sources only: an edge to a missing node goes unreported. */
  lemma DanglingTargetIsMissed() returns (nodes: seq<Node>, edges: seq<Edge>)
    ensures Orphans(nodes, edges) == 0 && edges != [] && !Anchored(nodes, edges)
  {
    nodes := [Node(0, Key("airline", "a"), "A", map[], 1)];
    edges := [Edge(1, Ends(0, 7, "country_of"), 1.0, map[])];
    assert nodes[0].id == 0 && HasId(nodes, 0) && !HasId(nodes, 7);
    assert edges[..0] == [];
    assert edges[0].ends.target == 7;
  }

  // ----- what the builder asks for -----

  /** `countryKey` is the lower-case country. */
  datatype CorpusAirline = CorpusAirline(
    slug: string, name: string, country: string, countryKey: string, source: string)

  datatype Aircraft = Aircraft(slug: string, name: string)
  datatype Route = Route(origin: string, destination: string)
  datatype Disruption = Disruption(topic: string, title: string, present: bool)

  /** What was extracted from one review; the airline may be gone. */
  datatype Intelligence = Intelligence(
    airline: Option<CorpusAirline>,
    airports: seq<string>, aircraft: seq<Aircraft>, routes: seq<Route>, disruptions: seq<Disruption>)

  /** A node to be ensured and linked to an airline. */
  datatype Mention = Mention(key: Key, title: string, link: string, weight: real)

  function AirlineKey(a: CorpusAirline): Key { Key("airline", a.slug) }

  /** A node and, if its country is known, the country's node and the edge to it. */
  function PlaceOps(key: Key, title: string, properties: Properties, country: string, countryKey: string): seq<Op> {
    [Touch(key, title, properties)]
    + if country == "" then [] else
        [Touch(Key("country", countryKey), country, map[]),
         Join(key, Key("country", countryKey), "country_of", 1.0, map[])]
  }

  function AirlineProperties(a: CorpusAirline): Properties {
    map["country" := a.country, "source" := a.source]
  }

  function AirlineOps(a: CorpusAirline): seq<Op> {
    PlaceOps(AirlineKey(a), a.name, AirlineProperties(a), a.country, a.countryKey)
  }

  datatype Alliance = Alliance(slug: string, name: string)

  /** `code` is the IATA code, or the name where there is none. */
  datatype Airport = Airport(code: string, name: string, properties: Properties, country: string, countryKey: string)

  /** The master data; of the airline rows only their number matters. */
  datatype MasterData = MasterData(alliances: seq<Alliance>, airlineRows: nat, airports: seq<Airport>)

  function AllianceOps(alliances: seq<Alliance>): seq<Op> {
    if alliances == [] then []
    else
      var a := alliances[|alliances| - 1];
      AllianceOps(alliances[..|alliances| - 1]) + [Touch(Key("alliance", a.slug), a.name, map[])]
  }

  function AirportKey(p: Airport): Key { Key("airport", p.code) }

  function AirportOps(airports: seq<Airport>): seq<Op> {
    if airports == [] then []
    else
      var p := airports[|airports| - 1];
      AirportOps(airports[..|airports| - 1])
        + PlaceOps(AirportKey(p), p.name, p.properties, p.country, p.countryKey)
  }

  /** The first airline row ends the import: the code reads a field that the row lacks,
      and passes over the error. */
  function MasterOps(m: MasterData): seq<Op> {
    AllianceOps(m.alliances) + if m.airlineRows > 0 then [] else AirportOps(m.airports)
  }

  lemma {:induction false} AlliancesOnly(alliances: seq<Alliance>, key: Key)
    ensures Touched(AllianceOps(alliances), key) ==> key.kind == "alliance"
  {
    if alliances != [] {
      var a := alliances[|alliances| - 1];
      var pre := alliances[..|alliances| - 1];
      AlliancesOnly(pre, key);
      TouchedExtend(AllianceOps(pre), Touch(Key("alliance", a.slug), a.name, map[]), key);
    } else {
      assert !Touched([], key);
    }
  }

  lemma TouchedAppend(a: seq<Op>, b: seq<Op>, key: Key)
    ensures Touched(a + b, key) <==> Touched(a, key) || Touched(b, key)
  {
    var all := a + b;
    if Touched(a, key) {
      var i :| 0 <= i < |a| && a[i].Touch? && a[i].key == key;
      assert all[i] == a[i];
    }
    if Touched(b, key) {
      var i :| 0 <= i < |b| && b[i].Touch? && b[i].key == key;
      assert all[|a| + i] == b[i];
    }
    if Touched(all, key) {
      var i :| 0 <= i < |all| && all[i].Touch? && all[i].key == key;
      if i < |a| { assert a[i] == all[i]; } else { assert b[i - |a|] == all[i]; }
    }
  }

  lemma PlaceIsTouched(key: Key, title: string, properties: Properties, country: string, countryKey: string)
    ensures Touched(PlaceOps(key, title, properties, country, countryKey), key)
  {
    assert PlaceOps(key, title, properties, country, countryKey)[0] == Touch(key, title, properties);
  }

  lemma {:induction false} AirportsAreTouched(airports: seq<Airport>, i: nat)
    requires i < |airports|
    ensures Touched(AirportOps(airports), AirportKey(airports[i]))
    decreases |airports|
  {
    var pre, p := airports[..|airports| - 1], airports[|airports| - 1];
    var last := PlaceOps(AirportKey(p), p.name, p.properties, p.country, p.countryKey);
    hide PlaceOps, Touched;
    TouchedAppend(AirportOps(pre), last, AirportKey(airports[i]));
    if i < |pre| {
      assert pre[i] == airports[i];
      AirportsAreTouched(pre, i);
    } else {
      PlaceIsTouched(AirportKey(p), p.name, p.properties, p.country, p.countryKey);
    }
  }

  /** As the airline rows end the import, an airport of the master data gets its node
      from there exactly when there is no such row. */
  lemma AirportsAreImportedExactlyWhen(m: MasterData, i: nat)
    requires i < |m.airports|
    ensures Touched(MasterOps(m), AirportKey(m.airports[i])) <==> m.airlineRows == 0
  {
    var key := AirportKey(m.airports[i]);
    TouchedAppend(AllianceOps(m.alliances), if m.airlineRows > 0 then [] else AirportOps(m.airports), key);
    AlliancesOnly(m.alliances, key);
    assert !Touched([], key);
    hide Touched, AllianceOps, AirportOps;
    AirportsAreTouched(m.airports, i);
  }

  function AirportMentions(airports: seq<string>): seq<Mention> {
    if airports == [] then []
    else [Mention(Key("airport", airports[0]), airports[0], "operates_from", 0.5)] + AirportMentions(airports[1..])
  }

  function AircraftMentions(aircraft: seq<Aircraft>): seq<Mention> {
    if aircraft == [] then []
    else
      [Mention(Key("aircraft", aircraft[0].slug), aircraft[0].name, "flies_with", 1.0)]
      + AircraftMentions(aircraft[1..])
  }

  function RouteMentions(routes: seq<Route>): seq<Mention> {
    if routes == [] then []
    else
      var id := routes[0].origin + "-" + routes[0].destination;
      (if routes[0].origin != "" && routes[0].destination != "" then [Mention(Key("route", id), id, "flies_route", 1.0)]
       else [])
      + RouteMentions(routes[1..])
  }

  function TopicMentions(disruptions: seq<Disruption>): seq<Mention> {
    if disruptions == [] then []
    else
      (if disruptions[0].present
       then [Mention(Key("topic", disruptions[0].topic), disruptions[0].title, "complaint_about", 1.0)]
       else [])
      + TopicMentions(disruptions[1..])
  }

  function ReviewMentions(r: Intelligence): seq<Mention> {
    AirportMentions(r.airports) + AircraftMentions(r.aircraft) + RouteMentions(r.routes) + TopicMentions(r.disruptions)
  }

  function MentionOps(airline: Key, mentions: seq<Mention>): seq<Op> {
    if mentions == [] then []
    else
      var pre, m := mentions[..|mentions| - 1], mentions[|mentions| - 1];
      MentionOps(airline, pre) + [Touch(m.key, m.title, map[])] + [Join(airline, m.key, m.link, m.weight, map[])]
  }

  function ReviewOps(r: Intelligence): seq<Op> {
    if r.airline.None? then []
    else
      var a := r.airline.value;
      [Touch(AirlineKey(a), a.name, map[])] + MentionOps(AirlineKey(a), ReviewMentions(r))
  }

  function AllAirlineOps(airlines: seq<CorpusAirline>): seq<Op> {
    if airlines == [] then []
    else AllAirlineOps(airlines[..|airlines| - 1]) + AirlineOps(airlines[|airlines| - 1])
  }

  function AllReviewOps(reviews: seq<Intelligence>): seq<Op> {
    if reviews == [] then []
    else AllReviewOps(reviews[..|reviews| - 1]) + ReviewOps(reviews[|reviews| - 1])
  }

  // ----- every node is called for by the corpus -----

  predicate CallsAirline(a: CorpusAirline, op: Op)
    requires op.Touch?
  {
    && op.key == Key("airline", a.slug) && op.title == a.name
    && op.properties == map["country" := a.country, "source" := a.source]
  }

  predicate CallsCountry(country: string, key: string, op: Op)
    requires op.Touch?
  {
    country != "" && op == Touch(Key("country", key), country, map[])
  }

  predicate CallsAirport(p: Airport, op: Op)
    requires op.Touch?
  {
    op == Touch(Key("airport", p.code), p.name, p.properties)
  }

  ghost predicate CallsInReview(r: Intelligence, op: Op)
    requires op.Touch?
  {
    r.airline.Some? &&
    (op == Touch(Key("airline", r.airline.value.slug), r.airline.value.name, map[])
    || (exists code :: code in r.airports && op == Touch(Key("airport", code), code, map[]))
    || (exists x :: x in r.aircraft && op == Touch(Key("aircraft", x.slug), x.name, map[]))
    || (exists x :: x in r.routes && x.origin != "" && x.destination != ""
                    && op == Touch(Key("route", x.origin + "-" + x.destination),
                                   x.origin + "-" + x.destination, map[]))
    || (exists x :: x in r.disruptions && x.present && op == Touch(Key("topic", x.topic), x.title, map[])))
  }

  ghost predicate CalledFor(airlines: seq<CorpusAirline>, master: MasterData, reviews: seq<Intelligence>, op: Op)
    requires op.Touch?
  {
    || (exists a :: a in airlines && (CallsAirline(a, op) || CallsCountry(a.country, a.countryKey, op)))
    || (exists a :: a in master.alliances && op == Touch(Key("alliance", a.slug), a.name, map[]))
    || (master.airlineRows == 0 &&
        exists p :: p in master.airports && (CallsAirport(p, op) || CallsCountry(p.country, p.countryKey, op)))
    || CallsInSome(reviews, op)
  }

  lemma PlaceTouches(key: Key, title: string, properties: Properties, country: string, countryKey: string, op: Op)
    requires op.Touch?
    ensures op in PlaceOps(key, title, properties, country, countryKey) <==>
              op == Touch(key, title, properties) || CallsCountry(country, countryKey, op)
  {
  }

  lemma {:induction false} AirlinesTouch(airlines: seq<CorpusAirline>, op: Op)
    requires op.Touch?
    ensures op in AllAirlineOps(airlines) <==>
              exists a :: a in airlines && (CallsAirline(a, op) || CallsCountry(a.country, a.countryKey, op))
  {
    if airlines != [] {
      var pre, a := airlines[..|airlines| - 1], airlines[|airlines| - 1];
      AirlinesTouch(pre, op);
      PlaceTouches(AirlineKey(a), a.name, AirlineProperties(a), a.country, a.countryKey, op);
      assert op == Touch(AirlineKey(a), a.name, AirlineProperties(a)) <==> CallsAirline(a, op);
      assert airlines == pre + [a];
      hide PlaceOps, CallsAirline, CallsCountry;
    }
  }

  lemma {:induction false} AlliancesTouch(alliances: seq<Alliance>, op: Op)
    requires op.Touch?
    ensures op in AllianceOps(alliances) <==>
              exists a :: a in alliances && op == Touch(Key("alliance", a.slug), a.name, map[])
  {
    if alliances != [] {
      AlliancesTouch(alliances[..|alliances| - 1], op);
      assert alliances == alliances[..|alliances| - 1] + [alliances[|alliances| - 1]];
    }
  }

  lemma {:induction false} AirportsTouch(airports: seq<Airport>, op: Op)
    requires op.Touch?
    ensures op in AirportOps(airports) <==>
              exists p :: p in airports && (CallsAirport(p, op) || CallsCountry(p.country, p.countryKey, op))
  {
    if airports != [] {
      var pre, p := airports[..|airports| - 1], airports[|airports| - 1];
      AirportsTouch(pre, op);
      PlaceTouches(AirportKey(p), p.name, p.properties, p.country, p.countryKey, op);
      assert op == Touch(AirportKey(p), p.name, p.properties) <==> CallsAirport(p, op);
      assert airports == pre + [p];
      hide PlaceOps, CallsAirport, CallsCountry;
    }
  }

  lemma {:induction false} MentionsTouch(airline: Key, mentions: seq<Mention>, op: Op)
    requires op.Touch?
    ensures op in MentionOps(airline, mentions) <==>
              exists m :: m in mentions && op == Touch(m.key, m.title, map[])
  {
    if mentions != [] {
      MentionsTouch(airline, mentions[..|mentions| - 1], op);
      assert mentions == mentions[..|mentions| - 1] + [mentions[|mentions| - 1]];
    }
  }

  lemma {:induction false} MentionsOfAirports(airports: seq<string>, op: Op)
    requires op.Touch?
    ensures (exists m :: m in AirportMentions(airports) && op == Touch(m.key, m.title, map[])) <==>
              exists code :: code in airports && op == Touch(Key("airport", code), code, map[])
  {
    if airports != [] {
      MentionsOfAirports(airports[1..], op);
      assert airports == [airports[0]] + airports[1..];
      var m := Mention(Key("airport", airports[0]), airports[0], "operates_from", 0.5);
      assert AirportMentions(airports) == [m] + AirportMentions(airports[1..]);
      assert m in AirportMentions(airports);
    }
  }

  lemma {:induction false} MentionsOfAircraft(aircraft: seq<Aircraft>, op: Op)
    requires op.Touch?
    ensures (exists m :: m in AircraftMentions(aircraft) && op == Touch(m.key, m.title, map[])) <==>
              exists x :: x in aircraft && op == Touch(Key("aircraft", x.slug), x.name, map[])
  {
    if aircraft != [] {
      MentionsOfAircraft(aircraft[1..], op);
      assert aircraft == [aircraft[0]] + aircraft[1..];
      var m := Mention(Key("aircraft", aircraft[0].slug), aircraft[0].name, "flies_with", 1.0);
      assert AircraftMentions(aircraft) == [m] + AircraftMentions(aircraft[1..]);
      assert m in AircraftMentions(aircraft);
    }
  }

  lemma {:induction false} MentionsOfRoutes(routes: seq<Route>, op: Op)
    requires op.Touch?
    ensures (exists m :: m in RouteMentions(routes) && op == Touch(m.key, m.title, map[])) <==>
              exists x :: x in routes && x.origin != "" && x.destination != ""
                && op == Touch(Key("route", x.origin + "-" + x.destination), x.origin + "-" + x.destination, map[])
  {
    if routes != [] {
      var x := routes[0];
      MentionsOfRoutes(routes[1..], op);
      assert routes == [x] + routes[1..];
      var id := x.origin + "-" + x.destination;
      var m := Mention(Key("route", id), id, "flies_route", 1.0);
      if x.origin != "" && x.destination != "" {
        assert RouteMentions(routes) == [m] + RouteMentions(routes[1..]);
        assert m in RouteMentions(routes);
      } else {
        assert RouteMentions(routes) == RouteMentions(routes[1..]);
      }
    }
  }

  lemma {:induction false} MentionsOfTopics(disruptions: seq<Disruption>, op: Op)
    requires op.Touch?
    ensures (exists m :: m in TopicMentions(disruptions) && op == Touch(m.key, m.title, map[])) <==>
              exists x :: x in disruptions && x.present && op == Touch(Key("topic", x.topic), x.title, map[])
  {
    if disruptions != [] {
      var x := disruptions[0];
      MentionsOfTopics(disruptions[1..], op);
      assert disruptions == [x] + disruptions[1..];
      var m := Mention(Key("topic", x.topic), x.title, "complaint_about", 1.0);
      if x.present {
        assert TopicMentions(disruptions) == [m] + TopicMentions(disruptions[1..]);
        assert m in TopicMentions(disruptions);
      } else {
        assert TopicMentions(disruptions) == TopicMentions(disruptions[1..]);
      }
    }
  }

  lemma ReviewTouches(r: Intelligence, op: Op)
    requires op.Touch?
    ensures op in ReviewOps(r) <==> CallsInReview(r, op)
  {
    if r.airline.Some? {
      var a := r.airline.value;
      var ms := ReviewMentions(r);
      assert forall m :: m in ms <==>
          m in AirportMentions(r.airports) || m in AircraftMentions(r.aircraft)
          || m in RouteMentions(r.routes) || m in TopicMentions(r.disruptions);
      assert op in ReviewOps(r) <==>
          op == Touch(Key("airline", a.slug), a.name, map[]) || op in MentionOps(AirlineKey(a), ms);
      hide ReviewOps, MentionOps, ReviewMentions, AirportMentions, AircraftMentions, RouteMentions, TopicMentions;
      MentionsTouch(AirlineKey(a), ms, op);
      MentionsOfAirports(r.airports, op);
      MentionsOfAircraft(r.aircraft, op);
      MentionsOfRoutes(r.routes, op);
      MentionsOfTopics(r.disruptions, op);
    }
  }

  ghost predicate CallsInSome(reviews: seq<Intelligence>, op: Op)
    requires op.Touch?
  {
    exists r :: r in reviews && CallsInReview(r, op)
  }

  lemma CallsInMore(pre: seq<Intelligence>, r: Intelligence, op: Op)
    requires op.Touch?
    ensures CallsInSome(pre + [r], op) <==> CallsInSome(pre, op) || CallsInReview(r, op)
  {
    hide CallsInReview;
    assert forall x :: x in pre + [r] <==> x in pre || x == r;
  }

  lemma NoReviewsTouch(op: Op)
    requires op.Touch?
    ensures op !in AllReviewOps([]) && !CallsInSome([], op)
  {
    hide CallsInReview;
  }

  lemma ReviewsStep(pre: seq<Intelligence>, r: Intelligence, op: Op)
    ensures op in AllReviewOps(pre + [r]) <==> op in AllReviewOps(pre) || op in ReviewOps(r)
  {
    assert (pre + [r])[..|pre|] == pre;
    hide ReviewOps;
  }

  lemma {:induction false} ReviewsTouch(reviews: seq<Intelligence>, op: Op)
    requires op.Touch?
    ensures op in AllReviewOps(reviews) <==> CallsInSome(reviews, op)
  {
    hide *;
    if reviews == [] {
      NoReviewsTouch(op);
    } else {
      var pre, r := reviews[..|reviews| - 1], reviews[|reviews| - 1];
      assert reviews == pre + [r];
      ReviewsTouch(pre, op);
      ReviewTouches(r, op);
      ReviewsStep(pre, r, op);
      CallsInMore(pre, r, op);
    }
  }

  /** A build asks for just the nodes that the corpus calls for, by the keys, titles and
      properties that are its own. */
  lemma BuildTouches(airlines: seq<CorpusAirline>, master: MasterData, reviews: seq<Intelligence>, op: Op)
    requires op.Touch?
    ensures op in BuildOps(airlines, master, reviews) <==> CalledFor(airlines, master, reviews, op)
  {
    AirlinesTouch(airlines, op);
    AlliancesTouch(master.alliances, op);
    AirportsTouch(master.airports, op);
    ReviewsTouch(reviews, op);
    assert op in MasterOps(master) <==>
        op in AllianceOps(master.alliances) || (master.airlineRows == 0 && op in AirportOps(master.airports));
    assert op in BuildOps(airlines, master, reviews) <==>
        op in AllAirlineOps(airlines) || op in MasterOps(master) || op in AllReviewOps(reviews);
    hide AllAirlineOps, AllianceOps, AirportOps, AllReviewOps, MasterOps, BuildOps;
    hide CallsAirline, CallsCountry, CallsAirport, CallsInSome;
  }

  // ----- what a build adds to a weight -----

  lemma {:induction false} RequestedAppend(a: seq<Op>, b: seq<Op>, source: Key, target: Key, kind: string)
    ensures Requested(a + b, source, target, kind)
            == Requested(a, source, target, kind) + Requested(b, source, target, kind)
    decreases |b|
  {
    if b == [] {
      assert a + b == a;
    } else {
      RequestedAppend(a, b[..|b| - 1], source, target, kind);
      assert (a + b)[..|a + b| - 1] == a + b[..|b| - 1];
    }
  }

  lemma RequestedOne(op: Op, source: Key, target: Key, kind: string)
    ensures Requested([op], source, target, kind) == Asked(op, source, target, kind)
  {
    assert [op][..0] == [];
  }

  lemma PlacesAskNothing(key: Key, title: string, properties: Properties, country: string, countryKey: string,
                         source: Key, target: Key, kind: string)
    requires kind != "country_of"
    ensures Requested(PlaceOps(key, title, properties, country, countryKey), source, target, kind) == 0.0
  {
    var touch, place := Touch(key, title, properties), Key("country", countryKey);
    var t, j := Touch(place, country, map[]), Join(key, place, "country_of", 1.0, map[]);
    RequestedOne(touch, source, target, kind);
    RequestedOne(t, source, target, kind);
    RequestedOne(j, source, target, kind);
    RequestedAppend([t], [j], source, target, kind);
    assert [t, j] == [t] + [j];
    RequestedAppend([touch], if country == "" then [] else [t, j], source, target, kind);
  }

  lemma {:induction false} AirlinesAskNothing(airlines: seq<CorpusAirline>, source: Key, target: Key, kind: string)
    requires kind != "country_of"
    ensures Requested(AllAirlineOps(airlines), source, target, kind) == 0.0
  {
    if airlines != [] {
      var pre, a := airlines[..|airlines| - 1], airlines[|airlines| - 1];
      hide PlaceOps, Requested;
      AirlinesAskNothing(pre, source, target, kind);
      PlacesAskNothing(AirlineKey(a), a.name, AirlineProperties(a), a.country, a.countryKey, source, target, kind);
      RequestedAppend(AllAirlineOps(pre), AirlineOps(a), source, target, kind);
    }
  }

  lemma {:induction false} AirportsAskNothing(airports: seq<Airport>, source: Key, target: Key, kind: string)
    requires kind != "country_of"
    ensures Requested(AirportOps(airports), source, target, kind) == 0.0
  {
    if airports != [] {
      var pre, p := airports[..|airports| - 1], airports[|airports| - 1];
      hide PlaceOps, Requested;
      AirportsAskNothing(pre, source, target, kind);
      PlacesAskNothing(AirportKey(p), p.name, p.properties, p.country, p.countryKey, source, target, kind);
      RequestedAppend(AirportOps(pre), PlaceOps(AirportKey(p), p.name, p.properties, p.country, p.countryKey),
                      source, target, kind);
    }
  }

  lemma {:induction false} AlliancesAskNothing(alliances: seq<Alliance>, source: Key, target: Key, kind: string)
    ensures Requested(AllianceOps(alliances), source, target, kind) == 0.0
  {
    if alliances != [] {
      var pre, a := alliances[..|alliances| - 1], alliances[|alliances| - 1];
      AlliancesAskNothing(pre, source, target, kind);
      RequestedOne(Touch(Key("alliance", a.slug), a.name, map[]), source, target, kind);
      RequestedAppend(AllianceOps(pre), [Touch(Key("alliance", a.slug), a.name, map[])], source, target, kind);
    }
  }

  lemma MasterAsksNothing(m: MasterData, source: Key, target: Key, kind: string)
    requires kind != "country_of"
    ensures Requested(MasterOps(m), source, target, kind) == 0.0
  {
    AlliancesAskNothing(m.alliances, source, target, kind);
    AirportsAskNothing(m.airports, source, target, kind);
    RequestedAppend(AllianceOps(m.alliances), if m.airlineRows > 0 then [] else AirportOps(m.airports),
                    source, target, kind);
    hide AllianceOps, AirportOps;
  }

  /** The summed weights of the mentions that link to `target`. */
  function LinkWeight(mentions: seq<Mention>, target: Key, link: string): real {
    if mentions == [] then 0.0
    else
      var m := mentions[|mentions| - 1];
      LinkWeight(mentions[..|mentions| - 1], target, link)
        + if m.key == target && m.link == link then m.weight else 0.0
  }

  /** What the reviews of the airline with this slug add to a link. */
  function ReviewWeight(reviews: seq<Intelligence>, slug: string, target: Key, link: string): real {
    if reviews == [] then 0.0
    else
      var r := reviews[|reviews| - 1];
      ReviewWeight(reviews[..|reviews| - 1], slug, target, link)
        + if r.airline.Some? && r.airline.value.slug == slug then LinkWeight(ReviewMentions(r), target, link) else 0.0
  }

  lemma {:induction false} MentionsAsk(airline: Key, mentions: seq<Mention>, source: Key, target: Key, link: string)
    ensures Requested(MentionOps(airline, mentions), source, target, link)
            == if source == airline then LinkWeight(mentions, target, link) else 0.0
  {
    if mentions != [] {
      var pre, m := mentions[..|mentions| - 1], mentions[|mentions| - 1];
      var t, j := Touch(m.key, m.title, map[]), Join(airline, m.key, m.link, m.weight, map[]);
      MentionsAsk(airline, pre, source, target, link);
      RequestedOne(t, source, target, link);
      RequestedOne(j, source, target, link);
      RequestedAppend(MentionOps(airline, pre), [t], source, target, link);
      RequestedAppend(MentionOps(airline, pre) + [t], [j], source, target, link);
      hide Requested;
    }
  }

  lemma ReviewAsks(r: Intelligence, slug: string, target: Key, link: string)
    ensures Requested(ReviewOps(r), Key("airline", slug), target, link)
            == if r.airline.Some? && r.airline.value.slug == slug then LinkWeight(ReviewMentions(r), target, link)
               else 0.0
  {
    if r.airline.Some? {
      var a := r.airline.value;
      var source := Key("airline", slug);
      var t := Touch(AirlineKey(a), a.name, map[]);
      RequestedOne(t, source, target, link);
      MentionsAsk(AirlineKey(a), ReviewMentions(r), source, target, link);
      RequestedAppend([t], MentionOps(AirlineKey(a), ReviewMentions(r)), source, target, link);
      hide Requested, MentionOps, ReviewMentions, LinkWeight;
    }
  }

  lemma {:induction false} ReviewsAsk(reviews: seq<Intelligence>, slug: string, target: Key, link: string)
    ensures Requested(AllReviewOps(reviews), Key("airline", slug), target, link)
            == ReviewWeight(reviews, slug, target, link)
  {
    if reviews != [] {
      var pre, r := reviews[..|reviews| - 1], reviews[|reviews| - 1];
      hide Requested, ReviewOps, ReviewMentions, LinkWeight;
      ReviewsAsk(pre, slug, target, link);
      ReviewAsks(r, slug, target, link);
      RequestedAppend(AllReviewOps(pre), ReviewOps(r), Key("airline", slug), target, link);
    } else {
      assert Requested([], Key("airline", slug), target, link) == 0.0;
    }
  }

  function BuildOps(airlines: seq<CorpusAirline>, master: MasterData, reviews: seq<Intelligence>): seq<Op> {
    AllAirlineOps(airlines) + MasterOps(master) + AllReviewOps(reviews)
  }

  lemma BuildAddsRequested(g: Graph, before: seq<Op>, airlines: seq<CorpusAirline>, master: MasterData,
                           reviews: seq<Intelligence>, source: Key, target: Key, link: string)
    requires Sound(g) && Follows(before) && Follows(before + BuildOps(airlines, master, reviews))
    ensures KeyWeight(Exec(g, before + BuildOps(airlines, master, reviews)), source, target, link)
            == KeyWeight(Exec(g, before), source, target, link)
               + Requested(AllAirlineOps(airlines), source, target, link)
               + Requested(MasterOps(master), source, target, link)
               + Requested(AllReviewOps(reviews), source, target, link)
  {
    var build := BuildOps(airlines, master, reviews);
    assert build == AllAirlineOps(airlines) + MasterOps(master) + AllReviewOps(reviews);
    hide *;
    RequestsAddUp(g, before, source, target, link);
    RequestsAddUp(g, before + build, source, target, link);
    RequestedAppend(before, build, source, target, link);
    RequestedAppend(AllAirlineOps(airlines), MasterOps(master), source, target, link);
    RequestedAppend(AllAirlineOps(airlines) + MasterOps(master), AllReviewOps(reviews), source, target, link);
  }

  // ----- how often the corpus tells of something -----

  function Occurrences(codes: seq<string>, code: string): nat {
    if codes == [] then 0 else (if codes[0] == code then 1 else 0) + Occurrences(codes[1..], code)
  }

  function AircraftNamed(aircraft: seq<Aircraft>, slug: string): nat {
    if aircraft == [] then 0 else (if aircraft[0].slug == slug then 1 else 0) + AircraftNamed(aircraft[1..], slug)
  }

  /** Routes with both ends that read "origin-destination" as `id`. */
  function RoutesNamed(routes: seq<Route>, id: string): nat {
    if routes == [] then 0
    else
      var r := routes[0];
      (if r.origin != "" && r.destination != "" && r.origin + "-" + r.destination == id then 1 else 0)
      + RoutesNamed(routes[1..], id)
  }

  function Complaints(disruptions: seq<Disruption>, topic: string): nat {
    if disruptions == [] then 0
    else
      (if disruptions[0].topic == topic && disruptions[0].present then 1 else 0) + Complaints(disruptions[1..], topic)
  }

  datatype Told = OfAirport | OfAircraft | OfRoute | OfTopic

  function Tells(r: Intelligence, what: Told, entity: string): nat {
    match what
    case OfAirport => Occurrences(r.airports, entity)
    case OfAircraft => AircraftNamed(r.aircraft, entity)
    case OfRoute => RoutesNamed(r.routes, entity)
    case OfTopic => Complaints(r.disruptions, entity)
  }

  /** How often the reviews of an airline tell of an entity. */
  function Times(reviews: seq<Intelligence>, slug: string, what: Told, entity: string): nat {
    if reviews == [] then 0
    else
      var r := reviews[|reviews| - 1];
      Times(reviews[..|reviews| - 1], slug, what, entity)
        + if r.airline.Some? && r.airline.value.slug == slug then Tells(r, what, entity) else 0
  }

  function KindOf(what: Told): string {
    match what case OfAirport => "airport" case OfAircraft => "aircraft" case OfRoute => "route" case OfTopic => "topic"
  }

  function LinkOf(what: Told): string {
    match what
    case OfAirport => "operates_from"
    case OfAircraft => "flies_with"
    case OfRoute => "flies_route"
    case OfTopic => "complaint_about"
  }

  function UnitOf(what: Told): real {
    if what == OfAirport then 0.5 else 1.0
  }

  /** How often an airline of this slug is listed with this country. */
  function Listed(airlines: seq<CorpusAirline>, slug: string, country: string): nat {
    if airlines == [] then 0
    else
      var a := airlines[|airlines| - 1];
      Listed(airlines[..|airlines| - 1], slug, country)
        + if a.slug == slug && a.country != "" && a.countryKey == country then 1 else 0
  }

  /** How often an airport of this code is listed with this country. */
  function Placed(airports: seq<Airport>, code: string, country: string): nat {
    if airports == [] then 0
    else
      var p := airports[|airports| - 1];
      Placed(airports[..|airports| - 1], code, country)
        + if p.code == code && p.country != "" && p.countryKey == country then 1 else 0
  }

  lemma {:induction false} LinkWeightAppend(a: seq<Mention>, b: seq<Mention>, target: Key, link: string)
    ensures LinkWeight(a + b, target, link) == LinkWeight(a, target, link) + LinkWeight(b, target, link)
    decreases |b|
  {
    if b == [] {
      assert a + b == a;
    } else {
      LinkWeightAppend(a, b[..|b| - 1], target, link);
      assert (a + b)[..|a + b| - 1] == a + b[..|b| - 1];
    }
  }

  lemma {:induction false} NotLinked(mentions: seq<Mention>, target: Key, link: string)
    requires forall m | m in mentions :: m.link != link
    ensures LinkWeight(mentions, target, link) == 0.0
  {
    if mentions != [] {
      NotLinked(mentions[..|mentions| - 1], target, link);
    }
  }

  lemma {:induction false} AirportsTold(airports: seq<string>, code: string, link: string)
    ensures LinkWeight(AirportMentions(airports), Key("airport", code), link)
            == if link == "operates_from" then 0.5 * Occurrences(airports, code) as real else 0.0
  {
    if airports != [] {
      var m := Mention(Key("airport", airports[0]), airports[0], "operates_from", 0.5);
      AirportsTold(airports[1..], code, link);
      LinkWeightAppend([m], AirportMentions(airports[1..]), Key("airport", code), link);
      assert [m][..0] == [];
    }
  }

  lemma {:induction false} AircraftTold(aircraft: seq<Aircraft>, slug: string)
    ensures LinkWeight(AircraftMentions(aircraft), Key("aircraft", slug), "flies_with")
            == AircraftNamed(aircraft, slug) as real
  {
    if aircraft != [] {
      var m := Mention(Key("aircraft", aircraft[0].slug), aircraft[0].name, "flies_with", 1.0);
      AircraftTold(aircraft[1..], slug);
      LinkWeightAppend([m], AircraftMentions(aircraft[1..]), Key("aircraft", slug), "flies_with");
      assert [m][..0] == [];
    }
  }

  lemma {:induction false} RoutesTold(routes: seq<Route>, id: string)
    ensures LinkWeight(RouteMentions(routes), Key("route", id), "flies_route") == RoutesNamed(routes, id) as real
  {
    if routes != [] {
      var name := routes[0].origin + "-" + routes[0].destination;
      var m := Mention(Key("route", name), name, "flies_route", 1.0);
      RoutesTold(routes[1..], id);
      LinkWeightAppend([m], RouteMentions(routes[1..]), Key("route", id), "flies_route");
      assert [m][..0] == [] && [] + RouteMentions(routes[1..]) == RouteMentions(routes[1..]);
    }
  }

  lemma {:induction false} TopicsTold(disruptions: seq<Disruption>, topic: string)
    ensures LinkWeight(TopicMentions(disruptions), Key("topic", topic), "complaint_about")
            == Complaints(disruptions, topic) as real
  {
    if disruptions != [] {
      var m := Mention(Key("topic", disruptions[0].topic), disruptions[0].title, "complaint_about", 1.0);
      TopicsTold(disruptions[1..], topic);
      LinkWeightAppend([m], TopicMentions(disruptions[1..]), Key("topic", topic), "complaint_about");
      assert [m][..0] == [] && [] + TopicMentions(disruptions[1..]) == TopicMentions(disruptions[1..]);
    }
  }

  lemma {:induction false} AirportLinks(airports: seq<string>)
    ensures forall m | m in AirportMentions(airports) :: m.link == "operates_from"
  {
    if airports != [] { AirportLinks(airports[1..]); }
  }

  lemma {:induction false} AircraftLinks(aircraft: seq<Aircraft>)
    ensures forall m | m in AircraftMentions(aircraft) :: m.link == "flies_with"
  {
    if aircraft != [] { AircraftLinks(aircraft[1..]); }
  }

  lemma {:induction false} RouteLinks(routes: seq<Route>)
    ensures forall m | m in RouteMentions(routes) :: m.link == "flies_route"
  {
    if routes != [] { RouteLinks(routes[1..]); }
  }

  lemma {:induction false} TopicLinks(disruptions: seq<Disruption>)
    ensures forall m | m in TopicMentions(disruptions) :: m.link == "complaint_about"
  {
    if disruptions != [] { TopicLinks(disruptions[1..]); }
  }

  lemma LinkParts(r: Intelligence, target: Key, link: string)
    ensures LinkWeight(ReviewMentions(r), target, link)
            == LinkWeight(AirportMentions(r.airports), target, link)
               + LinkWeight(AircraftMentions(r.aircraft), target, link)
               + LinkWeight(RouteMentions(r.routes), target, link)
               + LinkWeight(TopicMentions(r.disruptions), target, link)
    ensures link != "operates_from" ==> LinkWeight(AirportMentions(r.airports), target, link) == 0.0
    ensures link != "flies_with" ==> LinkWeight(AircraftMentions(r.aircraft), target, link) == 0.0
    ensures link != "flies_route" ==> LinkWeight(RouteMentions(r.routes), target, link) == 0.0
    ensures link != "complaint_about" ==> LinkWeight(TopicMentions(r.disruptions), target, link) == 0.0
  {
    var a, b := AirportMentions(r.airports), AircraftMentions(r.aircraft);
    var c, d := RouteMentions(r.routes), TopicMentions(r.disruptions);
    assert ReviewMentions(r) == a + b + c + d;
    AirportLinks(r.airports);
    AircraftLinks(r.aircraft);
    RouteLinks(r.routes);
    TopicLinks(r.disruptions);
    hide *;
    if link != "operates_from" { NotLinked(a, target, link); }
    if link != "flies_with" { NotLinked(b, target, link); }
    if link != "flies_route" { NotLinked(c, target, link); }
    if link != "complaint_about" { NotLinked(d, target, link); }
    LinkWeightAppend(a, b, target, link);
    LinkWeightAppend(a + b, c, target, link);
    LinkWeightAppend(a + b + c, d, target, link);
  }

  lemma ReviewTells(r: Intelligence, what: Told, entity: string)
    ensures LinkWeight(ReviewMentions(r), Key(KindOf(what), entity), LinkOf(what))
            == UnitOf(what) * Tells(r, what, entity) as real
  {
    LinkParts(r, Key(KindOf(what), entity), LinkOf(what));
    hide LinkWeight, ReviewMentions, Occurrences, AircraftNamed, RoutesNamed, Complaints;
    match what {
      case OfAirport => AirportsTold(r.airports, entity, "operates_from");
      case OfAircraft => AircraftTold(r.aircraft, entity);
      case OfRoute => RoutesTold(r.routes, entity);
      case OfTopic => TopicsTold(r.disruptions, entity);
    }
  }

  lemma {:induction false} ReviewsTell(reviews: seq<Intelligence>, slug: string, what: Told, entity: string)
    ensures ReviewWeight(reviews, slug, Key(KindOf(what), entity), LinkOf(what))
            == UnitOf(what) * Times(reviews, slug, what, entity) as real
  {
    if reviews != [] {
      hide ReviewMentions, LinkWeight, Tells, KindOf, LinkOf, UnitOf;
      ReviewsTell(reviews[..|reviews| - 1], slug, what, entity);
      ReviewTells(reviews[|reviews| - 1], what, entity);
    }
  }

  lemma {:induction false} NoCountryTold(reviews: seq<Intelligence>, slug: string, target: Key)
    ensures ReviewWeight(reviews, slug, target, "country_of") == 0.0
  {
    if reviews != [] {
      hide ReviewMentions, LinkWeight;
      NoCountryTold(reviews[..|reviews| - 1], slug, target);
      LinkParts(reviews[|reviews| - 1], target, "country_of");
    }
  }

  lemma PlaceAsks(key: Key, title: string, properties: Properties, country: string, countryKey: string,
                  source: Key, target: string)
    ensures Requested(PlaceOps(key, title, properties, country, countryKey),
                      source, Key("country", target), "country_of")
            == if source == key && country != "" && countryKey == target then 1.0 else 0.0
  {
    var touch, place, to := Touch(key, title, properties), Key("country", countryKey), Key("country", target);
    var t, j := Touch(place, country, map[]), Join(key, place, "country_of", 1.0, map[]);
    RequestedOne(touch, source, to, "country_of");
    RequestedOne(t, source, to, "country_of");
    RequestedOne(j, source, to, "country_of");
    RequestedAppend([t], [j], source, to, "country_of");
    assert [t, j] == [t] + [j];
    RequestedAppend([touch], if country == "" then [] else [t, j], source, to, "country_of");
  }

  lemma {:induction false} AirlinesAskCountry(airlines: seq<CorpusAirline>, source: Key, country: string)
    ensures Requested(AllAirlineOps(airlines), source, Key("country", country), "country_of")
            == if source.kind == "airline" then Listed(airlines, source.entity, country) as real else 0.0
  {
    if airlines != [] {
      var pre, a := airlines[..|airlines| - 1], airlines[|airlines| - 1];
      hide PlaceOps, Requested;
      AirlinesAskCountry(pre, source, country);
      PlaceAsks(AirlineKey(a), a.name, AirlineProperties(a), a.country, a.countryKey, source, country);
      RequestedAppend(AllAirlineOps(pre), AirlineOps(a), source, Key("country", country), "country_of");
    } else {
      assert Requested([], source, Key("country", country), "country_of") == 0.0;
    }
  }

  lemma {:induction false} AirportsAskCountry(airports: seq<Airport>, source: Key, country: string)
    ensures Requested(AirportOps(airports), source, Key("country", country), "country_of")
            == if source.kind == "airport" then Placed(airports, source.entity, country) as real else 0.0
  {
    if airports != [] {
      var pre, p := airports[..|airports| - 1], airports[|airports| - 1];
      hide PlaceOps, Requested;
      AirportsAskCountry(pre, source, country);
      PlaceAsks(AirportKey(p), p.name, p.properties, p.country, p.countryKey, source, country);
      RequestedAppend(AirportOps(pre), PlaceOps(AirportKey(p), p.name, p.properties, p.country, p.countryKey),
                      source, Key("country", country), "country_of");
    } else {
      assert Requested([], source, Key("country", country), "country_of") == 0.0;
    }
  }

  lemma MasterAsksCountry(m: MasterData, source: Key, country: string)
    ensures Requested(MasterOps(m), source, Key("country", country), "country_of")
            == if source.kind == "airport" && m.airlineRows == 0 then Placed(m.airports, source.entity, country) as real
               else 0.0
  {
    var to := Key("country", country);
    AlliancesAskNothing(m.alliances, source, to, "country_of");
    AirportsAskCountry(m.airports, source, country);
    assert Requested([], source, to, "country_of") == 0.0;
    RequestedAppend(AllianceOps(m.alliances), if m.airlineRows > 0 then [] else AirportOps(m.airports),
                    source, to, "country_of");
    hide AllianceOps, AirportOps, Requested;
  }

  lemma {:induction false} ReviewsAskOfAirlines(reviews: seq<Intelligence>, source: Key, target: Key, link: string)
    requires source.kind != "airline"
    ensures Requested(AllReviewOps(reviews), source, target, link) == 0.0
  {
    if reviews != [] {
      var pre, r := reviews[..|reviews| - 1], reviews[|reviews| - 1];
      ReviewsAskOfAirlines(pre, source, target, link);
      RequestedAppend(AllReviewOps(pre), ReviewOps(r), source, target, link);
      assert Requested([], source, target, link) == 0.0;
      if r.airline.Some? {
        var a := r.airline.value;
        RequestedOne(Touch(AirlineKey(a), a.name, map[]), source, target, link);
        MentionsAsk(AirlineKey(a), ReviewMentions(r), source, target, link);
        RequestedAppend([Touch(AirlineKey(a), a.name, map[])], MentionOps(AirlineKey(a), ReviewMentions(r)),
                        source, target, link);
      }
      hide Requested, MentionOps, ReviewMentions, AllReviewOps;
    }
  }

  lemma BuildIs(before: seq<Op>, airlines: seq<CorpusAirline>, master: MasterData, reviews: seq<Intelligence>)
    ensures before + AllAirlineOps(airlines) + MasterOps(master) + AllReviewOps(reviews)
            == before + BuildOps(airlines, master, reviews)
  {
    var a, m, r := AllAirlineOps(airlines), MasterOps(master), AllReviewOps(reviews);
    assert BuildOps(airlines, master, reviews) == a + m + r;
    hide *;
    Regroup(before, a, m, r);
  }

  lemma Regroup(before: seq<Op>, a: seq<Op>, m: seq<Op>, r: seq<Op>)
    ensures before + a + m + r == before + (a + m + r)
  {
  }

  /** What the graph holds between an airline and an entity. */
  function Link(g: Graph, slug: string, kind: string, entity: string, link: string): real {
    KeyWeight(g, Key("airline", slug), Key(kind, entity), link)
  }

  function PlaceOf(g: Graph, code: string, country: string): real {
    KeyWeight(g, Key("airport", code), Key("country", country), "country_of")
  }

  /** A build adds to every link of an airline how often its reviews tell of the entity,
      one half each for airports. */
  lemma BuildAddsMentions(g: Graph, before: seq<Op>, airlines: seq<CorpusAirline>, master: MasterData,
                          reviews: seq<Intelligence>, slug: string, what: Told, entity: string)
    requires Sound(g) && Follows(before) && Follows(before + BuildOps(airlines, master, reviews))
    ensures Link(Exec(g, before + BuildOps(airlines, master, reviews)), slug, KindOf(what), entity, LinkOf(what))
            == Link(Exec(g, before), slug, KindOf(what), entity, LinkOf(what))
               + UnitOf(what) * Times(reviews, slug, what, entity) as real
  {
    var source, target, link := Key("airline", slug), Key(KindOf(what), entity), LinkOf(what);
    assert link != "country_of";
    hide KeyWeight, Exec, Follows, Sound, BuildOps, ReviewWeight, Times, Requested, KindOf, LinkOf, UnitOf;
    BuildAddsRequested(g, before, airlines, master, reviews, source, target, link);
    AirlinesAskNothing(airlines, source, target, link);
    MasterAsksNothing(master, source, target, link);
    ReviewsAsk(reviews, slug, target, link);
    ReviewsTell(reviews, slug, what, entity);
  }

  /** And to the link to a country how often the airline, or the airport, is listed
      with it. */
  lemma BuildAddsCountries(g: Graph, before: seq<Op>, airlines: seq<CorpusAirline>, master: MasterData,
                           reviews: seq<Intelligence>, name: string, country: string)
    requires Sound(g) && Follows(before) && Follows(before + BuildOps(airlines, master, reviews))
    ensures Link(Exec(g, before + BuildOps(airlines, master, reviews)), name, "country", country, "country_of")
            == Link(Exec(g, before), name, "country", country, "country_of") + Listed(airlines, name, country) as real
    ensures PlaceOf(Exec(g, before + BuildOps(airlines, master, reviews)), name, country)
            == PlaceOf(Exec(g, before), name, country)
               + if master.airlineRows == 0 then Placed(master.airports, name, country) as real else 0.0
  {
    var airline, airport, target := Key("airline", name), Key("airport", name), Key("country", country);
    hide KeyWeight, Exec, Follows, Sound, BuildOps, ReviewWeight, Requested, Listed, Placed;
    BuildAddsRequested(g, before, airlines, master, reviews, airline, target, "country_of");
    BuildAddsRequested(g, before, airlines, master, reviews, airport, target, "country_of");
    AirlinesAskCountry(airlines, airline, country);
    AirlinesAskCountry(airlines, airport, country);
    MasterAsksCountry(master, airline, country);
    MasterAsksCountry(master, airport, country);
    ReviewsAsk(reviews, name, target, "country_of");
    NoCountryTold(reviews, name, target);
    ReviewsAskOfAirlines(reviews, airport, target, "country_of");
  }

  /** All the weights of a name and an entity after a build. */
  ghost predicate Added(g: Graph, after: Graph, airlines: seq<CorpusAirline>, master: MasterData,
                        reviews: seq<Intelligence>, name: string, entity: string)
  {
    && Link(after, name, "airport", entity, "operates_from")
       == Link(g, name, "airport", entity, "operates_from") + 0.5 * Times(reviews, name, OfAirport, entity) as real
    && Link(after, name, "aircraft", entity, "flies_with")
       == Link(g, name, "aircraft", entity, "flies_with") + Times(reviews, name, OfAircraft, entity) as real
    && Link(after, name, "route", entity, "flies_route")
       == Link(g, name, "route", entity, "flies_route") + Times(reviews, name, OfRoute, entity) as real
    && Link(after, name, "topic", entity, "complaint_about")
       == Link(g, name, "topic", entity, "complaint_about") + Times(reviews, name, OfTopic, entity) as real
    && Link(after, name, "country", entity, "country_of")
       == Link(g, name, "country", entity, "country_of") + Listed(airlines, name, entity) as real
    && PlaceOf(after, name, entity)
       == PlaceOf(g, name, entity)
          + if master.airlineRows == 0 then Placed(master.airports, name, entity) as real else 0.0
  }

  lemma BuildAdds(g: Graph, before: seq<Op>, airlines: seq<CorpusAirline>, master: MasterData,
                  reviews: seq<Intelligence>, name: string, entity: string)
    requires Sound(g) && Follows(before) && Follows(before + BuildOps(airlines, master, reviews))
    ensures Added(Exec(g, before), Exec(g, before + BuildOps(airlines, master, reviews)),
                  airlines, master, reviews, name, entity)
  {
    hide Link, PlaceOf, Exec, Follows, Sound, BuildOps, Times, Listed, Placed;
    BuildAddsMentions(g, before, airlines, master, reviews, name, OfAirport, entity);
    BuildAddsMentions(g, before, airlines, master, reviews, name, OfAircraft, entity);
    BuildAddsMentions(g, before, airlines, master, reviews, name, OfRoute, entity);
    BuildAddsMentions(g, before, airlines, master, reviews, name, OfTopic, entity);
    BuildAddsCountries(g, before, airlines, master, reviews, name, entity);
  }

  // ----- the builder -----

  class AviationKnowledgeGraph {
    var nodes: seq<Node>
    var edges: seq<Edge>
    var nodeCache: map<Key, Id>
    var supply: Id

    /** The tables at the start and what has been asked for since. */
    ghost var stored: Graph
    ghost var done: seq<Op>

    function State(): Graph
      reads this
    {
      Graph(nodes, edges, nodeCache, supply)
    }

    ghost predicate Valid()
      reads this
    {
      Sound(stored) && Follows(done) && State() == Exec(stored, done)
    }

    lemma ValidIs()
      requires Valid()
      ensures Sound(stored) && Follows(done) && State() == Exec(stored, done)
    {
    }

    constructor (tables: Graph)
      requires Sound(tables)
      ensures Valid() && stored == tables && done == []
    {
      nodes, edges, nodeCache, supply := tables.nodes, tables.edges, map[], tables.supply;
      stored, done := tables, [];
    }

    method QueryNode(key: Key) returns (found: Option<nat>)
      requires UniqueNodes(nodes)
      ensures found == FindNode(nodes, key)
    {
      for k := 0 to |nodes|
        invariant forall i | 0 <= i < k :: nodes[i].key != key
      {
        if nodes[k].key == key {
          FoundIsTheOne(nodes, k);
          return Some(k);
        }
      }
      return None;
    }

    method QueryEdge(ends: Ends) returns (found: Option<nat>)
      requires UniqueEdges(edges)
      ensures found == FindEdge(edges, ends)
    {
      for k := 0 to |edges|
        invariant forall i | 0 <= i < k :: edges[i].ends != ends
      {
        if edges[k].ends == ends {
          FoundEdgeIsTheOne(edges, k);
          return Some(k);
        }
      }
      return None;
    }

    method MentionNode(i: nat, key: Key, properties: Properties) returns (id: Id)
      requires i < |nodes|
      modifies this`nodes, this`nodeCache
      ensures id == old(nodes)[i].id
      ensures nodes == old(nodes)[i := Mentioned(old(nodes)[i], properties)] && nodeCache == old(nodeCache)[key := id]
    {
      var node := nodes[i];
      id := node.id;
      nodes := nodes[i := node.(mentions := node.mentions + 1, properties := node.properties + properties)];
      nodeCache := nodeCache[key := id];
    }

    method AddNode(key: Key, title: string, properties: Properties) returns (id: Id)
      modifies this`nodes, this`nodeCache, this`supply
      ensures id == old(supply) && supply == old(supply) + 1
      ensures nodes == old(nodes) + [Node(id, key, title, properties, 1)] && nodeCache == old(nodeCache)[key := id]
    {
      id := supply;
      nodes := nodes + [Node(id, key, title, properties, 1)];
      supply := supply + 1;
      nodeCache := nodeCache[key := id];
    }

    method NodeFor(key: Key, title: string, properties: Properties) returns (id: Id)
      requires UniqueNodes(nodes)
      modifies this`nodes, this`nodeCache, this`supply
      ensures State() == AfterNode(old(State()), key, title, properties)
      ensures key in nodeCache && nodeCache[key] == id
      ensures forall k | k in old(nodeCache) :: k in nodeCache && nodeCache[k] == old(nodeCache)[k]
    {
      if key in nodeCache {
        return nodeCache[key];
      }
      hide FindNode;
      var found := QueryNode(key);
      if found.Some? {
        id := MentionNode(found.value, key, properties);
      } else {
        id := AddNode(key, title, properties);
      }
    }

    method EdgeFor(ends: Ends, weight: real, properties: Properties) returns (id: Id)
      requires UniqueEdges(edges)
      modifies this`edges, this`supply
      ensures State() == AfterEdge(old(State()), ends, weight, properties)
      ensures exists i :: 0 <= i < |edges| && edges[i].id == id && edges[i].ends == ends
    {
      hide FindEdge;
      var found := QueryEdge(ends);
      if found.Some? {
        var edge := edges[found.value];
        id := edge.id;
        edges := edges[found.value :=
          edge.(weight := edge.weight + weight, properties := edge.properties + properties)];
        assert edges[found.value].id == id && edges[found.value].ends == ends;
      } else {
        id := supply;
        edges := edges + [Edge(supply, ends, weight, properties)];
        assert edges[|edges| - 1].id == id && edges[|edges| - 1].ends == ends;
        supply := supply + 1;
      }
    }

    method EnsureNode(key: Key, title: string, properties: Properties) returns (id: Id)
      requires Valid()
      modifies this
      ensures Valid() && stored == old(stored) && done == old(done) + [Touch(key, title, properties)]
      ensures key in nodeCache && nodeCache[key] == id
      ensures forall k | k in old(nodeCache) :: k in nodeCache && nodeCache[k] == old(nodeCache)[k]
    {
      RunKeepsSound(stored, done);
      assert UniqueNodes(nodes);
      ExecExtend(stored, done, Touch(key, title, properties));
      hide Sound, Exec, Follows, AfterNode;
      id := NodeFor(key, title, properties);
      done := done + [Touch(key, title, properties)];
    }

    /** ensure_edge between two ids that ensure_node has returned, for `source` and
        `target`; the result is the id of the only edge with these ends and kind. */
    method EnsureEdge(sourceId: Id, targetId: Id, kind: string, weight: real, properties: Properties,
                      ghost source: Key, ghost target: Key) returns (id: Id)
      requires Valid() && Touched(done, source) && Touched(done, target)
      requires nodeCache[source] == sourceId && nodeCache[target] == targetId
      modifies this
      ensures Valid() && stored == old(stored) && done == old(done) + [Join(source, target, kind, weight, properties)]
      ensures nodeCache == old(nodeCache)
      ensures exists i :: 0 <= i < |edges| && edges[i].id == id && edges[i].ends == Ends(sourceId, targetId, kind)
    {
      RunKeepsSound(stored, done);
      assert UniqueEdges(edges);
      ghost var op := Join(source, target, kind, weight, properties);
      ExecExtend(stored, done, op);
      hide Sound, Exec, Follows, AfterEdge, Touched;
      id := EdgeFor(Ends(sourceId, targetId, kind), weight, properties);
      done := done + [op];
    }

    method AddPlace(key: Key, title: string, properties: Properties, country: string, countryKey: string)
      requires Valid()
      modifies this
      ensures Valid() && stored == old(stored)
      ensures done == old(done) + PlaceOps(key, title, properties, country, countryKey)
    {
      var id := EnsureNode(key, title, properties);
      if country != "" {
        var place := Key("country", countryKey);
        ghost var mid := done;
        var countryId := EnsureNode(place, country, map[]);
        TouchedExtend(old(done), Touch(key, title, properties), key);
        TouchedExtend(mid, Touch(place, country, map[]), key);
        TouchedExtend(mid, Touch(place, country, map[]), place);
        var edge := EnsureEdge(id, countryId, "country_of", 1.0, map[], key, place);
      }
    }

    /** The master-data part of the build. */
    method ImportMasterData(m: MasterData)
      requires Valid()
      modifies this
      ensures Valid() && stored == old(stored) && done == old(done) + MasterOps(m)
    {
      hide Sound, Exec, Follows, PlaceOps;
      for k := 0 to |m.alliances|
        invariant Valid() && stored == old(stored) && done == old(done) + AllianceOps(m.alliances[..k])
      {
        assert m.alliances[..k + 1][..k] == m.alliances[..k];
        var id := EnsureNode(Key("alliance", m.alliances[k].slug), m.alliances[k].name, map[]);
      }
      assert m.alliances[..|m.alliances|] == m.alliances;
      if m.airlineRows > 0 {
        return;
      }
      ghost var mid := done;
      for k := 0 to |m.airports|
        invariant Valid() && stored == old(stored) && done == mid + AirportOps(m.airports[..k])
      {
        assert m.airports[..k + 1][..k] == m.airports[..k];
        var p := m.airports[k];
        AddPlace(AirportKey(p), p.name, p.properties, p.country, p.countryKey);
      }
      assert m.airports[..|m.airports|] == m.airports;
    }

    method AddMentions(airlineId: Id, mentions: seq<Mention>, ghost airline: Key)
      requires Valid() && Touched(done, airline) && nodeCache[airline] == airlineId
      modifies this
      ensures Valid() && stored == old(stored) && done == old(done) + MentionOps(airline, mentions)
    {
      hide Sound, Exec, Follows, Touched;
      for k := 0 to |mentions|
        invariant Valid() && stored == old(stored) && Touched(done, airline) && nodeCache[airline] == airlineId
        invariant done == old(done) + MentionOps(airline, mentions[..k])
      {
        var m := mentions[k];
        ghost var before := done;
        assert mentions[..k + 1][..k] == mentions[..k];
        var id := EnsureNode(m.key, m.title, map[]);
        TouchedExtend(before, Touch(m.key, m.title, map[]), airline);
        TouchedExtend(before, Touch(m.key, m.title, map[]), m.key);
        ghost var mid := done;
        var edge := EnsureEdge(airlineId, id, m.link, m.weight, map[], airline, m.key);
        TouchedExtend(mid, Join(airline, m.key, m.link, m.weight, map[]), airline);
      }
      assert mentions[..|mentions|] == mentions;
    }

    method AddReview(r: Intelligence)
      requires Valid()
      modifies this
      ensures Valid() && stored == old(stored) && done == old(done) + ReviewOps(r)
    {
      if r.airline.None? {
        return;
      }
      var a := r.airline.value;
      var id := EnsureNode(AirlineKey(a), a.name, map[]);
      TouchedExtend(old(done), Touch(AirlineKey(a), a.name, map[]), AirlineKey(a));
      AddMentions(id, ReviewMentions(r), AirlineKey(a));
    }

    method AddAirlines(airlines: seq<CorpusAirline>)
      requires Valid()
      modifies this
      ensures Valid() && stored == old(stored) && done == old(done) + AllAirlineOps(airlines)
    {
      hide Sound, Exec, Follows, PlaceOps;
      for k := 0 to |airlines|
        invariant Valid() && stored == old(stored) && done == old(done) + AllAirlineOps(airlines[..k])
      {
        assert airlines[..k + 1][..k] == airlines[..k];
        var a := airlines[k];
        AddPlace(AirlineKey(a), a.name, AirlineProperties(a), a.country, a.countryKey);
      }
      assert airlines[..|airlines|] == airlines;
    }

    method AddReviews(reviews: seq<Intelligence>)
      requires Valid()
      modifies this
      ensures Valid() && stored == old(stored) && done == old(done) + AllReviewOps(reviews)
    {
      hide Sound, Exec, Follows, ReviewOps;
      for k := 0 to |reviews|
        invariant Valid() && stored == old(stored) && done == old(done) + AllReviewOps(reviews[..k])
      {
        assert reviews[..k + 1][..k] == reviews[..k];
        AddReview(reviews[k]);
      }
      assert reviews[..|reviews|] == reviews;
    }

    /** update_from_corpus: every mention of an airport in a review of an airline adds
        one half to the weight between them, every mention of an aircraft, a route or a
        complaint one, every listing with a country one. */
    method UpdateFromCorpus(airlines: seq<CorpusAirline>, master: MasterData, reviews: seq<Intelligence>)
      requires Valid()
      modifies this
      ensures Valid() && stored == old(stored)
      ensures done == old(done) + BuildOps(airlines, master, reviews)
      ensures forall name, entity :: Added(old(State()), State(), airlines, master, reviews, name, entity)
    {
      ghost var g, before := State(), done;
      assert g == Exec(stored, before) && Follows(before) && Sound(stored);
      hide *;
      AddAirlines(airlines);
      ImportMasterData(master);
      AddReviews(reviews);
      BuildIs(before, airlines, master, reviews);
      assert State() == Exec(stored, done) && Follows(done) by { ValidIs(); }
      forall name, entity ensures Added(g, State(), airlines, master, reviews, name, entity) {
        BuildAdds(stored, before, airlines, master, reviews, name, entity);
      }
    }
  }
}
