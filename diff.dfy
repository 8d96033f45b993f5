/// Comparing two architecture graphs (crates/phantom-analysis/src/diff.rs).
/// Nodes are identified by id; a node present in both graphs is modified
/// when its label, type, group or the edges touching it differ.
module Diff {
  import opened Wrappers
  import opened AnalysisParser

  /** `EdgeRef`: an edge with all four of its fields. */
  datatype EdgeRef = EdgeRef(source: string, target: string, edgeLabel: Option<string>, edgeType: string)

  /** The (source, target, label) tuple by which the edges touching a node are compared. */
  datatype EdgeKey = EdgeKey(source: string, target: string, edgeLabel: Option<string>)

  /** `NodeChange`; `before` and `after` are Rust's `old` and `new`. */
  datatype NodeChange =
    | LabelChanged(before: string, after: string)
    | TypeChanged(before: string, after: string)
    | GroupChanged(beforeGroup: Option<string>, afterGroup: Option<string>)
    | EdgesChanged

  /** `ModifiedNode`. */
  datatype ModifiedNode = ModifiedNode(id: string, changes: seq<NodeChange>)

  /** `GraphDiff`. The node and edge lists come out of hash sets in no
      particular order, so they are sets here; the modified nodes are listed
      in the order they are found. */
  datatype GraphDiff = GraphDiff(addedNodes: set<string>, removedNodes: set<string>,
                                 modifiedNodes: seq<ModifiedNode>,
                                 addedEdges: set<EdgeRef>, removedEdges: set<EdgeRef>)

  /** `edge_to_ref`. */
  function EdgeToRef(e: GraphEdge): (r: EdgeRef)
    ensures r.source == e.source && r.target == e.target && r.edgeLabel == e.edgeLabel && r.edgeType == e.edgeType
  {
    EdgeRef(e.source, e.target, e.edgeLabel, e.edgeType)
  }

  function Key(e: GraphEdge): EdgeKey {
    EdgeKey(e.source, e.target, e.edgeLabel)
  }

  /** The set of an edge list's references (`base_edge_set`, `branch_edge_set`). */
  function EdgeRefs(edges: seq<GraphEdge>): set<EdgeRef> {
    set i | 0 <= i < |edges| :: EdgeToRef(edges[i])
  }

  /** The node map built by `collect`: a later node with the same id replaces an earlier one. */
  function NodeMap(nodes: seq<GraphNode>): (m: map<string, GraphNode>)
    ensures forall id :: id in m ==> m[id].id == id
  {
    if nodes == [] then map[]
    else NodeMap(nodes[..|nodes| - 1])[nodes[|nodes| - 1].id := nodes[|nodes| - 1]]
  }

  /** The ids of a graph's nodes. */
  function Ids(g: ArchitectureGraph): set<string> {
    NodeMap(g.nodes).Keys
  }

  /** The node map has a key for every node id and no other. */
  lemma {:induction false} NodeMapKeys(nodes: seq<GraphNode>)
    ensures NodeMap(nodes).Keys == NodeIds(nodes)
  {
    if nodes != [] {
      NodeMapKeys(nodes[..|nodes| - 1]);
      NodeIdsSnoc(nodes);
    }
  }

  /** The node the map holds for an id is its last occurrence. */
  lemma {:induction false} NodeMapLast(nodes: seq<GraphNode>, i: nat)
    requires i < |nodes|
    requires forall j :: i < j < |nodes| ==> nodes[j].id != nodes[i].id
    ensures nodes[i].id in NodeMap(nodes) && NodeMap(nodes)[nodes[i].id] == nodes[i]
  {
    if i < |nodes| - 1 {
      var init := nodes[..|nodes| - 1];
      assert forall j :: i < j < |init| ==> init[j] == nodes[j];
      NodeMapLast(init, i);
    }
  }

  // ---------------------------------------------------------------------
  // Edges touching a node

  /** The edge sets of the nodes, or the empty set for a node with none (`unwrap_or_default`). */
  function EdgesAt(m: map<string, set<EdgeKey>>, id: string): set<EdgeKey> {
    if id in m then m[id] else {}
  }

  /** One iteration of `build_node_edge_sets`: the edge's tuple joins the
      sets of its source and of its target. */
  function AddEdge(m: map<string, set<EdgeKey>>, e: GraphEdge): map<string, set<EdgeKey>> {
    var m1 := m[e.source := EdgesAt(m, e.source) + {Key(e)}];
    m1[e.target := EdgesAt(m1, e.target) + {Key(e)}]
  }

  /** The per-node edge sets of an edge list. */
  function NodeEdgeSets(edges: seq<GraphEdge>): map<string, set<EdgeKey>> {
    if edges == [] then map[] else AddEdge(NodeEdgeSets(edges[..|edges| - 1]), edges[|edges| - 1])
  }

  lemma NodeEdgeSetsPrefix(edges: seq<GraphEdge>, i: nat)
    requires i < |edges|
    ensures NodeEdgeSets(edges[..i + 1]) == AddEdge(NodeEdgeSets(edges[..i]), edges[i])
  {
    assert edges[..i + 1][..i] == edges[..i];
  }

  /** `build_node_edge_sets`. */
  method BuildNodeEdgeSets(edges: seq<GraphEdge>) returns (m: map<string, set<EdgeKey>>)
    ensures m == NodeEdgeSets(edges)
  {
    m := map[];
    var i := 0;
    while i < |edges|
      invariant 0 <= i <= |edges|
      invariant m == NodeEdgeSets(edges[..i])
    {
      var edge := edges[i];
      var tuple := EdgeKey(edge.source, edge.target, edge.edgeLabel);
      NodeEdgeSetsPrefix(edges, i);
      m := m[edge.source := EdgesAt(m, edge.source) + {tuple}];
      m := m[edge.target := EdgesAt(m, edge.target) + {tuple}];
      i := i + 1;
    }
    assert edges[..i] == edges;
  }

  /** An edge touches a node when it starts or ends there. */
  predicate Touches(e: GraphEdge, id: string) {
    e.source == id || e.target == id
  }

  /** The tuples of the edges touching `id`. */
  function Touching(edges: seq<GraphEdge>, id: string): set<EdgeKey> {
    set i | 0 <= i < |edges| && Touches(edges[i], id) :: Key(edges[i])
  }

  lemma TouchingSnoc(edges: seq<GraphEdge>, id: string)
    requires edges != []
    ensures Touching(edges, id) == Touching(edges[..|edges| - 1], id)
                                   + (if Touches(edges[|edges| - 1], id) then {Key(edges[|edges| - 1])} else {})
  {
    var init := edges[..|edges| - 1];
    assert forall i :: 0 <= i < |init| ==> init[i] == edges[i];
  }

  /** The edge set built for a node holds exactly the tuples of the edges
      touching it, and a node has one exactly when some edge touches it. */
  lemma {:induction false} NodeEdgeSetsTouching(edges: seq<GraphEdge>, id: string)
    ensures EdgesAt(NodeEdgeSets(edges), id) == Touching(edges, id)
    ensures id in NodeEdgeSets(edges) <==> Touching(edges, id) != {}
  {
    if edges != [] {
      NodeEdgeSetsTouching(edges[..|edges| - 1], id);
      TouchingSnoc(edges, id);
    }
  }

  /** The edge type plays no part in the per-node comparison: edge lists
      that differ only in their types give the same edge sets. */
  lemma NodeEdgeSetsIgnoreType(edges: seq<GraphEdge>, others: seq<GraphEdge>)
    requires |edges| == |others|
    requires forall i :: 0 <= i < |edges| ==> Key(edges[i]) == Key(others[i])
    ensures NodeEdgeSets(edges) == NodeEdgeSets(others)
  {
    forall id
      ensures EdgesAt(NodeEdgeSets(edges), id) == EdgesAt(NodeEdgeSets(others), id)
      ensures id in NodeEdgeSets(edges) <==> id in NodeEdgeSets(others)
    {
      NodeEdgeSetsTouching(edges, id);
      NodeEdgeSetsTouching(others, id);
      assert forall i :: 0 <= i < |edges| ==> (Touches(edges[i], id) <==> Touches(others[i], id));
      assert Touching(edges, id) == Touching(others, id);
    }
  }

  // ---------------------------------------------------------------------
  // Modified nodes

  /** The changes of a node, in the order label, type, group, edges, each
      present when that aspect differs. */
  function Changes(b: GraphNode, r: GraphNode, be: set<EdgeKey>, re: set<EdgeKey>): seq<NodeChange> {
    Part(b.nodeLabel != r.nodeLabel, LabelChanged(b.nodeLabel, r.nodeLabel))
      + Part(b.nodeType != r.nodeType, TypeChanged(b.nodeType, r.nodeType))
      + Part(b.group != r.group, GroupChanged(b.group, r.group))
      + Part(be != re, EdgesChanged)
  }

  /** One change, when its aspect differs. */
  function Part(present: bool, c: NodeChange): (r: seq<NodeChange>)
    ensures present ==> r == [c]
    ensures !present ==> r == []
  {
    if present then [c] else []
  }

  /** The changes of a node both graphs have. */
  function ChangesOf(base: ArchitectureGraph, branch: ArchitectureGraph, id: string): seq<NodeChange>
    requires id in Ids(base) && id in Ids(branch)
  {
    Changes(NodeMap(base.nodes)[id], NodeMap(branch.nodes)[id],
            EdgesAt(NodeEdgeSets(base.edges), id), EdgesAt(NodeEdgeSets(branch.edges), id))
  }

  /** The modified nodes: those in both graphs with at least one change. */
  function ModifiedSet(base: ArchitectureGraph, branch: ArchitectureGraph): set<ModifiedNode> {
    set id | id in Ids(base) * Ids(branch) && ChangesOf(base, branch, id) != [] ::
      ModifiedNode(id, ChangesOf(base, branch, id))
  }

  /** No two entries of the list are about the same node. */
  predicate DistinctNodes(ms: seq<ModifiedNode>) {
    forall i, j :: 0 <= i < j < |ms| ==> ms[i].id != ms[j].id
  }

  /** Each kind of change is present exactly when its aspect differs. */
  lemma ChangesIff(b: GraphNode, r: GraphNode, be: set<EdgeKey>, re: set<EdgeKey>)
    ensures var cs := Changes(b, r, be, re);
            && (LabelChanged(b.nodeLabel, r.nodeLabel) in cs <==> b.nodeLabel != r.nodeLabel)
            && (TypeChanged(b.nodeType, r.nodeType) in cs <==> b.nodeType != r.nodeType)
            && (GroupChanged(b.group, r.group) in cs <==> b.group != r.group)
            && (EdgesChanged in cs <==> be != re)
  {
    var l := Part(b.nodeLabel != r.nodeLabel, LabelChanged(b.nodeLabel, r.nodeLabel));
    var t := Part(b.nodeType != r.nodeType, TypeChanged(b.nodeType, r.nodeType));
    var g := Part(b.group != r.group, GroupChanged(b.group, r.group));
    var e := Part(be != re, EdgesChanged);
    assert forall c :: c in l + t + g + e <==> c in l || c in t || c in g || c in e;
  }

  /** A node is unchanged exactly when its label, type, group and edges all agree. */
  lemma ChangesEmptyIff(b: GraphNode, r: GraphNode, be: set<EdgeKey>, re: set<EdgeKey>)
    ensures Changes(b, r, be, re) == [] <==>
              b.nodeLabel == r.nodeLabel && b.nodeType == r.nodeType && b.group == r.group && be == re
  {
    var l := Part(b.nodeLabel != r.nodeLabel, LabelChanged(b.nodeLabel, r.nodeLabel));
    var t := Part(b.nodeType != r.nodeType, TypeChanged(b.nodeType, r.nodeType));
    var g := Part(b.group != r.group, GroupChanged(b.group, r.group));
    var e := Part(be != re, EdgesChanged);
    assert |l + t + g + e| == |l| + |t| + |g| + |e|;
  }

  /** The position of a kind of change in the fixed order. */
  function Rank(c: NodeChange): nat {
    match c
    case LabelChanged(_, _) => 0
    case TypeChanged(_, _) => 1
    case GroupChanged(_, _) => 2
    case EdgesChanged => 3
  }

  /** The changes are listed in strictly increasing rank. */
  predicate RankSorted(cs: seq<NodeChange>) {
    forall i, j :: 0 <= i < j < |cs| ==> Rank(cs[i]) < Rank(cs[j])
  }

  /** Every change in the list ranks below `k`. */
  predicate RankBelow(cs: seq<NodeChange>, k: nat) {
    forall i :: 0 <= i < |cs| ==> Rank(cs[i]) < k
  }

  /** A sorted list of changes ranked below `k` followed by at most one
      change of rank `k` is sorted and ranked below `k + 1`. */
  lemma RankSortedSnoc(a: seq<NodeChange>, p: seq<NodeChange>, k: nat)
    requires RankSorted(a) && RankBelow(a, k)
    requires |p| <= 1 && (p != [] ==> Rank(p[0]) == k)
    ensures RankSorted(a + p) && RankBelow(a + p, k + 1)
  {
    assert forall i :: 0 <= i < |a| ==> (a + p)[i] == a[i];
  }

  /** The changes come in the order label, type, group, edges, so each
      kind appears at most once. */
  lemma ChangesOrdered(b: GraphNode, r: GraphNode, be: set<EdgeKey>, re: set<EdgeKey>)
    ensures RankSorted(Changes(b, r, be, re))
  {
    var l := Part(b.nodeLabel != r.nodeLabel, LabelChanged(b.nodeLabel, r.nodeLabel));
    var t := Part(b.nodeType != r.nodeType, TypeChanged(b.nodeType, r.nodeType));
    var g := Part(b.group != r.group, GroupChanged(b.group, r.group));
    var e := Part(be != re, EdgesChanged);
    RankSortedSnoc([], l, 0);
    assert [] + l == l;
    RankSortedSnoc(l, t, 1);
    RankSortedSnoc(l + t, g, 2);
    RankSortedSnoc(l + t + g, e, 3);
  }

  /** A node's edges count as changed exactly when the (source, target,
      label) tuples of the edges touching it differ between the graphs. */
  lemma EdgesChangedIff(base: ArchitectureGraph, branch: ArchitectureGraph, id: string)
    requires id in Ids(base) && id in Ids(branch)
    ensures EdgesChanged in ChangesOf(base, branch, id) <==> Touching(base.edges, id) != Touching(branch.edges, id)
  {
    NodeEdgeSetsTouching(base.edges, id);
    NodeEdgeSetsTouching(branch.edges, id);
  }

  /** `diff_graphs`. */
  method DiffGraphs(base: ArchitectureGraph, branch: ArchitectureGraph) returns (d: GraphDiff)
    ensures d.addedNodes == Ids(branch) - Ids(base)
    ensures d.removedNodes == Ids(base) - Ids(branch)
    ensures (set m | m in d.modifiedNodes) == ModifiedSet(base, branch)
    ensures DistinctNodes(d.modifiedNodes)
    ensures d.addedEdges == EdgeRefs(branch.edges) - EdgeRefs(base.edges)
    ensures d.removedEdges == EdgeRefs(base.edges) - EdgeRefs(branch.edges)
    ensures d.addedNodes !! d.removedNodes
    ensures forall m :: m in d.modifiedNodes ==>
              m.changes != [] && m.id in Ids(base) && m.id in Ids(branch)
              && m.id !in d.addedNodes && m.id !in d.removedNodes
    ensures base == branch ==>
              d.addedNodes == {} && d.removedNodes == {} && d.modifiedNodes == []
              && d.addedEdges == {} && d.removedEdges == {}
  {
    var baseNodes := NodeMap(base.nodes);
    var branchNodes := NodeMap(branch.nodes);
    var baseIds := baseNodes.Keys;
    var branchIds := branchNodes.Keys;
    var addedNodes := branchIds - baseIds;
    var removedNodes := baseIds - branchIds;
    var baseNodeEdges := BuildNodeEdgeSets(base.edges);
    var branchNodeEdges := BuildNodeEdgeSets(branch.edges);
    var modifiedNodes := CollectModified(base, branch, baseNodes, branchNodes, baseNodeEdges, branchNodeEdges);
    var baseEdgeSet := EdgeRefs(base.edges);
    var branchEdgeSet := EdgeRefs(branch.edges);
    d := GraphDiff(addedNodes, removedNodes, modifiedNodes, branchEdgeSet - baseEdgeSet, baseEdgeSet - branchEdgeSet);
    ModifiedMembers(base, branch, modifiedNodes);
    if base == branch {
      SelfUnmodified(base);
      NoneOf(modifiedNodes, ModifiedSet(base, branch));
    }
  }

  /** A modified-node entry as `diff_graphs` records it. */
  predicate IsModified(base: ArchitectureGraph, branch: ArchitectureGraph, m: ModifiedNode) {
    && m.id in Ids(base) && m.id in Ids(branch)
    && m.changes == ChangesOf(base, branch, m.id) && m.changes != []
  }

  lemma ModifiedSetIs(base: ArchitectureGraph, branch: ArchitectureGraph, m: ModifiedNode)
    ensures m in ModifiedSet(base, branch) <==> IsModified(base, branch, m)
  {
  }

  /** Every entry of a list of modified nodes lies in both graphs and has a change. */
  lemma ModifiedMembers(base: ArchitectureGraph, branch: ArchitectureGraph, ms: seq<ModifiedNode>)
    requires (set m | m in ms) == ModifiedSet(base, branch)
    ensures forall m :: m in ms ==> m.changes != [] && m.id in Ids(base) && m.id in Ids(branch)
  {
    forall m | m in ms
      ensures m.changes != [] && m.id in Ids(base) && m.id in Ids(branch)
    {
      assert m in (set m | m in ms);
      ModifiedSetIs(base, branch, m);
    }
  }

  /** A list whose elements all lie in a set is empty when the set is. */
  lemma NoneOf(ms: seq<ModifiedNode>, s: set<ModifiedNode>)
    requires (set m | m in ms) == s
    ensures s == {} ==> ms == []
  {
    if ms != [] {
      assert ms[0] in ms;
      assert ms[0] in s;
    }
  }

  lemma DistinctNodesSnoc(ms: seq<ModifiedNode>, m: ModifiedNode)
    requires DistinctNodes(ms)
    requires forall x :: x in ms ==> x.id != m.id
    ensures DistinctNodes(ms + [m])
  {
    assert forall i :: 0 <= i < |ms| ==> (ms + [m])[i] == ms[i] && ms[i] in ms;
  }

  /** The loop of `diff_graphs` over the ids both graphs have: each node
      with at least one change is recorded once. */
  method CollectModified(base: ArchitectureGraph, branch: ArchitectureGraph,
                         baseNodes: map<string, GraphNode>, branchNodes: map<string, GraphNode>,
                         baseNodeEdges: map<string, set<EdgeKey>>, branchNodeEdges: map<string, set<EdgeKey>>)
    returns (modifiedNodes: seq<ModifiedNode>)
    requires baseNodes == NodeMap(base.nodes) && branchNodes == NodeMap(branch.nodes)
    requires baseNodeEdges == NodeEdgeSets(base.edges) && branchNodeEdges == NodeEdgeSets(branch.edges)
    ensures (set m | m in modifiedNodes) == ModifiedSet(base, branch)
    ensures DistinctNodes(modifiedNodes)
  {
    modifiedNodes := [];
    var common := baseNodes.Keys * branchNodes.Keys;
    assert common == Ids(base) * Ids(branch);
    var remaining := common;
    while remaining != {}
      invariant remaining <= common
      invariant forall m :: m in modifiedNodes ==> m.id !in remaining && IsModified(base, branch, m)
      invariant forall id :: id in common && id !in remaining && ChangesOf(base, branch, id) != [] ==>
                  ModifiedNode(id, ChangesOf(base, branch, id)) in modifiedNodes
      invariant DistinctNodes(modifiedNodes)
      decreases |remaining|
    {
      var id :| id in remaining;
      var changes := NodeChanges(baseNodes[id], branchNodes[id], EdgesAt(baseNodeEdges, id), EdgesAt(branchNodeEdges, id));
      assert changes == ChangesOf(base, branch, id);
      if changes != [] {
        DistinctNodesSnoc(modifiedNodes, ModifiedNode(id, changes));
        modifiedNodes := modifiedNodes + [ModifiedNode(id, changes)];
      }
      remaining := remaining - {id};
    }
    forall m | m in ModifiedSet(base, branch)
      ensures m in modifiedNodes
    {
      ModifiedSetIs(base, branch, m);
    }
    forall m | m in modifiedNodes
      ensures m in ModifiedSet(base, branch)
    {
      ModifiedSetIs(base, branch, m);
    }
  }

  /** The change list of one node, built as the loop body of `diff_graphs` builds it. */
  method NodeChanges(b: GraphNode, r: GraphNode, be: set<EdgeKey>, re: set<EdgeKey>) returns (changes: seq<NodeChange>)
    ensures changes == Changes(b, r, be, re)
  {
    changes := [];
    if b.nodeLabel != r.nodeLabel {
      changes := changes + [LabelChanged(b.nodeLabel, r.nodeLabel)];
    }
    if b.nodeType != r.nodeType {
      changes := changes + [TypeChanged(b.nodeType, r.nodeType)];
    }
    if b.group != r.group {
      changes := changes + [GroupChanged(b.group, r.group)];
    }
    if be != re {
      changes := changes + [EdgesChanged];
    }
  }

  /** Against itself, a graph has no modified node. */
  lemma SelfUnmodified(g: ArchitectureGraph)
    ensures ModifiedSet(g, g) == {}
  {
    forall id | id in Ids(g)
      ensures ChangesOf(g, g, id) == []
    {
      ChangesEmptyIff(NodeMap(g.nodes)[id], NodeMap(g.nodes)[id],
                 EdgesAt(NodeEdgeSets(g.edges), id), EdgesAt(NodeEdgeSets(g.edges), id));
    }
  }
}
