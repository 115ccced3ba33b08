/**
  The node-graph fixture generator of the test-data source: a random tree of
  services hanging off a `root` node, a few extra random edges that may close
  cycles, and two frames (nodes and edges) built from them.

  The generator's random source is passed in: `rand(k)` is the k-th value the
  seeded generator returns, a real in [0, 1). The floating-point statistics are
  not modelled as numbers; a `Stat` says where each one comes from. Nodes are
  values in a sequence and the open list holds their indices, so where the
  source pushes onto a node object's `edges` the model replaces that entry of
  the sequence.
 */
module NodeGraph {
  import opened Decimal

  /** Where a statistic comes from: a fresh random value times `scale`, `1 - success`, or a constant. */
  datatype Stat = Random(scale: nat) | OneMinusSuccess | Exactly(v: int)

  datatype GraphNode = GraphNode(id: string, title: string, subTitle: string,
                                 success: Stat, error: Stat, stat1: Stat, stat2: Stat,
                                 edges: seq<string>)

  /** A node leaves the open list once it has this many edges. */
  const MaxEdges: nat := 3

  const Root: GraphNode := GraphNode("root", "root", "client", Exactly(1), Exactly(0), Random(1), Random(1), [])

  const ServicePrefix: string := "service_"

  function ServiceName(index: nat): string {
    ServicePrefix + FormatNat(index)
  }

  /**
    `makeRandomNode(index)`: a node with no edges whose id and title are
    `service_` followed by the decimal text of `index`, subtitle `service`,
    and an error rate that complements its success rate.
   */
  function MakeRandomNode(index: nat): (r: GraphNode)
    ensures r.title == r.id && r.subTitle == "service" && r.edges == []
    ensures ServicePrefix <= r.id && AllDigits(r.id[|ServicePrefix|..]) && DigitsValue(r.id[|ServicePrefix|..]) == index
    ensures r.success == Random(1) && r.error == OneMinusSuccess && r.stat1 == Random(1) && r.stat2 == Random(1)
  {
    DigitsValueOfFormat(index);
    assert ServiceName(index)[|ServicePrefix|..] == FormatNat(index);
    GraphNode(ServiceName(index), ServiceName(index), "service", Random(1), OneMinusSuccess, Random(1), Random(1), [])
  }

  /** The node created at position `k` of the node list, before any edge is added. */
  function FreshNode(k: nat): GraphNode {
    if k == 0 then Root else MakeRandomNode(k)
  }

  /** The id of the node at position `k`. */
  function NodeId(k: nat): string {
    FreshNode(k).id
  }

  /** The ids of the nodes at the given positions, in order. */
  function Ids(ks: seq<nat>): (r: seq<string>)
    ensures |r| == |ks| && forall m :: 0 <= m < |ks| ==> r[m] == NodeId(ks[m])
  {
    seq(|ks|, m requires 0 <= m < |ks| => NodeId(ks[m]))
  }

  /** A node id never contains a `-`. */
  predicate NoDash(s: string) {
    forall m :: 0 <= m < |s| ==> s[m] != '-'
  }

  /** Node positions and node ids determine each other; no id is `"0"` and none contains a `-`. */
  lemma NodeIdInjective(j: nat, k: nat)
    ensures NodeId(j) == NodeId(k) <==> j == k
    ensures NodeId(k) != "0" && NoDash(NodeId(k))
  {
    if j == 0 && k > 0 {
      assert NodeId(j)[0] != NodeId(k)[0];
    }
    if k == 0 && j > 0 {
      assert NodeId(j)[0] != NodeId(k)[0];
    }
    if k > 0 {
      assert forall m :: 8 <= m < |NodeId(k)| ==> NodeId(k)[m] == FormatNat(k)[m - 8];
    }
  }

  /**
    `Math.floor(rand() * Math.floor(len - 1))` for a draw `r` in [0, 1): an
    index below `len - 1`, or 0 when `len` is 1. So for a list of two or more
    entries its last entry is never chosen.
   */
  function Pick(r: real, len: nat): (k: int)
    requires 0.0 <= r < 1.0
    ensures len >= 1 ==> 0 <= k < len
    ensures len >= 2 ==> k < len - 1
    ensures len <= 1 ==> k == 0 || len == 0
  {
    if len >= 1 then PickBounds(r, len - 1); Scaled(r, len - 1)
    else Scaled(r, len - 1)
  }

  /** `Math.floor(r * m)`. */
  function Scaled(r: real, m: int): int {
    (r * m as real).Floor
  }

  lemma PickBounds(r: real, m: nat)
    requires 0.0 <= r < 1.0
    ensures 0 <= Scaled(r, m) <= m && (m > 0 ==> Scaled(r, m) < m)
  {
    ScaleBounds(r, m as real);
    FloorBounds(r * m as real, m);
  }

  lemma FloorBounds(x: real, m: nat)
    requires 0.0 <= x <= m as real && (m > 0 ==> x < m as real)
    ensures 0 <= x.Floor <= m && (m > 0 ==> x.Floor < m)
  {
  }

  lemma ScaleBounds(r: real, m: real)
    requires 0.0 <= r < 1.0 && 0.0 <= m
    ensures 0.0 <= r * m <= m
    ensures 0.0 < m ==> r * m < m
  {
    assert (1.0 - r) * m >= 0.0;
    if 0.0 < m {
      assert (1.0 - r) * m > 0.0;
    }
  }

  // ---------------------------------------------------------------------------
  // The tree phase.

  /** `nodes` are the fresh nodes in order, node `k`'s edges naming the children `kids[k]`. */
  ghost predicate NodesFollow(nodes: seq<GraphNode>, kids: seq<seq<nat>>) {
    && |kids| == |nodes|
    && forall k :: 0 <= k < |nodes| ==> nodes[k] == FreshNode(k).(edges := Ids(kids[k]))
  }

  /**
    Every child comes after its parent, and `parent` names the one node each
    non-root node is a child of. No node has more than `MaxEdges` children.
   */
  ghost predicate ParentLinks(kids: seq<seq<nat>>, parent: seq<nat>) {
    && |parent| == |kids|
    && (forall k, m :: 0 <= k < |kids| && 0 <= m < |kids[k]| ==> k < kids[k][m] < |kids| && parent[kids[k][m]] == k)
    && (forall j :: 1 <= j < |parent| ==> parent[j] < j && j in kids[parent[j]])
    && (forall k :: 0 <= k < |kids| ==> |kids[k]| <= MaxEdges)
  }

  /** `nodesWithoutMaxEdges`: in increasing order, exactly the nodes with fewer than `MaxEdges` children. */
  ghost predicate OpenList(open: seq<nat>, kids: seq<seq<nat>>) {
    && |open| >= 1
    && (forall m :: 0 <= m < |open| ==> open[m] < |kids|)
    && (forall a, b :: 0 <= a < b < |open| ==> open[a] < open[b])
    && (forall m :: 0 <= m < |open| ==> |kids[open[m]]| < MaxEdges)
    && (forall k :: 0 <= k < |kids| && |kids[k]| < MaxEdges ==> k in open)
  }

  ghost predicate IsTree(nodes: seq<GraphNode>, open: seq<nat>, kids: seq<seq<nat>>, parent: seq<nat>) {
    && |nodes| >= 1
    && NodesFollow(nodes, kids)
    && ParentLinks(kids, parent)
    && OpenList(open, kids)
  }

  /** Node `n` is added as the last child of node `s`, and gets no children of its own. */
  function AddChild(kids: seq<seq<nat>>, s: nat, n: nat): seq<seq<nat>>
    requires s < |kids|
  {
    kids[s := kids[s] + [n]] + [[]]
  }

  /** `nodesWithoutMaxEdges` after a step: entry `p` spliced out if it is now full, then node `n` pushed. */
  function NextOpen(open: seq<nat>, p: nat, full: bool, n: nat): seq<nat>
    requires p < |open|
  {
    (if full then open[..p] + open[p + 1..] else open) + [n]
  }

  lemma NodesStep(nodes: seq<GraphNode>, kids: seq<seq<nat>>, s: nat)
    requires NodesFollow(nodes, kids) && s < |nodes| && |nodes| >= 1
    ensures NodesFollow((nodes + [MakeRandomNode(|nodes|)])[s := nodes[s].(edges := nodes[s].edges + [NodeId(|nodes|)])],
                        AddChild(kids, s, |nodes|))
  {
    assert Ids(kids[s] + [|nodes|]) == Ids(kids[s]) + [NodeId(|nodes|)];
    assert Ids([]) == [];
  }

  lemma LinksStep(kids: seq<seq<nat>>, parent: seq<nat>, s: nat)
    requires ParentLinks(kids, parent) && s < |kids| && |kids[s]| < MaxEdges
    ensures ParentLinks(AddChild(kids, s, |kids|), parent + [s])
  {
    var n := |kids|;
    var kids' := AddChild(kids, s, n);
    var parent' := parent + [s];
    forall k, m | 0 <= k < |kids'| && 0 <= m < |kids'[k]|
      ensures k < kids'[k][m] < |kids'| && parent'[kids'[k][m]] == k
    {
      if k == s && m == |kids[s]| {
      } else {
        assert kids'[k][m] == kids[k][m];
      }
    }
    forall j | 1 <= j < |parent'|
      ensures parent'[j] < j && j in kids'[parent'[j]]
    {
      if j < n {
        assert j in kids[parent[j]];
      }
    }
  }

  /**
    The list after a step, entry by entry: the old entries with entry `p`
    skipped when it was spliced out, then `n`.
   */
  lemma NextOpenEntries(open: seq<nat>, p: nat, full: bool, n: nat)
    requires p < |open|
    ensures var open' := NextOpen(open, p, full, n);
            && |open'| == |open| + (if full then 0 else 1)
            && open'[|open'| - 1] == n
            && forall m :: 0 <= m < |open'| - 1 ==> open'[m] == open[if full && m >= p then m + 1 else m]
  {
  }

  lemma OpenStepIncreasing(open: seq<nat>, p: nat, full: bool, n: nat)
    requires p < |open| && forall a, b :: 0 <= a < b < |open| ==> open[a] < open[b]
    requires forall m :: 0 <= m < |open| ==> open[m] < n
    ensures var open' := NextOpen(open, p, full, n);
            forall a, b :: 0 <= a < b < |open'| ==> open'[a] < open'[b]
  {
    var open' := NextOpen(open, p, full, n);
    NextOpenEntries(open, p, full, n);
    forall a, b | 0 <= a < b < |open'|
      ensures open'[a] < open'[b]
    {
      assert open'[a] == open[if full && a >= p then a + 1 else a];
      if b < |open'| - 1 {
        assert open'[b] == open[if full && b >= p then b + 1 else b];
      }
    }
  }

  lemma OpenStepEntries(open: seq<nat>, kids: seq<seq<nat>>, p: nat)
    requires OpenList(open, kids) && p < |open|
    ensures var kids' := AddChild(kids, open[p], |kids|);
            var open' := NextOpen(open, p, |kids'[open[p]]| >= MaxEdges, |kids|);
            forall m :: 0 <= m < |open'| ==> open'[m] < |kids'| && |kids'[open'[m]]| < MaxEdges
  {
    var n := |kids|;
    var s := open[p];
    var kids' := AddChild(kids, s, n);
    var full := |kids'[s]| >= MaxEdges;
    var open' := NextOpen(open, p, full, n);
    NextOpenEntries(open, p, full, n);
    forall m | 0 <= m < |open'|
      ensures open'[m] < |kids'| && |kids'[open'[m]]| < MaxEdges
    {
      if m < |open'| - 1 {
        var src := if full && m >= p then m + 1 else m;
        assert open'[m] == open[src];
        if open[src] == s {
          assert src == p;
        } else {
          assert kids'[open[src]] == kids[open[src]];
        }
      }
    }
  }

  lemma OpenStepComplete(open: seq<nat>, kids: seq<seq<nat>>, p: nat)
    requires OpenList(open, kids) && p < |open|
    ensures var kids' := AddChild(kids, open[p], |kids|);
            var open' := NextOpen(open, p, |kids'[open[p]]| >= MaxEdges, |kids|);
            forall k :: 0 <= k < |kids'| && |kids'[k]| < MaxEdges ==> k in open'
  {
    var n := |kids|;
    var s := open[p];
    var kids' := AddChild(kids, s, n);
    var full := |kids'[s]| >= MaxEdges;
    var open' := NextOpen(open, p, full, n);
    NextOpenEntries(open, p, full, n);
    forall k | 0 <= k < |kids'| && |kids'[k]| < MaxEdges
      ensures k in open'
    {
      if k == n {
        assert open'[|open'| - 1] == k;
      } else if k == s {
        assert open'[p] == k;
      } else {
        assert kids'[k] == kids[k];
        var m :| 0 <= m < |open| && open[m] == k;
        assert open'[if full && m > p then m - 1 else m] == k;
      }
    }
  }

  lemma OpenStep(open: seq<nat>, kids: seq<seq<nat>>, p: nat)
    requires OpenList(open, kids) && p < |open|
    ensures var kids' := AddChild(kids, open[p], |kids|);
            OpenList(NextOpen(open, p, |kids'[open[p]]| >= MaxEdges, |kids|), kids')
  {
    var kids' := AddChild(kids, open[p], |kids|);
    NextOpenEntries(open, p, |kids'[open[p]]| >= MaxEdges, |kids|);
    OpenStepIncreasing(open, p, |kids'[open[p]]| >= MaxEdges, |kids|);
    OpenStepEntries(open, kids, p);
    OpenStepComplete(open, kids, p);
  }

  /**
    The tree in terms of node ids: node `k` is named `NodeId(k)` and has at
    most `MaxEdges` edges, all to later nodes, and each node after the root
    is an edge target of exactly one node, which comes before it.
   */
  lemma TreeShape(nodes: seq<GraphNode>, open: seq<nat>, kids: seq<seq<nat>>, parent: seq<nat>)
    requires IsTree(nodes, open, kids, parent)
    ensures forall k :: 0 <= k < |nodes| ==> nodes[k].id == NodeId(k) && |nodes[k].edges| <= MaxEdges
    ensures forall k, m :: 0 <= k < |nodes| && 0 <= m < |nodes[k].edges| ==>
              exists c :: k < c < |nodes| && nodes[k].edges[m] == NodeId(c)
    ensures forall j, k :: 1 <= j < |nodes| && 0 <= k < |nodes| ==>
              (NodeId(j) in nodes[k].edges <==> k == parent[j]) && parent[j] < j
  {
    forall k, m | 0 <= k < |nodes| && 0 <= m < |nodes[k].edges|
      ensures exists c :: k < c < |nodes| && nodes[k].edges[m] == NodeId(c)
    {
      var c := kids[k][m];
      assert k < c < |nodes| && nodes[k].edges[m] == NodeId(c);
    }
    forall j, k | 1 <= j < |nodes| && 0 <= k < |nodes|
      ensures NodeId(j) in nodes[k].edges <==> k == parent[j]
    {
      if NodeId(j) in nodes[k].edges {
        var m :| 0 <= m < |nodes[k].edges| && nodes[k].edges[m] == NodeId(j);
        NodeIdInjective(kids[k][m], j);
      }
      if k == parent[j] {
        var m :| 0 <= m < |kids[k]| && kids[k][m] == j;
        assert nodes[k].edges[m] == NodeId(j);
      }
    }
  }

  /**
    The tree loop of `generateRandomNodes`: node `i` (for `1 <= i < count`)
    is appended and hung under an open node chosen with draw `i - 1`.
   */
  method GrowTree(count: int, rand: nat -> real) returns (nodes: seq<GraphNode>, open: seq<nat>,
                                                          ghost kids: seq<seq<nat>>, ghost parent: seq<nat>)
    requires forall k :: 0.0 <= rand(k) < 1.0
    ensures |nodes| == if count >= 1 then count else 1
    ensures IsTree(nodes, open, kids, parent)
  {
    nodes := [Root];
    open := [0];
    kids := [[]];
    parent := [0];
    assert Ids([]) == [];
    var i := 1;
    while i < count
      invariant 1 <= i <= if count >= 1 then count else 1
      invariant |nodes| == i
      invariant IsTree(nodes, open, kids, parent)
    {
      var node := MakeRandomNode(i);
      nodes := nodes + [node];
      var sourceIndex := Pick(rand(i - 1), |open|);
      var source := open[sourceIndex];
      NodesStep(nodes[..i], kids, source);
      LinksStep(kids, parent, source);
      OpenStep(open, kids, sourceIndex);
      assert nodes[..i] + [node] == nodes;
      nodes := nodes[source := nodes[source].(edges := nodes[source].edges + [node.id])];
      kids := AddChild(kids, source, i);
      parent := parent + [source];
      if |nodes[source].edges| >= MaxEdges {
        open := open[..sourceIndex] + open[sourceIndex + 1..];
      }
      open := open + [i];
      i := i + 1;
    }
  }

  // ---------------------------------------------------------------------------
  // The extra-edge phase.

  /** The ids of `nodes` at positions `ts`, in order. */
  function IdsOf(nodes: seq<GraphNode>, ts: seq<nat>): (r: seq<string>)
    requires forall m :: 0 <= m < |ts| ==> ts[m] < |nodes|
    ensures |r| == |ts| && forall m :: 0 <= m < |ts| ==> r[m] == nodes[ts[m]].id
  {
    seq(|ts|, m requires 0 <= m < |ts| => nodes[ts[m]].id)
  }

  /** The ids of `nodes`, in order. */
  function NodeIdsOf(nodes: seq<GraphNode>): (r: seq<string>)
    ensures |r| == |nodes| && forall k :: 0 <= k < |nodes| ==> r[k] == nodes[k].id
  {
    seq(|nodes|, k requires 0 <= k < |nodes| => nodes[k].id)
  }

  /**
    `result` is `nodes` with node `k`'s edges extended by the ids of the nodes
    `extra[k]`, none of which is `k` itself or the last node.
   */
  ghost predicate Extended(nodes: seq<GraphNode>, result: seq<GraphNode>, extra: seq<seq<nat>>) {
    && |result| == |nodes| && |extra| == |nodes|
    && (forall k, m :: 0 <= k < |extra| && 0 <= m < |extra[k]| ==> extra[k][m] != k && extra[k][m] + 1 < |nodes|)
    && (forall k :: 0 <= k < |nodes| ==> result[k] == nodes[k].(edges := nodes[k].edges + IdsOf(nodes, extra[k])))
  }

  lemma ExtendedStep(nodes: seq<GraphNode>, result: seq<GraphNode>, extra: seq<seq<nat>>, s: nat, t: nat)
    requires Extended(nodes, result, extra) && s < |nodes| && t + 1 < |nodes| && s != t
    ensures Extended(nodes, result[s := result[s].(edges := result[s].edges + [result[t].id])], extra[s := extra[s] + [t]])
  {
    assert IdsOf(nodes, extra[s] + [t]) == IdsOf(nodes, extra[s]) + [nodes[t].id];
  }

  /**
    The extra-edge loop of `generateRandomNodes`: `count / 2 + 1` rounds (none
    for a negative count), round `i` drawing a source and then a target with
    draws `first + 2 * i` and `first + 2 * i + 1`. Equal indices, or a node
    whose id is `"0"`, skip the round; otherwise the target's id is pushed onto
    the source's edges.
   */
  method AddExtraEdges(nodes: seq<GraphNode>, count: int, rand: nat -> real, first: nat)
    returns (result: seq<GraphNode>, ghost extra: seq<seq<nat>>)
    requires forall k :: 0.0 <= rand(k) < 1.0
    requires |nodes| >= 1
    ensures Extended(nodes, result, extra)
    ensures |result| == |nodes|
    ensures forall k :: 0 <= k < |nodes| ==> result[k] == nodes[k].(edges := result[k].edges) && nodes[k].edges <= result[k].edges
    ensures Distinct(NodeIdsOf(nodes)) ==>
              forall k, m :: 0 <= k < |nodes| && |nodes[k].edges| <= m < |result[k].edges| ==> result[k].edges[m] != nodes[k].id
  {
    result := nodes;
    extra := seq(|nodes|, k => []);
    assert forall k :: 0 <= k < |nodes| ==> IdsOf(nodes, extra[k]) == [];
    var additionalEdges := count / 2;
    var i := 0;
    while i <= additionalEdges
      invariant Extended(nodes, result, extra)
    {
      var sourceIndex := Pick(rand(first + 2 * i), |result|);
      var targetIndex := Pick(rand(first + 2 * i + 1), |result|);
      if sourceIndex != targetIndex && result[sourceIndex].id != "0" && result[targetIndex].id != "0" {
        ExtendedStep(nodes, result, extra, sourceIndex, targetIndex);
        result := result[sourceIndex := result[sourceIndex].(edges := result[sourceIndex].edges + [result[targetIndex].id])];
        extra := extra[sourceIndex := extra[sourceIndex] + [targetIndex]];
      }
      i := i + 1;
    }
    if Distinct(NodeIdsOf(nodes)) {
      forall k, m | 0 <= k < |nodes| && |nodes[k].edges| <= m < |result[k].edges|
        ensures result[k].edges[m] != nodes[k].id
      {
        var t := extra[k][m - |nodes[k].edges|];
        assert result[k].edges[m] == nodes[t].id;
        assert NodeIdsOf(nodes)[t] != NodeIdsOf(nodes)[k];
      }
    }
  }

  // ---------------------------------------------------------------------------
  // The frames.

  /** The `nodes` frame: one column per node field the graph panel reads. */
  datatype NodeFrame = NodeFrame(ids: seq<string>, titles: seq<string>, subTitles: seq<string>,
                                 mainStats: seq<Stat>, secondaryStats: seq<Stat>,
                                 arcSuccess: seq<Stat>, arcErrors: seq<Stat>)

  /** The `edges` frame. */
  datatype EdgeFrame = EdgeFrame(ids: seq<string>, sources: seq<string>, targets: seq<string>, mainStats: seq<Stat>)

  /** The id of the edge from `source` to `target`. */
  function EdgeId(source: string, target: string): string {
    source + "--" + target
  }

  /** An edge id is its source, two dashes, then its target. */
  lemma EdgeIdLayout(source: string, target: string)
    ensures var r := EdgeId(source, target);
            && |r| == |source| + 2 + |target|
            && r[..|source|] == source && r[|source|] == '-' && r[|source| + 1] == '-' && r[|source| + 2..] == target
  {
  }

  /** Two edge ids whose sources contain no `-` are equal only for equal sources and targets. */
  lemma EdgeIdInjective(a: string, b: string, c: string, d: string)
    requires NoDash(a) && NoDash(c)
    ensures EdgeId(a, b) == EdgeId(c, d) <==> a == c && b == d
  {
    if EdgeId(a, b) == EdgeId(c, d) {
      DashFreePrefix(a, b, c, d);
      assert a == EdgeId(a, b)[..|a|] == EdgeId(c, d)[..|c|] == c;
      assert b == EdgeId(a, b)[|a| + 2..] == EdgeId(c, d)[|c| + 2..] == d;
    }
  }

  /** In `a + "--" + b == c + "--" + d` with dash-free `a` and `c`, the first dash is at `|a|` and at `|c|`. */
  lemma DashFreePrefix(a: string, b: string, c: string, d: string)
    requires NoDash(a) && NoDash(c) && EdgeId(a, b) == EdgeId(c, d)
    ensures |a| == |c|
  {
    var e := EdgeId(a, b);
    assert e[|a|] == '-' && e[|c|] == '-';
    assert forall m :: 0 <= m < |a| ==> e[m] == a[m];
    assert forall m :: 0 <= m < |c| ==> e[m] == c[m];
  }

  predicate Distinct(s: seq<string>) {
    forall a, b :: 0 <= a < b < |s| ==> s[a] != s[b]
  }

  /** Some node with id `source` has `target` among its edges. */
  ghost predicate HasEdge(nodes: seq<GraphNode>, source: string, target: string) {
    exists k :: 0 <= k < |nodes| && nodes[k].id == source && target in nodes[k].edges
  }

  /**
    The edge rows so far: the four columns line up, each row is an edge of the
    graph under its `source--target` id, the ids are distinct, and `seen` (the
    `edgesSet`) holds exactly those ids.
   */
  ghost predicate EdgeRows(nodes: seq<GraphNode>, rows: EdgeFrame, seen: set<string>) {
    && |rows.sources| == |rows.ids| && |rows.targets| == |rows.ids| && |rows.mainStats| == |rows.ids|
    && (forall r :: 0 <= r < |rows.ids| ==>
          && rows.ids[r] == EdgeId(rows.sources[r], rows.targets[r])
          && HasEdge(nodes, rows.sources[r], rows.targets[r])
          && rows.mainStats[r] == Random(100))
    && Distinct(rows.ids)
    && (forall r :: 0 <= r < |rows.ids| ==> rows.ids[r] in seen)
    && (forall x :: x in seen ==> x in rows.ids)
  }

  /** Every edge of the nodes before `k` has its id in `seen`. */
  ghost predicate Covered(nodes: seq<GraphNode>, k: nat, seen: set<string>)
    requires k <= |nodes|
  {
    forall q, m :: 0 <= q < k && 0 <= m < |nodes[q].edges| ==> EdgeId(nodes[q].id, nodes[q].edges[m]) in seen
  }

  /** One row of the edges frame, unless its id was already emitted. */
  method AddEdgeRow(nodes: seq<GraphNode>, k: nat, j: nat, rows: EdgeFrame, seen: set<string>)
    returns (rows': EdgeFrame, seen': set<string>)
    requires k < |nodes| && j < |nodes[k].edges| && EdgeRows(nodes, rows, seen)
    ensures EdgeRows(nodes, rows', seen')
    ensures seen' == seen + {EdgeId(nodes[k].id, nodes[k].edges[j])}
  {
    var node := nodes[k];
    var edge := node.edges[j];
    var id := EdgeId(node.id, edge);
    if id in seen {
      return rows, seen;
    }
    seen' := seen + {id};
    rows' := EdgeFrame(rows.ids + [EdgeId(node.id, edge)], rows.sources + [node.id], rows.targets + [edge],
                       rows.mainStats + [Random(100)]);
    assert HasEdge(nodes, node.id, edge) by {
      assert nodes[k].id == node.id && edge in nodes[k].edges;
    }
    assert forall r :: 0 <= r < |rows.ids| ==> rows'.ids[r] == rows.ids[r] && rows.ids[r] in seen;
  }

  /** The inner loop over one node's edges. */
  method AddNodeEdges(nodes: seq<GraphNode>, k: nat, rows: EdgeFrame, seen: set<string>)
    returns (rows': EdgeFrame, seen': set<string>)
    requires k < |nodes| && EdgeRows(nodes, rows, seen) && Covered(nodes, k, seen)
    ensures EdgeRows(nodes, rows', seen') && Covered(nodes, k + 1, seen')
  {
    rows', seen' := rows, seen;
    var j := 0;
    while j < |nodes[k].edges|
      invariant j <= |nodes[k].edges|
      invariant EdgeRows(nodes, rows', seen') && Covered(nodes, k, seen')
      invariant forall m :: 0 <= m < j ==> EdgeId(nodes[k].id, nodes[k].edges[m]) in seen'
    {
      rows', seen' := AddEdgeRow(nodes, k, j, rows', seen');
      j := j + 1;
    }
  }

  /** The node columns for the first `k` nodes, field by field. */
  ghost predicate NodeColumns(nodes: seq<GraphNode>, k: nat, f: NodeFrame)
    requires k <= |nodes|
  {
    && |f.ids| == k && |f.titles| == k && |f.subTitles| == k && |f.mainStats| == k
    && |f.secondaryStats| == k && |f.arcSuccess| == k && |f.arcErrors| == k
    && forall q :: 0 <= q < k ==>
         && f.ids[q] == nodes[q].id && f.titles[q] == nodes[q].title && f.subTitles[q] == nodes[q].subTitle
         && f.mainStats[q] == nodes[q].stat1 && f.secondaryStats[q] == nodes[q].stat2
         && f.arcSuccess[q] == nodes[q].success && f.arcErrors[q] == nodes[q].error
  }

  /**
    The frame-filling loop of `generateRandomNodes`: one node row per node, and
    one edge row per node edge whose `source--target` id has not been emitted.
   */
  method BuildFrames(nodes: seq<GraphNode>) returns (nodeFrame: NodeFrame, edgeFrame: EdgeFrame)
    ensures NodeColumns(nodes, |nodes|, nodeFrame)
    ensures EdgeRows(nodes, edgeFrame, set r | 0 <= r < |edgeFrame.ids| :: edgeFrame.ids[r])
    ensures Covered(nodes, |nodes|, set r | 0 <= r < |edgeFrame.ids| :: edgeFrame.ids[r])
  {
    nodeFrame := NodeFrame([], [], [], [], [], [], []);
    edgeFrame := EdgeFrame([], [], [], []);
    var edgesSet: set<string> := {};
    for k := 0 to |nodes|
      invariant NodeColumns(nodes, k, nodeFrame)
      invariant EdgeRows(nodes, edgeFrame, edgesSet) && Covered(nodes, k, edgesSet)
    {
      var node := nodes[k];
      nodeFrame := NodeFrame(nodeFrame.ids + [node.id], nodeFrame.titles + [node.title],
                             nodeFrame.subTitles + [node.subTitle], nodeFrame.mainStats + [node.stat1],
                             nodeFrame.secondaryStats + [node.stat2], nodeFrame.arcSuccess + [node.success],
                             nodeFrame.arcErrors + [node.error]);
      edgeFrame, edgesSet := AddNodeEdges(nodes, k, edgeFrame, edgesSet);
    }
    assert edgesSet == set r | 0 <= r < |edgeFrame.ids| :: edgeFrame.ids[r];
  }

  // ---------------------------------------------------------------------------
  // The whole generator.

  /** The ids of the first `n` nodes. */
  function NodeIds(n: nat): (r: seq<string>)
    ensures |r| == n && forall k :: 0 <= k < n ==> r[k] == NodeId(k)
  {
    seq(n, k requires 0 <= k < n => NodeId(k))
  }

  /**
    What the edges frame promises about a graph with node ids `ids`: the four
    columns line up, edge ids are distinct and read `source--target`, no edge
    is a self-loop, every end is a node, and every node but the first is the
    target of an edge from an earlier node.
   */
  ghost predicate ValidEdgeFrame(ids: seq<string>, e: EdgeFrame) {
    && |e.sources| == |e.ids| && |e.targets| == |e.ids| && |e.mainStats| == |e.ids|
    && Distinct(e.ids)
    && (forall r :: 0 <= r < |e.ids| ==>
          && e.ids[r] == EdgeId(e.sources[r], e.targets[r])
          && e.sources[r] != e.targets[r]
          && e.sources[r] in ids && e.targets[r] in ids)
    && (forall j :: 1 <= j < |ids| ==> ReachedFromEarlier(ids, e, j))
  }

  /** Some row of `e` leads to node `j` from a node before it. */
  ghost predicate ReachedFromEarlier(ids: seq<string>, e: EdgeFrame, j: nat)
    requires j < |ids|
  {
    exists r :: 0 <= r < |e.ids| && r < |e.sources| && r < |e.targets| && e.targets[r] == ids[j] && e.sources[r] in ids[..j]
  }

  /** After both phases every node keeps its fresh fields and id. */
  lemma FinalNodes(tree: seq<GraphNode>, kids: seq<seq<nat>>, nodes: seq<GraphNode>, extra: seq<seq<nat>>)
    requires NodesFollow(tree, kids) && Extended(tree, nodes, extra)
    ensures forall k :: 0 <= k < |nodes| ==> nodes[k] == FreshNode(k).(edges := nodes[k].edges)
  {
  }

  /** Every edge of the final graph leads from node `k` to some other node `c`. */
  lemma EdgeTarget(tree: seq<GraphNode>, kids: seq<seq<nat>>, parent: seq<nat>, nodes: seq<GraphNode>,
                   extra: seq<seq<nat>>, k: nat, m: nat) returns (c: nat)
    requires NodesFollow(tree, kids) && ParentLinks(kids, parent) && Extended(tree, nodes, extra)
    requires k < |nodes| && m < |nodes[k].edges|
    ensures c < |nodes| && c != k && nodes[k].edges[m] == NodeId(c)
  {
    var own := |tree[k].edges|;
    assert nodes[k].edges == Ids(kids[k]) + IdsOf(tree, extra[k]);
    if m < own {
      c := kids[k][m];
    } else {
      c := extra[k][m - own];
    }
  }

  /** Each node but the root is among the edges of its tree parent. */
  lemma ParentEdge(tree: seq<GraphNode>, kids: seq<seq<nat>>, parent: seq<nat>, nodes: seq<GraphNode>,
                   extra: seq<seq<nat>>, j: nat) returns (m: nat)
    requires NodesFollow(tree, kids) && ParentLinks(kids, parent) && Extended(tree, nodes, extra)
    requires 1 <= j < |nodes|
    ensures parent[j] < j && m < |nodes[parent[j]].edges| && nodes[parent[j]].edges[m] == NodeId(j)
  {
    var p := parent[j];
    var i :| 0 <= i < |kids[p]| && kids[p][i] == j;
    assert nodes[p].edges == Ids(kids[p]) + IdsOf(tree, extra[p]);
    m := i;
  }

  /** Row `r` of the edges frame joins two different nodes. */
  lemma RowEnds(tree: seq<GraphNode>, kids: seq<seq<nat>>, parent: seq<nat>, nodes: seq<GraphNode>,
                extra: seq<seq<nat>>, e: EdgeFrame, seen: set<string>, r: nat)
    requires NodesFollow(tree, kids) && ParentLinks(kids, parent) && Extended(tree, nodes, extra)
    requires EdgeRows(nodes, e, seen) && r < |e.ids|
    ensures var ids := NodeIds(|nodes|);
            e.sources[r] != e.targets[r] && e.sources[r] in ids && e.targets[r] in ids
  {
    var ids := NodeIds(|nodes|);
    FinalNodes(tree, kids, nodes, extra);
    var k :| 0 <= k < |nodes| && nodes[k].id == e.sources[r] && e.targets[r] in nodes[k].edges;
    var m :| 0 <= m < |nodes[k].edges| && nodes[k].edges[m] == e.targets[r];
    var c := EdgeTarget(tree, kids, parent, nodes, extra, k, m);
    NodeIdInjective(c, k);
    assert ids[k] == e.sources[r] && ids[c] == e.targets[r];
  }

  /** Some row of the edges frame leads to node `j` from its tree parent. */
  lemma ParentRow(tree: seq<GraphNode>, kids: seq<seq<nat>>, parent: seq<nat>, nodes: seq<GraphNode>,
                  extra: seq<seq<nat>>, e: EdgeFrame, j: nat) returns (r: nat)
    requires NodesFollow(tree, kids) && ParentLinks(kids, parent) && Extended(tree, nodes, extra)
    requires EdgeRows(nodes, e, set r | 0 <= r < |e.ids| :: e.ids[r])
    requires Covered(nodes, |nodes|, set r | 0 <= r < |e.ids| :: e.ids[r])
    requires 1 <= j < |nodes|
    ensures var ids := NodeIds(|nodes|);
            r < |e.ids| && e.targets[r] == ids[j] && e.sources[r] in ids[..j]
  {
    var ids := NodeIds(|nodes|);
    FinalNodes(tree, kids, nodes, extra);
    var m := ParentEdge(tree, kids, parent, nodes, extra, j);
    var p := parent[j];
    assert EdgeId(nodes[p].id, nodes[p].edges[m]) in set r | 0 <= r < |e.ids| :: e.ids[r];
    r :| 0 <= r < |e.ids| && e.ids[r] == EdgeId(NodeId(p), NodeId(j));
    var k :| 0 <= k < |nodes| && nodes[k].id == e.sources[r] && e.targets[r] in nodes[k].edges;
    NodeIdInjective(k, p);
    NodeIdInjective(p, k);
    assert e.sources[r] == NodeId(k);
    EdgeIdInjective(e.sources[r], e.targets[r], NodeId(p), NodeId(j));
    assert ids[..j][p] == NodeId(p);
  }

  /** The frames built from the final graph satisfy `ValidEdgeFrame` over the node ids. */
  lemma FramesOfGraph(tree: seq<GraphNode>, kids: seq<seq<nat>>, parent: seq<nat>, nodes: seq<GraphNode>,
                      extra: seq<seq<nat>>, edgeFrame: EdgeFrame, ids: seq<string>)
    requires NodesFollow(tree, kids) && ParentLinks(kids, parent) && Extended(tree, nodes, extra)
    requires EdgeRows(nodes, edgeFrame, set r | 0 <= r < |edgeFrame.ids| :: edgeFrame.ids[r])
    requires Covered(nodes, |nodes|, set r | 0 <= r < |edgeFrame.ids| :: edgeFrame.ids[r])
    requires ids == NodeIds(|nodes|)
    ensures ValidEdgeFrame(ids, edgeFrame)
  {
    var e := edgeFrame;
    forall r | 0 <= r < |e.ids|
      ensures e.sources[r] != e.targets[r] && e.sources[r] in ids && e.targets[r] in ids
    {
      RowEnds(tree, kids, parent, nodes, extra, e, set r | 0 <= r < |e.ids| :: e.ids[r], r);
    }
    forall j | 1 <= j < |ids|
      ensures ReachedFromEarlier(ids, e, j)
    {
      var r := ParentRow(tree, kids, parent, nodes, extra, e, j);
      assert 0 <= r < |e.ids| && e.targets[r] == ids[j] && e.sources[r] in ids[..j];
    }
  }

  /**
    `generateRandomNodes(count, seed)` with the seeded generator's values
    given as `rand`: the nodes frame and the edges frame.
   */
  method GenerateRandomNodes(count: int, rand: nat -> real) returns (nodeFrame: NodeFrame, edgeFrame: EdgeFrame)
    requires forall k :: 0.0 <= rand(k) < 1.0
    ensures |nodeFrame.ids| == if count >= 1 then count else 1
    ensures nodeFrame.ids == NodeIds(|nodeFrame.ids|)
    ensures nodeFrame.titles == nodeFrame.ids
    ensures forall k :: 0 <= k < |nodeFrame.subTitles| ==> nodeFrame.subTitles[k] == if k == 0 then "client" else "service"
    ensures |nodeFrame.subTitles| == |nodeFrame.ids| && |nodeFrame.mainStats| == |nodeFrame.ids| && |nodeFrame.secondaryStats| == |nodeFrame.ids|
    ensures |nodeFrame.arcSuccess| == |nodeFrame.ids| && |nodeFrame.arcErrors| == |nodeFrame.ids|
    ensures Distinct(nodeFrame.ids)
    ensures ValidEdgeFrame(nodeFrame.ids, edgeFrame)
  {
    var tree, open, kids, parent := GrowTree(count, rand);
    var nodes, extra := AddExtraEdges(tree, count, rand, |tree| - 1);
    nodeFrame, edgeFrame := BuildFrames(nodes);
    FinalNodes(tree, kids, nodes, extra);
    assert nodeFrame.ids == NodeIds(|nodes|);
    assert nodeFrame.titles == nodeFrame.ids;
    FramesOfGraph(tree, kids, parent, nodes, extra, edgeFrame, nodeFrame.ids);
    forall a, b | 0 <= a < b < |nodeFrame.ids|
      ensures nodeFrame.ids[a] != nodeFrame.ids[b]
    {
      NodeIdInjective(a, b);
    }
  }

  /** `generateRandomEdges(count, seed)`: the edges frame of `generateRandomNodes`. */
  method GenerateRandomEdges(count: int, rand: nat -> real) returns (edgeFrame: EdgeFrame)
    requires forall k :: 0.0 <= rand(k) < 1.0
    ensures ValidEdgeFrame(NodeIds(if count >= 1 then count else 1), edgeFrame)
  {
    var nodeFrame;
    nodeFrame, edgeFrame := GenerateRandomNodes(count, rand);
  }
}
