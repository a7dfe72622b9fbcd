/**
 The tree builder: a depth-first walk over a JSON value that emits one
 visual node per value and one parent-to-child edge per non-root value
 (`generateTree` in src/components/JsonTreeVisualizerContent.tsx).
 */
module TreeBuilder {
  import opened Options
  import opened Text
  import opened JsonValue

  datatype Kind = ObjectNode | ArrayNode | PrimitiveNode

  /**
   Stands for the id string `${path}_${Math.random()}`: the tag is the random
   tiebreaker. The model draws tags from a counter that advances once per
   node in emission order, which is the assumption that no two random draws
   of one generation coincide.
   */
  datatype NodeId = NodeId(path: string, tag: nat)

  datatype Node = Node(
    id: NodeId,
    path: string,
    kind: Kind,
    value: Json,
    x: real,
    y: real,
    highlighted: bool)

  /** A parent-to-child edge; its id is the text `${source}-${target}`. */
  datatype Edge = Edge(source: NodeId, target: NodeId)

  datatype Graph = Graph(nodes: seq<Node>, edges: seq<Edge>)

  const RootPath: string := "$"
  const LevelHeight: real := 150.0
  const SiblingSpacing: real := 200.0

  /** The type tag: null and undefined are primitives, as are all non-containers. */
  function Classify(v: Json): (k: Kind)
    ensures k == ObjectNode <==> v.Obj?
    ensures k == ArrayNode <==> v.Arr?
    ensures v.Null? || v.Undefined? ==> k == PrimitiveNode
  {
    match v
    case Null | Undefined => PrimitiveNode
    case Obj(_) => ObjectNode
    case Arr(_) => ArrayNode
    case _ => PrimitiveNode
  }

  /** `path.split('.').pop() || path.split('[').pop()?.replace(']', '')` */
  function SegmentName(path: string): string {
    OrElse(LastSegment(path, '.'), RemoveFirst(LastSegment(path, '['), ']'))
  }

  /**
   The label the builder gives the node for v at path. The builder fixes a
   node's label from its path and value when it creates the node and nothing
   changes it afterwards, so the model derives it (NodeLabel) rather than
   storing it.
   */
  function Label(path: string, v: Json): (r: string)
    ensures r != ""
    ensures v.Obj? && path == RootPath ==> r == "root"
    ensures v.Arr? ==> var count := "[" + Decimal(|v.elems|) + "]";
      |count| < |r| && r[|r| - |count|..] == count
  {
    match v
    case Null | Undefined => OrElse(SegmentName(path), "null")
    case Obj(_) => if path == RootPath then "root" else OrElse(LastSegment(path, '.'), "object")
    case Arr(es) => OrElse(SegmentName(path), "array") + "[" + Decimal(|es|) + "]"
    case _ => OrElse(SegmentName(path), "value")
  }

  /** `${path}.${key}` for an object member, `${path}[${index}]` for an array element. */
  function ChildPath(path: string, v: Json, i: nat): string
    requires i < Count(v)
  {
    path + StepText(StepTo(v, i))
  }

  /** Horizontal position of child i of n: `x + (i - n / 2) * 200`. */
  function ChildX(x: real, i: nat, n: nat): real {
    x + (i as real - n as real / 2.0) * SiblingSpacing
  }

  /** The node the builder makes for value v before any search touches it. */
  function MakeNode(v: Json, path: string, x: real, y: real, tag: nat): Node {
    Node(NodeId(path, tag), path, Classify(v), v, x, y, false)
  }

  /** The node's `label` field. */
  function NodeLabel(n: Node): string {
    Label(n.path, n.value)
  }

  /** What holds of every node the builder emits: the tag-th emitted node. */
  ghost predicate Fresh(n: Node, tag: nat) {
    n == MakeNode(n.value, n.path, n.x, n.y, tag)
  }

  /**
   c is the node of the i-th child of p's value: its path extends p's path
   by that child's accessor, and it sits one level below p, shifted sideways
   by its index among its siblings.
   */
  ghost predicate ChildAt(c: Node, p: Node, i: nat) {
    && i < Count(p.value)
    && c.value == Child(p.value, i)
    && c.path == ChildPath(p.path, p.value, i)
    && c.x == ChildX(p.x, i, Count(p.value))
    && c.y == p.y + LevelHeight
  }

  ghost predicate IsChildOf(c: Node, p: Node) {
    exists i: nat :: ChildAt(c, p, i)
  }

  /**
   Edge j enters L[j + d] and leaves an earlier node of L to which L[j + d]
   stands in the relation `child` (the splicing lemmas below hold for any
   relation; the builder's edges satisfy them for IsChildOf).
   */
  ghost predicate LinkedAt(L: seq<Node>, E: seq<Edge>, d: nat, j: nat, child: (Node, Node) -> bool)
    requires j < |E| && j + d < |L|
  {
    && E[j].target == L[j + d].id
    && exists p :: 0 <= p < j + d && E[j].source == L[p].id && child(L[j + d], L[p])
  }

  /** The j-th edge enters the (j + d)-th node, from a parent listed before it. */
  ghost predicate Linked(L: seq<Node>, E: seq<Edge>, d: nat, child: (Node, Node) -> bool) {
    && |E| + d == |L|
    && forall j :: 0 <= j < |E| ==> LinkedAt(L, E, d, j, child)
  }

  /**
   Splicing: the subtree of one child, whose first edge comes from s, followed
   by the subtrees of the later children, is linked below s.
   */
  lemma LinkedCompose(s: Node, A: seq<Node>, EA: seq<Edge>, B: seq<Node>, EB: seq<Edge>, child: (Node, Node) -> bool)
    requires |A| >= 1 && |EA| == |A|
    requires EA[0] == Edge(s.id, A[0].id) && child(A[0], s)
    requires Linked(A, EA[1..], 1, child)
    requires Linked([s] + B, EB, 1, child)
    ensures Linked([s] + (A + B), EA + EB, 1, child)
  {
    var L := [s] + (A + B);
    var E := EA + EB;
    forall j | 0 <= j < |E| ensures LinkedAt(L, E, 1, j, child) {
      if j == 0 {
        assert L[0] == s && L[1] == A[0] && E[0] == EA[0];
      } else if j < |EA| {
        LinkedComposeLeft(s, A, EA, B, EB, j, child);
      } else {
        LinkedComposeRight(s, A, EA, B, EB, j, child);
      }
    }
  }

  lemma LinkedComposeLeft(s: Node, A: seq<Node>, EA: seq<Edge>, B: seq<Node>, EB: seq<Edge>, j: nat, child: (Node, Node) -> bool)
    requires 1 <= j < |EA| == |A|
    requires Linked(A, EA[1..], 1, child)
    ensures LinkedAt([s] + (A + B), EA + EB, 1, j, child)
  {
    var L := [s] + (A + B);
    assert LinkedAt(A, EA[1..], 1, j - 1, child);
    var p :| 0 <= p < j && EA[1..][j - 1].source == A[p].id && child(A[j], A[p]);
    assert L[p + 1] == A[p] && L[j + 1] == A[j] && (EA + EB)[j] == EA[1..][j - 1];
  }

  lemma LinkedComposeRight(s: Node, A: seq<Node>, EA: seq<Edge>, B: seq<Node>, EB: seq<Edge>, j: nat, child: (Node, Node) -> bool)
    requires |EA| == |A| <= j < |EA| + |EB|
    requires Linked([s] + B, EB, 1, child)
    ensures LinkedAt([s] + (A + B), EA + EB, 1, j, child)
  {
    var L := [s] + (A + B);
    var S := [s] + B;
    var j' := j - |EA|;
    assert LinkedAt(S, EB, 1, j', child);
    var p :| 0 <= p < j' + 1 && EB[j'].source == S[p].id && child(S[j' + 1], S[p]);
    assert L[j + 1] == S[j' + 1] && (EA + EB)[j] == EB[j'];
    if p == 0 {
      assert L[0] == S[0];
    } else {
      assert L[|A| + p] == S[p];
    }
  }

  /** The k-th node of g is the node of the j-th child of p, entered by an edge from p. */
  ghost predicate HeadAt(g: Graph, k: nat, p: Node, j: nat) {
    && k < |g.nodes| && k < |g.edges|
    && ChildAt(g.nodes[k], p, j)
    && g.edges[k] == Edge(p.id, g.nodes[k].id)
  }

  /** The children of self from the i-th on start where HeadAt says, within g. */
  ghost predicate HeadsFrom(g: Graph, self: Node, i: nat) {
    forall j :: i <= j < Count(self.value) ==> HeadAt(g, SizeBetween(self.value, i, j), self, j)
  }

  /**
   The first child's subtree followed by the later children's: the later
   heads move along by the size of the first subtree.
   */
  lemma HeadsCompose(self: Node, i: nat, c: Graph, rest: Graph)
    requires i < Count(self.value)
    requires |c.nodes| == Size(Child(self.value, i)) && |c.edges| == |c.nodes|
    requires ChildAt(c.nodes[0], self, i) && c.edges[0] == Edge(self.id, c.nodes[0].id)
    requires |rest.edges| == |rest.nodes|
    requires HeadsFrom(rest, self, i + 1)
    ensures HeadsFrom(Graph(c.nodes + rest.nodes, c.edges + rest.edges), self, i)
  {
    var g := Graph(c.nodes + rest.nodes, c.edges + rest.edges);
    forall j | i <= j < Count(self.value) ensures HeadAt(g, SizeBetween(self.value, i, j), self, j) {
      if j > i {
        var k := SizeBetween(self.value, i + 1, j);
        assert HeadAt(rest, k, self, j);
        assert g.nodes[|c.nodes| + k] == rest.nodes[k] && g.edges[|c.edges| + k] == rest.edges[k];
      }
    }
  }

  /**
   Pre-order: the j-th child of node k is found right after node k and the
   subtrees of k's children before j, and the edge into it comes from node
   k; the edges are numbered so that the edge into node o is edge o - d.
   */
  ghost predicate ChildPlaced(L: seq<Node>, E: seq<Edge>, d: nat, k: nat, j: nat)
    requires k < |L| && j < Count(L[k].value)
  {
    var o := k + 1 + SizeBetween(L[k].value, 0, j);
    && o < |L| && d <= o && o - d < |E|
    && ChildAt(L[o], L[k], j)
    && E[o - d] == Edge(L[k].id, L[o].id)
  }

  ghost predicate PreOrder(L: seq<Node>, E: seq<Edge>, d: nat) {
    forall k, j :: 0 <= k < |L| && 0 <= j < Count(L[k].value) ==> ChildPlaced(L, E, d, k, j)
  }

  /** Two blocks laid end to end, each in pre-order with its own edges. */
  lemma PreOrderAppend(A: seq<Node>, EA: seq<Edge>, B: seq<Node>, EB: seq<Edge>)
    requires |EA| == |A| && PreOrder(A, EA, 0) && PreOrder(B, EB, 0)
    ensures PreOrder(A + B, EA + EB, 0)
  {
    var L := A + B;
    forall k, j | 0 <= k < |L| && 0 <= j < Count(L[k].value) ensures ChildPlaced(L, EA + EB, 0, k, j) {
      if k < |A| {
        PlacedInFirst(A, EA, B, EB, k, j);
      } else {
        assert ChildPlaced(B, EB, 0, k - |A|, j);
        PlacedInSecond(A, EA, B, EB, k, j);
      }
    }
  }

  lemma PlacedInFirst(A: seq<Node>, EA: seq<Edge>, B: seq<Node>, EB: seq<Edge>, k: nat, j: nat)
    requires |EA| == |A| && k < |A| && j < Count(A[k].value) && ChildPlaced(A, EA, 0, k, j)
    ensures (A + B)[k] == A[k] && ChildPlaced(A + B, EA + EB, 0, k, j)
  {
    var o := k + 1 + SizeBetween(A[k].value, 0, j);
    assert (A + B)[o] == A[o] && (EA + EB)[o] == EA[o];
  }

  lemma PlacedInSecond(A: seq<Node>, EA: seq<Edge>, B: seq<Node>, EB: seq<Edge>, k: nat, j: nat)
    requires |EA| == |A| <= k < |A| + |B| && j < Count(B[k - |A|].value)
    requires ChildPlaced(B, EB, 0, k - |A|, j)
    ensures (A + B)[k] == B[k - |A|] && ChildPlaced(A + B, EA + EB, 0, k, j)
  {
    var k' := k - |A|;
    var o' := k' + 1 + SizeBetween(B[k'].value, 0, j);
    assert (A + B)[|A| + o'] == B[o'] && (EA + EB)[|A| + o'] == EB[o'];
  }

  /** A node placed before the subtrees of its children, which start where HeadAt says. */
  lemma PreOrderBelow(self: Node, up: seq<Edge>, K: seq<Node>, EK: seq<Edge>)
    requires |up| <= 1 && |EK| == |K| && PreOrder(K, EK, 0)
    requires HeadsFrom(Graph(K, EK), self, 0)
    ensures PreOrder([self] + K, up + EK, 1 - |up|)
  {
    var L := [self] + K;
    var E := up + EK;
    var d := 1 - |up|;
    forall k, j | 0 <= k < |L| && 0 <= j < Count(L[k].value) ensures ChildPlaced(L, E, d, k, j) {
      if k == 0 {
        assert HeadAt(Graph(K, EK), SizeBetween(self.value, 0, j), self, j);
        PlacedAtHead(self, up, K, EK, j);
      } else {
        assert ChildPlaced(K, EK, 0, k - 1, j);
        PlacedBelow(self, up, K, EK, k, j);
      }
    }
  }

  lemma PlacedAtHead(self: Node, up: seq<Edge>, K: seq<Node>, EK: seq<Edge>, j: nat)
    requires |up| <= 1 && |EK| == |K| && j < Count(self.value)
    requires HeadAt(Graph(K, EK), SizeBetween(self.value, 0, j), self, j)
    ensures ([self] + K)[0] == self && ChildPlaced([self] + K, up + EK, 1 - |up|, 0, j)
  {
    var s := SizeBetween(self.value, 0, j);
    assert ([self] + K)[1 + s] == K[s] && (up + EK)[|up| + s] == EK[s];
  }

  lemma PlacedBelow(self: Node, up: seq<Edge>, K: seq<Node>, EK: seq<Edge>, k: nat, j: nat)
    requires |up| <= 1 && |EK| == |K| && 1 <= k <= |K| && j < Count(K[k - 1].value)
    requires ChildPlaced(K, EK, 0, k - 1, j)
    ensures ([self] + K)[k] == K[k - 1] && ChildPlaced([self] + K, up + EK, 1 - |up|, k, j)
  {
    var k' := k - 1;
    var o' := k' + 1 + SizeBetween(K[k'].value, 0, j);
    assert ([self] + K)[1 + o'] == K[o'] && (up + EK)[|up| + o'] == EK[o'];
  }

  /**
   generateTree(v, path, parentId, x, y): the node for v, then the subtrees
   of its children in enumeration order; one edge from the parent when there
   is one (the root call has none), then the children's edges. Tags start at
   `next`.
   */
  function Build(v: Json, path: string, parent: Option<NodeId>, x: real, y: real, next: nat): (g: Graph)
    ensures |g.nodes| == Size(v)
    ensures g.nodes[0].id == NodeId(path, next) && g.nodes[0].path == path && g.nodes[0].value == v
    ensures g.nodes[0].x == x && g.nodes[0].y == y
    ensures |g.edges| == |g.nodes| - (if parent.Some? then 0 else 1)
    ensures parent.Some? ==> g.edges[0] == Edge(parent.value, g.nodes[0].id)
    ensures Linked(g.nodes, if parent.Some? then g.edges[1..] else g.edges, 1, IsChildOf)
    ensures forall k :: 0 <= k < |g.nodes| ==> Fresh(g.nodes[k], next + k) && path <= g.nodes[k].path
    ensures PreOrder(g.nodes, g.edges, if parent.Some? then 0 else 1)
    decreases v, 1
  {
    var self := MakeNode(v, path, x, y, next);
    var up := if parent.Some? then [Edge(parent.value, self.id)] else [];
    var kids := BuildKids(self, 0, next + 1);
    assert (up + kids.edges)[|up|..] == kids.edges;
    PreOrderBelow(self, up, kids.nodes, kids.edges);
    Graph([self] + kids.nodes, up + kids.edges)
  }

  /**
   The subtrees of the children of the node `self` from the i-th on, each
   child 150 below its parent and spread sideways by its index.
   */
  function BuildKids(self: Node, i: nat, next: nat): (g: Graph)
    requires i <= Count(self.value)
    ensures |g.nodes| == SizeFrom(self.value, i) && |g.edges| == |g.nodes|
    ensures Linked([self] + g.nodes, g.edges, 1, IsChildOf)
    ensures forall k :: 0 <= k < |g.nodes| ==> Fresh(g.nodes[k], next + k) && self.path < g.nodes[k].path
    ensures HeadsFrom(g, self, i)
    ensures PreOrder(g.nodes, g.edges, 0)
    decreases self.value, 0, Count(self.value) - i
  {
    var v := self.value;
    if i == Count(v) then Graph([], [])
    else
      var path := ChildPath(self.path, v, i);
      var c := Build(Child(v, i), path, Some(self.id), ChildX(self.x, i, Count(v)), self.y + LevelHeight, next);
      var rest := BuildKids(self, i + 1, next + |c.nodes|);
      assert ChildAt(c.nodes[0], self, i);
      LinkedCompose(self, c.nodes, c.edges, rest.nodes, rest.edges, IsChildOf);
      HeadsCompose(self, i, c, rest);
      PreOrderAppend(c.nodes, c.edges, rest.nodes, rest.edges);
      Graph(c.nodes + rest.nodes, c.edges + rest.edges)
  }

  /** The tree of a whole document: path `$`, no parent, at the origin, tags from 0. */
  function BuildTree(v: Json): (g: Graph)
    ensures |g.nodes| == Size(v) && |g.edges| == |g.nodes| - 1
    ensures g.nodes[0].path == RootPath && g.nodes[0].value == v
    ensures g.nodes[0].x == 0.0 && g.nodes[0].y == 0.0
    ensures Linked(g.nodes, g.edges, 1, IsChildOf)
    ensures forall k :: 0 <= k < |g.nodes| ==> Fresh(g.nodes[k], k) && RootPath <= g.nodes[k].path
    ensures PreOrder(g.nodes, g.edges, 1)
  {
    Build(v, RootPath, None, 0.0, 0.0, 0)
  }
}
