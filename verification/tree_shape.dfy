/**
 The shape of what the builder emits: the edges form a tree that mirrors
 the containment structure of the input value, every non-root node has
 exactly one incoming edge, coming from its immediately enclosing
 container, and every node sits where the layout rule puts it.
 */
module TreeShape {
  import opened JsonValue
  import opened TreeBuilder

  /** No two nodes share an id. */
  ghost predicate UniqueIds(L: seq<Node>) {
    forall a, b :: 0 <= a < |L| && 0 <= b < |L| && L[a].id == L[b].id ==> a == b
  }

  /** Tags follow emission order, so the ids of one generation are pairwise distinct. */
  lemma FreshUnique(L: seq<Node>, next: nat)
    requires forall k :: 0 <= k < |L| ==> Fresh(L[k], next + k)
    ensures UniqueIds(L)
  {
    forall a, b | 0 <= a < |L| && 0 <= b < |L| && L[a].id == L[b].id ensures a == b {
      assert Fresh(L[a], next + a) && Fresh(L[b], next + b);
    }
  }

  /** With distinct ids, edge j of a linked list of edges is the one edge into node j + d. */
  lemma LinkedTargets(L: seq<Node>, E: seq<Edge>, d: nat, child: (Node, Node) -> bool)
    requires Linked(L, E, d, child) && UniqueIds(L)
    ensures forall j, c :: 0 <= j < |E| && 0 <= c < |L| ==> (E[j].target == L[c].id <==> c == j + d)
  {
    forall j, c | 0 <= j < |E| && 0 <= c < |L|
      ensures E[j].target == L[c].id <==> c == j + d
    {
      assert LinkedAt(L, E, d, j, child);
    }
  }

  /**
   The generated diagram is a tree over the document: one node per JSON
   value, the first of them the root at path `$`; every edge joins a
   container's node to the node of one of its direct children; the j-th edge
   is the only edge into the (j + 1)-th node and no edge enters the root; ids
   are distinct and every path starts with `$`.
   */
  lemma TreeProperty(v: Json)
    ensures var g := BuildTree(v);
      && |g.nodes| == Size(v)
      && |g.edges| == |g.nodes| - 1
      && g.nodes[0].path == RootPath
      && Linked(g.nodes, g.edges, 1, IsChildOf)
      && UniqueIds(g.nodes)
      && (forall j, c :: 0 <= j < |g.edges| && 0 <= c < |g.nodes| ==>
            (g.edges[j].target == g.nodes[c].id <==> c == j + 1))
      && (forall k :: 0 <= k < |g.nodes| ==> RootPath <= g.nodes[k].path)
      && PreOrder(g.nodes, g.edges, 1)
  {
    var g := BuildTree(v);
    FreshUnique(g.nodes, 0);
    LinkedTargets(g.nodes, g.edges, 1, IsChildOf);
  }
}
