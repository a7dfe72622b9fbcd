/**
 What a node's path means: it spells an address, a sequence of `.key` and
 `[index]` accessors, and following that address from the document reaches
 exactly the value the node shows.
 */
module Addresses {
  import opened Options
  import opened JsonValue
  import opened TreeBuilder

  /** Spelling one more accessor appends its text. */
  lemma {:induction false} RenderAppend(a: Address, s: Step)
    ensures Render(a + [s]) == Render(a) + StepText(s)
    decreases |a|
  {
    if |a| > 0 {
      assert (a + [s])[1..] == a[1..] + [s];
      RenderAppend(a[1..], s);
    }
  }

  /** Following one more accessor applies it to where the address led. */
  lemma {:induction false} LookupAppend(v: Json, a: Address, s: Step)
    ensures Lookup(v, a + [s]) == match Lookup(v, a) case Some(u) => Select(u, s) case None => None
    decreases |a|
  {
    if |a| == 0 {
      assert [s][1..] == [];
    } else {
      assert (a + [s])[0] == a[0] && (a + [s])[1..] == a[1..] + [s];
      match Select(v, a[0])
      case Some(c) => LookupAppend(c, a[1..], s);
      case None =>
    }
  }

  /** n has an address in root, and the objects in n's value have distinct keys. */
  ghost predicate Addressed(root: Json, n: Node) {
    DistinctKeys(n.value) && HasAddress(root, n)
  }

  /** n's path is `$` followed by the text of an address that leads from root to n's value. */
  ghost predicate HasAddress(root: Json, n: Node) {
    exists a :: n.path == RootPath + Render(a) && Lookup(root, a) == Some(n.value)
  }

  /** The i-th child of a value an address reaches is reached by one more accessor. */
  lemma ChildLookup(root: Json, a: Address, u: Json, i: nat)
    requires Lookup(root, a) == Some(u) && i < Count(u) && DistinctKeys(u)
    ensures Lookup(root, a + [StepTo(u, i)]) == Some(Child(u, i))
    ensures DistinctKeys(Child(u, i))
  {
    assert DistinctKeysFrom(u, 0);
    DistinctKeysChild(u, 0, i);
    SelectStepTo(u, i);
    LookupAppend(root, a, StepTo(u, i));
  }

  /** A path that spells a, extended by one accessor's text, spells a and that accessor. */
  lemma PathExtends(path: string, a: Address, s: Step)
    requires path == RootPath + Render(a)
    ensures path + StepText(s) == RootPath + Render(a + [s])
  {
    RenderAppend(a, s);
    var r, t := Render(a), StepText(s);
    assert path + t == RootPath + (r + t);
  }

  /** The node of a child is addressed by its parent's address and one more accessor. */
  lemma ChildAddressed(root: Json, c: Node, p: Node, i: nat)
    requires i < Count(p.value) && c.value == Child(p.value, i) && c.path == ChildPath(p.path, p.value, i)
    requires Addressed(root, p)
    ensures Addressed(root, c)
  {
    var a :| p.path == RootPath + Render(a) && Lookup(root, a) == Some(p.value);
    var s := StepTo(p.value, i);
    ChildLookup(root, a, p.value, i);
    PathExtends(p.path, a, s);
    var b := a + [s];
    assert c.path == RootPath + Render(b) && Lookup(root, b) == Some(c.value);
  }

  /**
   In a node list whose first node is the root and whose every later node is
   linked to a parent before it, every node is addressed.
   */
  lemma {:induction false} AllAddressed(root: Json, L: seq<Node>, E: seq<Edge>, k: nat)
    requires Linked(L, E, 1, IsChildOf)
    requires k < |L| && L[0].path == RootPath && L[0].value == root && DistinctKeys(root)
    ensures Addressed(root, L[k])
    decreases k
  {
    if k == 0 {
      assert L[0].path == RootPath + Render([]);
    } else {
      assert LinkedAt(L, E, 1, k - 1, IsChildOf);
      var p :| 0 <= p < k && E[k - 1].source == L[p].id && IsChildOf(L[k], L[p]);
      var i :| ChildAt(L[k], L[p], i);
      AllAddressed(root, L, E, p);
      ChildAddressed(root, L[k], L[p], i);
    }
  }

  /**
   Every node of the diagram of a parsed document (whose objects have
   distinct keys) carries a path that spells an address of the value it
   shows: `$` then one `.key` or `[index]` per level, and looking that
   address up in the document gives the node's value back.
   */
  lemma TreeAddresses(v: Json)
    requires DistinctKeys(v)
    ensures var g := BuildTree(v);
      forall k :: 0 <= k < |g.nodes| ==> HasAddress(v, g.nodes[k])
  {
    var g := BuildTree(v);
    forall k | 0 <= k < |g.nodes| ensures HasAddress(v, g.nodes[k]) {
      AllAddressed(v, g.nodes, g.edges, k);
    }
  }
}
