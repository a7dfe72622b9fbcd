/**
 Path search over the nodes on screen (`handleSearch` and
 `handleClearSearch` in src/components/JsonTreeVisualizerContent.tsx): a
 case-insensitive substring test on each node's path, after which exactly
 the matching nodes are highlighted and the view is centred on the first.
 */
module Search {
  import opened Options
  import opened Text
  import opened JsonValue
  import opened TreeBuilder
  import opened TreeShape

  const EmptyQueryMessage: string := "Please enter a search query"
  const NoMatchMessage: string := "No matches found"

  /** A point of the canvas; the search pans the view to one. */
  datatype Point = Point(x: real, y: real)

  /** What a search hands back to the page: the new nodes, the status line, where to centre. */
  datatype Outcome = Outcome(nodes: seq<Node>, message: string, center: Option<Point>)

  /** `node.data.path.toLowerCase().includes(query.toLowerCase())` */
  predicate Matches(n: Node, query: string) {
    Includes(Lower(n.path), Lower(query))
  }

  /** The same test, stated by occurrence rather than by the left-to-right scan. */
  ghost predicate Hit(n: Node, query: string) {
    OccursIn(Lower(query), Lower(n.path))
  }

  lemma MatchesIsHit(n: Node, query: string)
    ensures Matches(n, query) <==> Hit(n, query)
  {
    IncludesCorrect(Lower(n.path), Lower(query));
  }

  /** Every node with its highlight switched off, in the same order. */
  function Unhighlight(nodes: seq<Node>): (r: seq<Node>)
    ensures |r| == |nodes|
    ensures forall i :: 0 <= i < |nodes| ==> r[i] == nodes[i].(highlighted := false)
  {
    seq(|nodes|, i requires 0 <= i < |nodes| => nodes[i].(highlighted := false))
  }

  /** `nodes.filter(n => Matches(n, query))`, keeping the original order. */
  function Filter(nodes: seq<Node>, query: string): seq<Node> {
    if |nodes| == 0 then []
    else
      var last := nodes[|nodes| - 1];
      Filter(nodes[..|nodes| - 1], query) + (if Matches(last, query) then [last] else [])
  }

  /** `matches.some(m => m.id === id)` */
  function SomeId(matches: seq<Node>, id: NodeId): bool {
    |matches| > 0 && (matches[0].id == id || SomeId(matches[1..], id))
  }

  /** The indices of the nodes a query matches. */
  ghost function MatchSet(nodes: seq<Node>, query: string): set<nat> {
    set i: nat | i < |nodes| && Matches(nodes[i], query)
  }

  /** `Found ${count} match(es)` */
  function FoundMessage(count: nat): string {
    "Found " + Decimal(count) + " match(es)"
  }

  /** Each node's highlight set from whether its id is among the matches. */
  function Mark(nodes: seq<Node>, matches: seq<Node>): (r: seq<Node>)
    ensures |r| == |nodes|
    ensures forall i :: 0 <= i < |nodes| ==> r[i] == nodes[i].(highlighted := SomeId(matches, nodes[i].id))
  {
    seq(|nodes|, i requires 0 <= i < |nodes| => nodes[i].(highlighted := SomeId(matches, nodes[i].id)))
  }

  /**
   handleSearch: a blank query only sets the prompt; otherwise every
   highlight is cleared, the nodes whose path contains the query (both
   lower-cased) are collected, and if there are any they are highlighted,
   counted in the status line and the first of them becomes the centre.
   */
  function HandleSearch(nodes: seq<Node>, query: string): (o: Outcome)
    ensures Blank(query) ==> o == Outcome(nodes, EmptyQueryMessage, None)
    ensures |o.nodes| == |nodes|
    ensures forall i :: 0 <= i < |nodes| ==> o.nodes[i] == nodes[i].(highlighted := o.nodes[i].highlighted)
  {
    TrimEmptyIffBlank(query);
    if Trim(query) == "" then Outcome(nodes, EmptyQueryMessage, None)
    else
      var reset := Unhighlight(nodes);
      var matches := Filter(reset, query);
      if |matches| > 0 then
        Outcome(Mark(reset, matches), FoundMessage(|matches|), Some(Point(matches[0].x, matches[0].y)))
      else
        Outcome(reset, NoMatchMessage, None)
  }

  /** handleClearSearch, on the nodes: every highlight off. */
  function ClearHighlights(nodes: seq<Node>): (r: seq<Node>)
    ensures |r| == |nodes|
    ensures forall i :: 0 <= i < |r| ==> !r[i].highlighted
    ensures forall i :: 0 <= i < |r| ==> r[i].(highlighted := nodes[i].highlighted) == nodes[i]
  {
    Unhighlight(nodes)
  }

  /* ---------------------------------------------------------------------
     What the filter keeps.
     --------------------------------------------------------------------- */

  /** A node is kept exactly when it is listed and matches. */
  lemma {:induction false} FilterMembers(nodes: seq<Node>, query: string, n: Node)
    ensures n in Filter(nodes, query) <==> n in nodes && Matches(n, query)
  {
    if |nodes| > 0 {
      var init := nodes[..|nodes| - 1];
      FilterMembers(init, query, n);
      assert nodes == init + [nodes[|nodes| - 1]];
    }
  }

  /** The filter keeps as many nodes as there are matching indices. */
  lemma {:induction false} FilterCount(nodes: seq<Node>, query: string)
    ensures |Filter(nodes, query)| == |MatchSet(nodes, query)|
  {
    if |nodes| == 0 {
      assert MatchSet(nodes, query) == {};
    } else {
      var k := |nodes| - 1;
      var init := nodes[..k];
      FilterCount(init, query);
      var before := MatchSet(init, query);
      assert forall i: nat :: i < k ==> init[i] == nodes[i];
      assert k !in before;
      assert forall i: nat :: i in MatchSet(nodes, query) <==> i in before || (i == k && Matches(nodes[k], query));
      if Matches(nodes[k], query) {
        assert MatchSet(nodes, query) == before + {k};
      } else {
        assert MatchSet(nodes, query) == before;
      }
    }
  }

  /** The first node kept is the first node that matches. */
  lemma {:induction false} FilterFirst(nodes: seq<Node>, query: string)
    requires |Filter(nodes, query)| > 0
    ensures exists i :: 0 <= i < |nodes| && FirstMatch(nodes, query, i) && Filter(nodes, query)[0] == nodes[i]
  {
    var k := |nodes| - 1;
    var init := nodes[..k];
    if |Filter(init, query)| > 0 {
      FilterFirst(init, query);
      var i :| 0 <= i < |init| && FirstMatch(init, query, i) && Filter(init, query)[0] == init[i];
      assert FirstMatch(nodes, query, i);
    } else {
      forall j | 0 <= j < k ensures !Matches(nodes[j], query) {
        FilterMembers(init, query, nodes[j]);
        assert nodes[j] == init[j];
      }
      assert FirstMatch(nodes, query, k);
    }
  }

  /** Node i matches and no node before it does. */
  predicate FirstMatch(nodes: seq<Node>, query: string, i: nat)
    requires i < |nodes|
  {
    Matches(nodes[i], query) && forall j :: 0 <= j < i ==> !Matches(nodes[j], query)
  }

  lemma {:induction false} SomeIdSpec(matches: seq<Node>, id: NodeId)
    ensures SomeId(matches, id) <==> exists k :: 0 <= k < |matches| && matches[k].id == id
  {
    if |matches| > 0 {
      SomeIdSpec(matches[1..], id);
      if SomeId(matches[1..], id) {
        var k :| 0 <= k < |matches[1..]| && matches[1..][k].id == id;
        assert matches[k + 1].id == id;
      }
      if exists k :: 0 <= k < |matches| && matches[k].id == id {
        var k :| 0 <= k < |matches| && matches[k].id == id;
        if k > 0 {
          assert matches[1..][k - 1].id == id;
        }
      }
    }
  }

  /* ---------------------------------------------------------------------
     What a search does to the diagram.
     --------------------------------------------------------------------- */

  /** A node ends up highlighted when some node with its id matches. */
  lemma SearchHighlightsById(nodes: seq<Node>, query: string, i: nat)
    requires !Blank(query) && i < |nodes|
    ensures HandleSearch(nodes, query).nodes[i].highlighted <==>
      exists j :: 0 <= j < |nodes| && nodes[j].id == nodes[i].id && Matches(nodes[j], query)
  {
    TrimEmptyIffBlank(query);
    var reset := Unhighlight(nodes);
    var matches := Filter(reset, query);
    SomeIdSpec(matches, nodes[i].id);
    if SomeId(matches, nodes[i].id) {
      var k :| 0 <= k < |matches| && matches[k].id == nodes[i].id;
      FilterMembers(reset, query, matches[k]);
      var j :| 0 <= j < |reset| && reset[j] == matches[k];
      assert nodes[j].id == nodes[i].id && Matches(nodes[j], query);
    }
    if exists j :: 0 <= j < |nodes| && nodes[j].id == nodes[i].id && Matches(nodes[j], query) {
      var j :| 0 <= j < |nodes| && nodes[j].id == nodes[i].id && Matches(nodes[j], query);
      FilterMembers(reset, query, reset[j]);
      var k :| 0 <= k < |matches| && matches[k] == reset[j];
      assert |matches| > 0;
    }
  }

  /**
   With distinct ids (as on every generated diagram), a non-blank search
   highlights exactly the nodes whose lower-cased path contains the
   lower-cased query.
   */
  lemma SearchHighlightsMatches(nodes: seq<Node>, query: string)
    requires !Blank(query) && UniqueIds(nodes)
    ensures forall i :: 0 <= i < |nodes| ==>
      (HandleSearch(nodes, query).nodes[i].highlighted <==> Hit(nodes[i], query))
  {
    forall i | 0 <= i < |nodes|
      ensures HandleSearch(nodes, query).nodes[i].highlighted <==> Hit(nodes[i], query)
    {
      SearchHighlightsById(nodes, query, i);
      MatchesIsHit(nodes[i], query);
    }
  }

  /**
   The status line of a non-blank search counts the matching nodes, and the
   view is centred on the first of them, or left alone when there is none.
   */
  lemma SearchReport(nodes: seq<Node>, query: string)
    requires !Blank(query)
    ensures var o := HandleSearch(nodes, query);
      var count := |MatchSet(nodes, query)|;
      && o.message == (if count > 0 then FoundMessage(count) else NoMatchMessage)
      && (o.center.None? <==> count == 0)
      && (o.center.Some? ==> exists i :: 0 <= i < |nodes| && FirstMatch(nodes, query, i)
                                        && o.center.value == Point(nodes[i].x, nodes[i].y))
  {
    TrimEmptyIffBlank(query);
    var reset := Unhighlight(nodes);
    var matches := Filter(reset, query);
    FilterCount(reset, query);
    assert MatchSet(reset, query) == MatchSet(nodes, query);
    if |matches| > 0 {
      FilterFirst(reset, query);
      var i :| 0 <= i < |reset| && FirstMatch(reset, query, i) && matches[0] == reset[i];
      assert FirstMatch(nodes, query, i);
    }
  }

  /** Earlier highlights never influence a search. */
  lemma SearchForgetsHighlights(nodes: seq<Node>, query: string)
    requires !Blank(query)
    ensures HandleSearch(ClearHighlights(nodes), query) == HandleSearch(nodes, query)
  {
    var reset := Unhighlight(nodes);
    assert Unhighlight(ClearHighlights(nodes)) == reset;
    TrimEmptyIffBlank(query);
    var matches := Filter(reset, query);
    if |matches| > 0 {
      assert HandleSearch(nodes, query) == Outcome(Mark(reset, matches), FoundMessage(|matches|), Some(Point(matches[0].x, matches[0].y)));
    } else {
      assert HandleSearch(nodes, query) == Outcome(reset, NoMatchMessage, None);
    }
  }

  /** Clearing twice is clearing once, and clearing after a search undoes it. */
  lemma ClearIdempotent(nodes: seq<Node>, query: string)
    ensures ClearHighlights(ClearHighlights(nodes)) == ClearHighlights(nodes)
    ensures ClearHighlights(HandleSearch(nodes, query).nodes) == ClearHighlights(nodes)
  {
    var o := HandleSearch(nodes, query);
    assert forall i :: 0 <= i < |nodes| ==> o.nodes[i].(highlighted := false) == nodes[i].(highlighted := false);
  }

  /** Upper-case letters lower to letters, never to white space. */
  lemma LowerKeepsBlank(s: string)
    ensures Blank(Lower(s)) <==> Blank(s)
  {
    forall i | 0 <= i < |s| ensures IsSpace(Lower(s)[i]) <==> IsSpace(s[i]) {
      if IsUpper(s[i]) {
        assert !IsSpace(s[i]);
        assert !IsSpace(LowerChar(s[i]));
      }
    }
  }

  /** The search ignores the case of the query. */
  lemma SearchIgnoresCase(nodes: seq<Node>, query: string)
    ensures HandleSearch(nodes, Lower(query)) == HandleSearch(nodes, query)
  {
    LowerKeepsBlank(query);
    TrimEmptyIffBlank(query);
    TrimEmptyIffBlank(Lower(query));
    LowerIdempotent(query);
    var reset := Unhighlight(nodes);
    assert forall n :: Matches(n, Lower(query)) == Matches(n, query);
    assert Filter(reset, Lower(query)) == Filter(reset, query) by {
      FilterSameTest(reset, Lower(query), query);
    }
  }

  lemma {:induction false} FilterSameTest(nodes: seq<Node>, q1: string, q2: string)
    requires forall n :: Matches(n, q1) == Matches(n, q2)
    ensures Filter(nodes, q1) == Filter(nodes, q2)
  {
    if |nodes| > 0 {
      FilterSameTest(nodes[..|nodes| - 1], q1, q2);
    }
  }

  /** On a generated diagram, searching for `$` highlights every node. */
  lemma SearchRootFindsAll(v: Json)
    ensures var g := BuildTree(v);
      var o := HandleSearch(g.nodes, RootPath);
      && o.message == FoundMessage(|g.nodes|)
      && forall i :: 0 <= i < |g.nodes| ==> o.nodes[i].highlighted
  {
    var g := BuildTree(v);
    SearchRootPrefixed(g.nodes);
  }

  /** Searching nodes whose paths all start with `$` for `$` highlights all of them. */
  lemma SearchRootPrefixed(nodes: seq<Node>)
    requires |nodes| > 0
    requires forall k :: 0 <= k < |nodes| ==> RootPath <= nodes[k].path
    ensures var o := HandleSearch(nodes, RootPath);
      && o.message == FoundMessage(|nodes|)
      && forall i :: 0 <= i < |nodes| ==> o.nodes[i].highlighted
  {
    RootPrefixMatches(nodes);
    assert !Blank(RootPath) by { assert !IsSpace(RootPath[0]); }
    SearchEveryMatch(nodes, RootPath);
  }

  /** Paths that start with `$` all match the query `$`. */
  lemma RootPrefixMatches(nodes: seq<Node>)
    requires forall k :: 0 <= k < |nodes| ==> RootPath <= nodes[k].path
    ensures forall k :: 0 <= k < |nodes| ==> Matches(nodes[k], RootPath)
  {
    assert Lower(RootPath) == RootPath;
    forall k | 0 <= k < |nodes| ensures Matches(nodes[k], RootPath) {
      var p := Lower(nodes[k].path);
      assert p[0] == '$';
      IncludesPrefix(p, RootPath);
    }
  }

  /** A query every node matches highlights every node and counts them all. */
  lemma SearchEveryMatch(nodes: seq<Node>, query: string)
    requires |nodes| > 0 && !Blank(query)
    requires forall k :: 0 <= k < |nodes| ==> Matches(nodes[k], query)
    ensures var o := HandleSearch(nodes, query);
      && o.message == FoundMessage(|nodes|)
      && forall i :: 0 <= i < |nodes| ==> o.nodes[i].highlighted
  {
    TrimEmptyIffBlank(query);
    var reset := Unhighlight(nodes);
    FilterAll(reset, query);
    forall i | 0 <= i < |nodes| ensures SomeId(reset, reset[i].id) {
      SomeIdSpec(reset, reset[i].id);
    }
  }

  /** When every node matches, the filter keeps them all. */
  lemma {:induction false} FilterAll(nodes: seq<Node>, query: string)
    requires forall i :: 0 <= i < |nodes| ==> Matches(nodes[i], query)
    ensures Filter(nodes, query) == nodes
  {
    if |nodes| > 0 {
      FilterAll(nodes[..|nodes| - 1], query);
      assert nodes == nodes[..|nodes| - 1] + [nodes[|nodes| - 1]];
    }
  }
}
