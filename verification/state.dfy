/**
 The visualizer page's state and the handlers that change it
 (src/components/JsonTreeVisualizerContent.tsx): the editor text, the
 diagram's nodes and edges, the search box, the search status line and the
 parse error line.
 */
module Visualizer {
  import opened Options
  import opened Text
  import opened JsonValue
  import opened TreeBuilder
  import opened TreeShape
  import opened Search

  const InvalidJsonMessage: string := "Invalid JSON format. Please check your input."

  datatype State = State(
    input: string,
    nodes: seq<Node>,
    edges: seq<Edge>,
    query: string,
    searchResult: string,
    jsonError: string)

  /** The page when it opens: the sample document in the editor, nothing drawn. */
  function Initial(sampleText: string): (r: State)
    ensures r.input == sampleText && r.nodes == [] && r.edges == []
    ensures Consistent(r)
  {
    State(sampleText, [], [], "", "", "")
  }

  /**
   handleGenerateTree. `parsed` is what `JSON.parse` made of the editor text,
   None when it threw. Both status lines are cleared first; a parse failure
   sets the error line and leaves the diagram as it was, a success replaces
   the diagram by the tree of the document.
   */
  function Generate(s: State, parsed: Option<Json>): (r: State)
    ensures r.input == s.input && r.query == s.query && r.searchResult == ""
    ensures parsed.None? ==> r.jsonError == InvalidJsonMessage && r.nodes == s.nodes && r.edges == s.edges
    ensures parsed.Some? ==> r.jsonError == "" && |r.nodes| == Size(parsed.value) && |r.edges| == |r.nodes| - 1
  {
    var cleared := s.(jsonError := "", searchResult := "");
    match parsed
    case None => cleared.(jsonError := InvalidJsonMessage)
    case Some(v) =>
      var g := BuildTree(v);
      cleared.(nodes := g.nodes, edges := g.edges)
  }

  /** A search's new state together with the point the view pans to, if any. */
  datatype Searched = Searched(state: State, center: Option<Point>)

  /** handleSearch: the nodes and the status line change, nothing else does. */
  function RunSearch(s: State): (r: Searched)
    ensures r.state == s.(nodes := r.state.nodes, searchResult := r.state.searchResult)
    ensures Blank(s.query) ==> r.state == s.(searchResult := EmptyQueryMessage) && r.center.None?
  {
    var o := HandleSearch(s.nodes, s.query);
    Searched(s.(nodes := o.nodes, searchResult := o.message), o.center)
  }

  /** handleClearSearch: empties the search box and the status line, un-highlights every node. */
  function ClearSearch(s: State): (r: State)
    ensures r.query == "" && r.searchResult == ""
    ensures r.input == s.input && r.edges == s.edges && r.jsonError == s.jsonError
    ensures |r.nodes| == |s.nodes|
    ensures forall i :: 0 <= i < |r.nodes| ==> !r.nodes[i].highlighted && r.nodes[i] == s.nodes[i].(highlighted := false)
  {
    s.(query := "", searchResult := "", nodes := ClearHighlights(s.nodes))
  }

  /** handleReset: everything empty. */
  function Reset(s: State): (r: State)
    ensures r == Initial("")
  {
    State("", [], [], "", "", "")
  }

  /** handleLoadSample: the sample text back in the editor and the error line cleared. */
  function LoadSample(s: State, sampleText: string): (r: State)
    ensures r == s.(input := sampleText, jsonError := "")
  {
    s.(input := sampleText, jsonError := "")
  }

  /** Resetting and then loading the sample gives back the page as it opens. */
  lemma ResetThenLoad(s: State, sampleText: string)
    ensures LoadSample(Reset(s), sampleText) == Initial(sampleText)
  {
  }

  /** Everything the user can do to the page that the model covers. */
  datatype Event =
    | EditInput(text: string)
    | EditQuery(text: string)
    | GenerateTree(parsed: Option<Json>)
    | SearchPaths
    | ClearSearchBox
    | ResetAll
    | LoadSampleText(sampleText: string)

  /** One event's effect; typing only replaces the edited text. */
  function Step(s: State, e: Event): State {
    match e
    case EditInput(t) => s.(input := t)
    case EditQuery(t) => s.(query := t)
    case GenerateTree(p) => Generate(s, p)
    case SearchPaths => RunSearch(s).state
    case ClearSearchBox => ClearSearch(s)
    case ResetAll => Reset(s)
    case LoadSampleText(t) => LoadSample(s, t)
  }

  function Run(s: State, events: seq<Event>): State
    decreases |events|
  {
    if |events| == 0 then s else Run(Step(s, events[0]), events[1..])
  }

  /* ---------------------------------------------------------------------
     The diagram on the page is always the tree of some document.
     --------------------------------------------------------------------- */

  /** The nodes and edges are those built for v, up to highlighting. */
  ghost predicate Draws(s: State, v: Json) {
    var g := BuildTree(v);
    ClearHighlights(s.nodes) == g.nodes && s.edges == g.edges
  }

  ghost predicate Consistent(s: State) {
    (s.nodes == [] && s.edges == []) || exists v :: Draws(s, v)
  }

  /** A freshly built diagram has no highlights. */
  lemma BuiltUnhighlighted(v: Json)
    ensures ClearHighlights(BuildTree(v).nodes) == BuildTree(v).nodes
  {
    var g := BuildTree(v);
    forall k | 0 <= k < |g.nodes| ensures !g.nodes[k].highlighted {
      assert Fresh(g.nodes[k], k);
    }
  }

  /** Highlighting never changes an id, so a consistent diagram's ids are distinct. */
  lemma ConsistentIds(s: State)
    requires Consistent(s)
    ensures UniqueIds(s.nodes)
  {
    if s.nodes != [] || s.edges != [] {
      var v :| Draws(s, v);
      TreeProperty(v);
      var c := ClearHighlights(s.nodes);
      forall a, b | 0 <= a < |s.nodes| && 0 <= b < |s.nodes| && s.nodes[a].id == s.nodes[b].id
        ensures a == b
      {
        assert c[a].id == s.nodes[a].id && c[b].id == s.nodes[b].id;
      }
    }
  }

  /** A successful generate draws the new document; a failed one keeps the old diagram. */
  lemma GenerateConsistent(s: State, parsed: Option<Json>)
    requires Consistent(s)
    ensures Consistent(Generate(s, parsed))
    ensures parsed.Some? ==> Draws(Generate(s, parsed), parsed.value)
  {
    var r := Generate(s, parsed);
    if parsed.Some? {
      var g := BuildTree(parsed.value);
      assert r.nodes == g.nodes && r.edges == g.edges;
      BuiltUnhighlighted(parsed.value);
      assert Draws(r, parsed.value);
    } else if s.nodes != [] || s.edges != [] {
      var v :| Draws(s, v);
      assert Draws(r, v);
    }
  }

  /** A change that only moves highlights keeps the document drawn. */
  lemma RehighlightConsistent(s: State, r: State)
    requires Consistent(s)
    requires r.edges == s.edges && ClearHighlights(r.nodes) == ClearHighlights(s.nodes)
    ensures Consistent(r)
  {
    if s.nodes != [] || s.edges != [] {
      var v :| Draws(s, v);
      assert Draws(r, v);
    }
  }

  /** Every handler keeps the diagram the tree of some document. */
  lemma {:induction false} StepConsistent(s: State, e: Event)
    requires Consistent(s)
    ensures Consistent(Step(s, e))
  {
    var r := Step(s, e);
    match e
    case GenerateTree(p) =>
      GenerateConsistent(s, p);
    case SearchPaths =>
      ClearIdempotent(s.nodes, s.query);
      RehighlightConsistent(s, r);
    case ClearSearchBox =>
      ClearIdempotent(s.nodes, s.query);
      RehighlightConsistent(s, r);
    case ResetAll =>
      assert r.nodes == [] && r.edges == [];
    case _ =>
      assert r.nodes == s.nodes && r.edges == s.edges;
      RehighlightConsistent(s, r);
  }

  lemma {:induction false} RunConsistent(s: State, events: seq<Event>)
    requires Consistent(s)
    ensures Consistent(Run(s, events))
    decreases |events|
  {
    if |events| > 0 {
      StepConsistent(s, events[0]);
      RunConsistent(Step(s, events[0]), events[1..]);
    }
  }

  /**
   Whatever the user has done since the page opened, a search with a
   non-blank query highlights exactly the nodes whose path contains it,
   ignoring case, and leaves the edges alone.
   */
  lemma SearchAfterAnyHistory(sampleText: string, events: seq<Event>)
    ensures var s := Run(Initial(sampleText), events);
      var r := RunSearch(s).state;
      && r.edges == s.edges
      && (!Blank(s.query) ==>
            forall i :: 0 <= i < |s.nodes| ==> (r.nodes[i].highlighted <==> Hit(s.nodes[i], s.query)))
  {
    var s := Run(Initial(sampleText), events);
    RunConsistent(Initial(sampleText), events);
    ConsistentIds(s);
    if !Blank(s.query) {
      SearchHighlightsMatches(s.nodes, s.query);
    }
  }
}
