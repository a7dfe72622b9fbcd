# JSON tree visualizer — a Dafny model

This project models the core of the JSON tree visualizer. The visualizer is a
web page. It parses the JSON document in its editor and draws it as a tree
diagram: one node per JSON value and one edge from each container to each of
its children. It can also search the diagram by path.

The model covers four parts:

- **The tree builder** (`generateTree`). It walks the parsed value depth
  first and emits nodes and edges in pre-order. Each node carries:
  - a path: `$`, then `.key` for each object member and `[i]` for each array
    element;
  - a kind: object, array or primitive;
  - a label;
  - a position: children sit 150 below their parent, and child `i` of `n` is
    moved `(i − n/2)·200` sideways;
  - a highlight flag.
- **The page handlers**: generate, search, clear search, reset and load sample.
  They act on the page state: the editor text, the nodes, the edges, the search
  box, the search status line and the parse-error line.
- **The search.** A node is highlighted when its lower-cased path contains the
  lower-cased query. The status line counts the matches, and the view is
  centred on the first match.
- **The node card and tooltip** (`JsonNode`). The card shows the label over one
  line of detail. The tooltip reads `Path: …\nType: …\nValue: …`.

Modules:

- `Text` (text.dfy): the JavaScript string operations the code relies on:
  - `String(n)` for a non-negative integer;
  - `split(c).pop()`;
  - `replace(c, '')`;
  - `||` on strings;
  - `toLowerCase`, `trim` and `includes`.
- `Options` and `JsonValue` (json.dfy): JSON values, their children, their
  sizes and addresses.
- `TreeBuilder` (tree.dfy): node, edge and graph, the labels and positions, the
  builder itself, and the facts about its output that it carries as
  postconditions.
- `TreeShape` (tree_shape.dfy): the whole-diagram tree property.
- `Addresses` (addresses.dfy): a node's path leads back to its value.
- `Labels` (labels.dfy): the labels the builder actually gives.
- `Search` (search.dfy): `handleSearch` and `handleClearSearch` on the node
  list.
- `Visualizer` (state.dfy): the page state, its handlers, and the invariant
  that the diagram is always the tree of some document.
- `Display` (display.dfy): the card and the tooltip of a node.
- `Examples` (examples.dfy): two worked documents.

Some behaviours of the code are easy to misread; the model follows the code:

- **Root labels.** Only an object root is labelled `root`. An array root is
  labelled `$[n]`, and any other root `$` (`Labels.RootLabel`).
- **Array element labels.** An element is labelled with the last dotted segment
  of the parent's path followed by `[i]`. So element 1 of `$.items` reads
  `items[1]`, not `1` (`Labels.ElementLabel`).
- **Null labels.** A null or undefined value is labelled with its segment name,
  like any primitive. The words `null`, `value` and `array` are fallbacks that
  no non-empty path reaches (`Labels.SegmentLabel`).
- **Paths are not unique.** The member `a.b` of the root and the member `b` of
  member `a` both get the path `$.a.b` (`Examples.PathsCanCollide`). Node ids
  are distinct only through the random tiebreaker (`TreeShape.TreeProperty`).

## Model

| member | source | states |
|---|---|---|
| TreeBuilder.Build | src/components/JsonTreeVisualizerContent.tsx:84-301 | The subtree of a value has one node per nested value, with the value's own node first at the given path and position. One edge enters each node other than the first, from an earlier node whose child it is; that child's path is the parent's path plus `.key` or `[i]`, and it sits 150 lower and `(i − n/2)·200` across. Nodes come in pre-order: child j of node k is at k + 1 + the sizes of the children before j. |
| TreeBuilder.BuildKids | src/components/JsonTreeVisualizerContent.tsx:186-256 | The children's subtrees laid end to end. Each node has exactly one edge, linked to `self` or an earlier node of the block. Child j's subtree starts after the sizes of the children before it, and it opens with an edge from `self`. |
| TreeBuilder.Classify | src/components/JsonTreeVisualizerContent.tsx:109-296 | The `type` tag: `object` exactly for objects and `array` exactly for arrays. Null and undefined are primitives, because the null check at line 109 comes before the object test. |
| TreeBuilder.Label | src/components/JsonTreeVisualizerContent.tsx:115-118 | A node's label is never empty. The root object's label is `root`. An array's label ends with `[n]`, where n is its length. The other branches are at lines 156, 209-213 and 264-267. |
| TreeBuilder.BuildTree | src/components/JsonTreeVisualizerContent.tsx:84-94 | The tree of a parsed document: its root is at `$` and (0, 0), it has one edge fewer than it has nodes, and it is linked, fresh and in pre-order. |
| TreeBuilder.LinkedCompose | src/components/JsonTreeVisualizerContent.tsx:187-201 | Concatenating the nodes and edges of one child's subtree with those of its later siblings keeps every edge pointing from an earlier parent. |
| TreeBuilder.PreOrderBelow | src/components/JsonTreeVisualizerContent.tsx:174-201 | Putting a node in front of its children's blocks yields a pre-order list, with or without the edge from its own parent. |
| TreeShape.TreeProperty | src/components/JsonTreeVisualizerContent.tsx:84-301 | The diagram is a tree over the document: as many nodes as values, one edge fewer, the root at `$`, and ids pairwise distinct. Edge j is the only edge into node j + 1, and no edge enters the root. Every edge goes from a node to the node of a direct child. Every path starts with `$`. |
| TreeShape.FreshUnique | src/components/JsonTreeVisualizerContent.tsx:94 | Ids drawn once per node in emission order are pairwise distinct. |
| TreeShape.LinkedTargets | src/components/JsonTreeVisualizerContent.tsx:176-184 | In a linked list of edges over nodes with distinct ids, an edge enters a node if and only if the node is the one that edge was emitted for. |
| Addresses.TreeAddresses | src/components/JsonTreeVisualizerContent.tsx:186-256 | For a parsed document, each node's path is `$` followed by the spelling of an address. Following that address through the document yields the node's value. |
| Addresses.ChildAddressed | src/components/JsonTreeVisualizerContent.tsx:188 | A child's path `${path}.${key}` / `${path}[${index}]` extends its parent's address by the accessor that selects that child. |
| JsonValue.SelectStepTo | src/components/JsonTreeVisualizerContent.tsx:187-188 | With distinct keys, the accessor of the i-th entry selects exactly that entry's value. |
| Labels.RootLabel | src/components/JsonTreeVisualizerContent.tsx:156 | The root object is labelled `root`, a root array `$[n]` and a root primitive `$`. |
| Labels.MemberLabel | src/components/JsonTreeVisualizerContent.tsx:264-267 | A member with a non-empty key that has no dot is labelled with the key. An array member also gets the `[n]` suffix. |
| Labels.ElementLabel | src/components/JsonTreeVisualizerContent.tsx:209-213 | An array element is labelled with the parent path's last dotted segment, then `[i]`, then `[n]` if the element is itself an array of n items. |
| Labels.SegmentLabel | src/components/JsonTreeVisualizerContent.tsx:115-118 | For a non-empty path, a non-object's label is the path's segment name. So the `null`, `value` and `array` fallbacks are never shown. |
| Labels.SegmentNameNonEmpty | src/components/JsonTreeVisualizerContent.tsx:116-117 | `split('.').pop() \|\| split('[').pop().replace(']', '')` is non-empty for every non-empty path. |
| Search.HandleSearch | src/components/JsonTreeVisualizerContent.tsx:322-372 | A blank query returns the prompt and leaves the nodes unchanged, with no centre. Any search keeps the node count and changes nothing in a node but its highlight. |
| Search.ClearHighlights | src/components/JsonTreeVisualizerContent.tsx:377-385 | Every highlight is off, and each node is otherwise unchanged. |
| Search.SearchHighlightsMatches | src/components/JsonTreeVisualizerContent.tsx:339-356 | With a non-blank query and distinct ids, a node is highlighted if and only if the lower-cased query occurs in its lower-cased path. |
| Search.SearchHighlightsById | src/components/JsonTreeVisualizerContent.tsx:345-349 | In general, a node is highlighted if and only if some node with the same id matches. |
| Search.SearchReport | src/components/JsonTreeVisualizerContent.tsx:343-371 | The status line reads `Found N match(es)`, where N is the number of matching nodes, or `No matches found`. There is a centre if and only if N > 0, and it is the position of the first matching node. |
| Search.SearchForgetsHighlights | src/components/JsonTreeVisualizerContent.tsx:328-336 | A search's outcome does not depend on the highlights that were on before it. |
| Search.ClearIdempotent | src/components/JsonTreeVisualizerContent.tsx:374-387 | Clearing twice equals clearing once. Clearing after a search equals clearing before it. |
| Search.SearchIgnoresCase | src/components/JsonTreeVisualizerContent.tsx:340 | Searching for the lower-cased query gives the same outcome as searching for the query. |
| Search.SearchRootFindsAll | src/components/JsonTreeVisualizerContent.tsx:339-359 | Searching a generated diagram for `$` highlights every node and reports all of them. |
| Search.MatchesIsHit | src/components/JsonTreeVisualizerContent.tsx:340 | The left-to-right `includes` scan agrees with "occurs at some offset". |
| Search.FilterMembers | src/components/JsonTreeVisualizerContent.tsx:339-341 | A node is kept by the filter if and only if it is among the nodes and matches. |
| Search.FilterCount | src/components/JsonTreeVisualizerContent.tsx:359 | The filter keeps exactly as many nodes as there are matching indices. |
| Search.FilterFirst | src/components/JsonTreeVisualizerContent.tsx:362 | The first kept node is the first matching node in list order. |
| Search.SomeIdSpec | src/components/JsonTreeVisualizerContent.tsx:346 | `some(match => match.id === id)` holds if and only if some element has that id. |
| Visualizer.Generate | src/components/JsonTreeVisualizerContent.tsx:303-320 | Both status lines are cleared. A parse failure sets the error text and keeps the diagram. A success draws as many nodes as the document has values, and one edge fewer. |
| Visualizer.RunSearch | src/components/JsonTreeVisualizerContent.tsx:322-372 | Only the nodes and the status line change. A blank query sets the prompt and touches nothing else. |
| Visualizer.ClearSearch | src/components/JsonTreeVisualizerContent.tsx:374-387 | The query and the status line are emptied and every highlight is switched off. Everything else is kept. |
| Visualizer.Reset | src/components/JsonTreeVisualizerContent.tsx:389-396 | The page returns to all-empty. |
| Visualizer.Initial | src/components/JsonTreeVisualizerContent.tsx:71-78 | The page opens with the sample text in the editor and no diagram. This state satisfies the diagram invariant `Consistent`. |
| Visualizer.ResetThenLoad | src/components/JsonTreeVisualizerContent.tsx:389-401 | A reset followed by loading the sample gives back the page as it first opened. |
| Visualizer.GenerateConsistent | src/components/JsonTreeVisualizerContent.tsx:303-320 | After a generate, the diagram is the tree of the parsed document, or the previous diagram if parsing failed. |
| Visualizer.StepConsistent | src/components/JsonTreeVisualizerContent.tsx:303-401 | Every modelled handler keeps the diagram either empty or the tree of some document, up to highlights. |
| Visualizer.RunConsistent | src/components/JsonTreeVisualizerContent.tsx:303-401 | The same holds after any sequence of modelled events. |
| Visualizer.ConsistentIds | src/components/JsonTreeVisualizerContent.tsx:94 | The nodes on the page always have distinct ids. |
| Visualizer.SearchAfterAnyHistory | src/components/JsonTreeVisualizerContent.tsx:322-372 | Whatever happened before, a non-blank search keeps the edges and highlights exactly the nodes whose path contains the query, ignoring case. |
| Display.RenderCard | src/components/JsonNode.tsx:20-55 | The card's title is the node's non-empty label. A primitive's detail line is its tooltip value, quoted if it is a string; null and undefined are spelt out. An object's detail line is what its tooltip value shows after `object with `. An array with a length works the same way after `array with `. |
| Display.ValueText | src/components/JsonNode.tsx:60-67 | For a container, the tooltip value starts with its type name followed by ` with `. |
| Display.QuotedRoundTrip | src/components/JsonNode.tsx:23-24 | A string's card text is the string between two double quotes. |
| Display.CardsOfClassified | src/components/JsonNode.tsx:40-68 | An object's card and tooltip give its member count (`N keys`), and an array's give its element count (`N items`). A primitive's card shows its value. |
| Display.BuiltNodesClassified | src/components/JsonTreeVisualizerContent.tsx:109-296 | Every generated node's kind agrees with its value, so CardsOfClassified applies to it. |
| Display.Tooltip | src/components/JsonNode.tsx:60-68 | If the path has no line break, the three-line tooltip reads back as that path, the type name and the value text. |
| Text.Decimal | src/components/JsonTreeVisualizerContent.tsx:213 | `${n}` is a non-empty string of digits with no leading zero. |
| Text.DecimalRoundTrip | src/components/JsonTreeVisualizerContent.tsx:244 | Reading back the printed index gives the index. |
| Text.DecimalInjective | src/components/JsonTreeVisualizerContent.tsx:244 | Distinct indices print differently. |
| Text.LastSegmentSpec | src/components/JsonTreeVisualizerContent.tsx:116 | `split(sep).pop()` returns a suffix with no separator in it, and that suffix is either the whole string or preceded by the separator. |
| Text.RemoveFirstSpec | src/components/JsonTreeVisualizerContent.tsx:117 | `replace(']', '')` removes only the first `]`, if there is one. |
| Text.TrimEmptyIffBlank | src/components/JsonTreeVisualizerContent.tsx:323 | `!query.trim()` holds exactly for all-whitespace queries. |
| Text.IncludesCorrect | src/components/JsonTreeVisualizerContent.tsx:340 | `includes` holds if and only if the needle occurs at some offset. |
| Text.LowerIdempotent | src/components/JsonTreeVisualizerContent.tsx:340 | Lower-casing twice is lower-casing once. |
| Examples.NestedTree | src/components/JsonTreeVisualizerContent.tsx:186-201 | `{"a":{"b":1}}` has three values, labelled `root`, `a` and `b`, at the paths `$`, `$.a` and `$.a.b`. The leaf shows `1`. |
| Examples.PathsCanCollide | src/components/JsonTreeVisualizerContent.tsx:188 | Two different members of one document can get the same path `$.a.b`. |

## Left out

- React rendering, JSX markup, styles, colours, borders, box shadows and dark mode: these are presentation only and have no state logic.
- User edits to the diagram are not modelled. These are dragging, removing nodes and edges through ReactFlow (`onNodesChange`, `onEdgesChange`, lines 666-667), and drawing a new edge (`onConnect`, lines 403-406, which appends it with `addEdge`). A connection or a removal breaks `Consistent`: the diagram is then no longer the tree of any document. So Visualizer.StepConsistent, Visualizer.RunConsistent and Visualizer.SearchAfterAnyHistory cover only the modelled events.
- The `setTimeout`/`fitView` after generating, and the zoom and duration of `setCenter`: these are animations. The model records only the point the view is centred on.
- The clipboard copy of a path, the download and the alert: these are I/O.
- `JSON.parse`: the parser is not modelled. Its result is an `Option<Json>` parameter, and `None` stands for a parse that threw.
- Visualizer.Generate: the `try` at lines 307-319 also catches a throw from the builder itself, for example a stack overflow on a very deeply nested document. That case is reported as the parse error and keeps the old diagram. The model does not cover it: `Generate(s, Some(v))` always draws `BuildTree(v)`.
- `JSON.stringify` of the sample document: the sample text is a parameter of `Initial` and `LoadSample`.
- `Math.random` in node ids: the id is modelled as the path plus a tag drawn from a counter, one per node in emission order. This assumes no two random draws of one generation coincide.
- Numbers: they are kept as the text `String()` gives them, with no floating point.
- Object member order: `Object.entries` order is taken as given. The order of the member list is that enumeration order, which lists integer-like keys first.
- `toLowerCase`: it is modelled on ASCII and Latin-1 letters only.
- String lengths: they count code points, not UTF-16 units.
- `length` members: an object with a `length` member counts as having no length, so its `items` count is modelled as `None`.
- src/app/page.tsx: it only mounts the component.
- Labels.MemberLabel: states the label only for keys that are non-empty and dot-free. Other keys take the general `Label` definition.
- Search.SearchHighlightsMatches: assumes distinct ids, which every reachable page has (`Visualizer.ConsistentIds`). Without that assumption, SearchHighlightsById gives the general statement.
- Addresses.TreeAddresses: assumes each object's keys are distinct, as they are in a parsed document.
- Display.Tooltip: the read-back is stated only for paths with no line break. A key containing a newline makes the tooltip ambiguous.
