/**
 How one node is drawn (src/components/JsonNode.tsx): a card with the label
 and one line of detail (the value of a primitive, the key count of an
 object, the item count of an array), and a tooltip with the path, the type
 and the value.
 */
module Display {
  import opened Options
  import opened Text
  import opened JsonValue
  import opened TreeBuilder

  /** The `type` string of a node. */
  function TypeName(k: Kind): string {
    match k
    case ObjectNode => "object"
    case ArrayNode => "array"
    case PrimitiveNode => "primitive"
  }

  /**
   JavaScript's `String(v)`, which is also what a template literal inserts:
   an array joins its elements' texts with commas, an absent element
   (null or undefined) contributing nothing; every object is `[object Object]`.
   */
  function JsString(v: Json): string
    decreases v, 1
  {
    match v
    case Null => "null"
    case Undefined => "undefined"
    case Bool(b) => if b then "true" else "false"
    case Num(t) => t
    case Str(s) => s
    case Arr(_) => JoinFrom(v, 0)
    case Obj(_) => "[object Object]"
  }

  /** `join(',')` over the elements of the array v from the i-th on. */
  function JoinFrom(v: Json, i: nat): string
    requires v.Arr? && i <= |v.elems|
    decreases v, 0, |v.elems| - i
  {
    if i == |v.elems| then ""
    else
      var e := Child(v, i);
      (if i > 0 then "," else "") + (if e.Null? || e.Undefined? then "" else JsString(e)) + JoinFrom(v, i + 1)
  }

  /** JavaScript truthiness: `v || fallback` takes the fallback exactly when v is falsy. */
  predicate Truthy(v: Json) {
    match v
    case Null | Undefined => false
    case Bool(b) => b
    case Num(t) => t != "0" && t != "NaN"
    case Str(s) => s != ""
    case _ => true
  }

  /** `Object.keys(v || {}).length`: own enumerable keys, one per index of an array or string. */
  function KeyCount(v: Json): nat {
    if !Truthy(v) then 0
    else
      match v
      case Obj(ms) => |ms|
      case Arr(es) => |es|
      case Str(s) => |s|
      case _ => 0
  }

  /** `(v || []).length`; None where the value has no `length`. */
  function ItemCount(v: Json): Option<nat> {
    if !Truthy(v) then Some(0)
    else
      match v
      case Arr(es) => Some(|es|)
      case Str(s) => Some(|s|)
      case _ => None
  }

  /** The detail line of a primitive: strings quoted, null and undefined spelt out. */
  function PrimitiveText(v: Json): string {
    match v
    case Str(s) => "\"" + s + "\""
    case Null => "null"
    case Undefined => "undefined"
    case _ => JsString(v)
  }

  datatype Card = Card(title: string, detail: string)

  /**
   renderValue: the label over one line of detail. JSX draws an undefined
   count as nothing, so an array node without a length reads " items".
   */
  function RenderCard(n: Node): (r: Card)
    ensures r.title == NodeLabel(n) && r.title != ""
    ensures n.kind == PrimitiveNode ==>
      r.detail == if n.value.Str? then "\"" + ValueText(n) + "\"" else ValueText(n)
    ensures n.kind == PrimitiveNode && n.value.Null? ==> r.detail == "null"
    ensures n.kind == PrimitiveNode && n.value.Undefined? ==> r.detail == "undefined"
    ensures n.kind == ObjectNode ==> ValueText(n) == "object with " + r.detail
    ensures n.kind == ArrayNode && ItemCount(n.value).Some? ==> ValueText(n) == "array with " + r.detail
  {
    match n.kind
    case PrimitiveNode => Card(NodeLabel(n), PrimitiveText(n.value))
    case ObjectNode => Card(NodeLabel(n), Decimal(KeyCount(n.value)) + " keys")
    case ArrayNode =>
      var count := match ItemCount(n.value) case Some(c) => Decimal(c) case None => "";
      Card(NodeLabel(n), count + " items")
  }

  /** What follows `Value: ` in the tooltip; an undefined count reads "undefined" there. */
  function ValueText(n: Node): (r: string)
    ensures n.kind != PrimitiveNode ==> var head := TypeName(n.kind) + " with ";
      |head| < |r| && r[..|head|] == head
  {
    match n.kind
    case PrimitiveNode => JsString(n.value)
    case ObjectNode => "object with " + Decimal(KeyCount(n.value)) + " keys"
    case ArrayNode =>
      var count := match ItemCount(n.value) case Some(c) => Decimal(c) case None => "undefined";
      "array with " + count + " items"
  }

  /** The `title` attribute: three lines, path, type and value. */
  function Tooltip(n: Node): (t: string)
    ensures '\n' !in n.path ==> ParseTooltip(t) == Some(TooltipParts(n.path, TypeName(n.kind), ValueText(n)))
  {
    var ty := TypeName(n.kind);
    var t := "Path: " + n.path + "\nType: " + ty + "\nValue: " + ValueText(n);
    if '\n' in n.path then t
    else
      assert '\n' !in ty;
      ParseTooltipLayout(n.path, ty, ValueText(n));
      t
  }

  /* ---------------------------------------------------------------------
     Reading a tooltip back.
     --------------------------------------------------------------------- */

  datatype TooltipParts = TooltipParts(path: string, typeName: string, value: string)

  /** s starts with the given prefix; the rest follows. */
  function After(prefix: string, s: string): Option<string> {
    if prefix <= s then Some(s[|prefix|..]) else None
  }

  /** The text up to the first line break, and the text after it, if there is one. */
  function SplitLine(s: string): Option<(string, string)> {
    var i := IndexOf(s, '\n');
    if i < |s| then Some((s[..i], s[i + 1..])) else None
  }

  /** A line `heading` + field, and the text after its line break. */
  function ReadField(heading: string, t: string): Option<(string, string)> {
    match After(heading, t)
    case None => None
    case Some(r) => SplitLine(r)
  }

  /** Reads `Path: p\nType: t\nValue: v` into its three fields. */
  function ParseTooltip(t: string): Option<TooltipParts> {
    match ReadField("Path: ", t)
    case None => None
    case Some((p, r1)) =>
      match ReadField("Type: ", r1)
      case None => None
      case Some((ty, r2)) =>
        match After("Value: ", r2)
        case None => None
        case Some(v) => Some(TooltipParts(p, ty, v))
  }

  /** Splitting at the first line break of a + "\n" + b when a holds none. */
  lemma SplitLineAt(a: string, b: string)
    requires '\n' !in a
    ensures SplitLine(a + "\n" + b) == Some((a, b))
  {
    var s := a + "\n" + b;
    assert forall j :: 0 <= j < |a| ==> s[j] == a[j] && a[j] in a;
    assert s[|a|] == '\n';
    var i := IndexOf(s, '\n');
    assert i == |a|;
    assert s[..i] == a && s[i + 1..] == b;
  }

  /** Text that starts with the prefix gives back what follows it. */
  lemma AfterPrefix(prefix: string, rest: string)
    ensures After(prefix, prefix + rest) == Some(rest)
  {
    assert (prefix + rest)[|prefix|..] == rest;
  }

  lemma ReadFieldOf(heading: string, a: string, b: string)
    requires '\n' !in a
    ensures ReadField(heading, heading + a + "\n" + b) == Some((a, b))
  {
    assert heading + a + "\n" + b == heading + (a + "\n" + b);
    AfterPrefix(heading, a + "\n" + b);
    SplitLineAt(a, b);
  }

  /** The three-line layout reads back when the first two fields have no line break. */
  lemma ParseTooltipLayout(p: string, ty: string, v: string)
    requires '\n' !in p && '\n' !in ty
    ensures ParseTooltip("Path: " + p + "\nType: " + ty + "\nValue: " + v) == Some(TooltipParts(p, ty, v))
  {
    var r1 := "Type: " + ty + "\nValue: " + v;
    assert "Path: " + p + "\nType: " + ty + "\nValue: " + v == "Path: " + p + "\n" + r1;
    ReadFieldOf("Path: ", p, r1);
    assert r1 == "Type: " + ty + "\n" + ("Value: " + v);
    ReadFieldOf("Type: ", ty, "Value: " + v);
    AfterPrefix("Value: ", v);
  }

  /* ---------------------------------------------------------------------
     Card and tooltip agree.
     --------------------------------------------------------------------- */

  /** A string's card text is the string in quotes, so unquoting gives it back. */
  lemma QuotedRoundTrip(n: Node)
    requires n.kind == PrimitiveNode && n.value.Str?
    ensures var d := RenderCard(n).detail;
      |d| >= 2 && d[0] == '"' && d[|d| - 1] == '"' && d[1..|d| - 1] == n.value.s
  {
  }

  /**
   A node whose kind agrees with its value, as every node the builder draws
   does: an object's card counts its members and an array's card counts its
   elements, as does its tooltip; a primitive's card shows the value itself.
   */
  lemma CardsOfClassified(n: Node)
    requires n.kind == Classify(n.value)
    ensures n.value.Obj? ==>
      && RenderCard(n).detail == Decimal(|n.value.members|) + " keys"
      && ValueText(n) == "object with " + Decimal(|n.value.members|) + " keys"
    ensures n.value.Arr? ==>
      && RenderCard(n).detail == Decimal(|n.value.elems|) + " items"
      && ValueText(n) == "array with " + Decimal(|n.value.elems|) + " items"
    ensures !n.value.Obj? && !n.value.Arr? ==>
      && RenderCard(n).detail == PrimitiveText(n.value)
      && ValueText(n) == JsString(n.value)
  {
  }

  /** Every node of a generated diagram is drawn as CardsOfClassified says. */
  lemma BuiltNodesClassified(v: Json)
    ensures var g := BuildTree(v);
      forall k :: 0 <= k < |g.nodes| ==> g.nodes[k].kind == Classify(g.nodes[k].value)
  {
    var g := BuildTree(v);
    forall k | 0 <= k < |g.nodes| ensures g.nodes[k].kind == Classify(g.nodes[k].value) {
      assert Fresh(g.nodes[k], k);
    }
  }
}
