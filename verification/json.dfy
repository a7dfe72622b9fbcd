/** An optional value, for the parse result and for lookups that can miss. */
module Options {
  datatype Option<+T> = None | Some(value: T)
}

/**
 The values the tree builder walks: the JSON values of section 3 of RFC 8259
 (null, booleans, numbers, strings, arrays, objects), plus JavaScript's
 `undefined`, which the builder and the node display both handle although a
 parser never produces it.
 */
module JsonValue {
  import opened Options
  import opened Text

  /**
   A number is opaque: it is carried by the text JavaScript's `String()`
   gives it. An object's members are listed in the order `Object.entries`
   enumerates them.
   */
  datatype Json =
    | Null
    | Undefined
    | Bool(b: bool)
    | Num(text: string)
    | Str(s: string)
    | Arr(elems: seq<Json>)
    | Obj(members: seq<Member>)

  datatype Member = Member(key: string, value: Json)

  /** Number of direct children: members of an object, elements of an array. */
  function Count(v: Json): nat {
    match v
    case Arr(es) => |es|
    case Obj(ms) => |ms|
    case _ => 0
  }

  /** The i-th direct child, in enumeration order. */
  function Child(v: Json, i: nat): (c: Json)
    requires i < Count(v)
    ensures c < v
  {
    match v
    case Arr(es) => assert es[i] in es; es[i]
    case Obj(ms) => assert ms[i] in ms; ms[i].value
  }

  /** The number of JSON values in v: v itself and everything nested in it. */
  function Size(v: Json): nat
    decreases v, 1
  {
    1 + SizeFrom(v, 0)
  }

  /** The number of JSON values in the children of v from the i-th on. */
  function SizeFrom(v: Json, i: nat): nat
    requires i <= Count(v)
    decreases v, 0, Count(v) - i
  {
    if i == Count(v) then 0 else Size(Child(v, i)) + SizeFrom(v, i + 1)
  }

  /** The number of values in the children i .. j - 1 of v. */
  function SizeBetween(v: Json, i: nat, j: nat): nat
    requires i <= j <= Count(v)
    decreases j - i
  {
    if i == j then 0 else Size(Child(v, i)) + SizeBetween(v, i + 1, j)
  }

  /** Every object in v, at every depth, has pairwise distinct keys (as a parsed object does). */
  ghost predicate DistinctKeys(v: Json)
    decreases v, 1
  {
    && (v.Obj? ==> forall i, j :: 0 <= i < j < |v.members| ==> v.members[i].key != v.members[j].key)
    && DistinctKeysFrom(v, 0)
  }

  ghost predicate DistinctKeysFrom(v: Json, i: nat)
    requires i <= Count(v)
    decreases v, 0, Count(v) - i
  {
    i < Count(v) ==> DistinctKeys(Child(v, i)) && DistinctKeysFrom(v, i + 1)
  }

  lemma {:induction false} DistinctKeysChild(v: Json, i: nat, j: nat)
    requires i <= j < Count(v)
    requires DistinctKeysFrom(v, i)
    ensures DistinctKeys(Child(v, j))
    decreases j - i
  {
    if i < j {
      DistinctKeysChild(v, i + 1, j);
    }
  }

  /* ---------------------------------------------------------------------
     Addresses: how a path string names a nested value.
     --------------------------------------------------------------------- */

  /** One accessor: `.key` into an object or `[index]` into an array. */
  datatype Step = Key(name: string) | Index(index: nat)

  type Address = seq<Step>

  /** The accessor that reaches the i-th child of v. */
  function StepTo(v: Json, i: nat): Step
    requires i < Count(v)
  {
    if v.Obj? then Key(v.members[i].key) else Index(i)
  }

  /** The text an accessor appends to a path. */
  function StepText(s: Step): string {
    match s
    case Key(k) => "." + k
    case Index(i) => "[" + Decimal(i) + "]"
  }

  /** The path suffix an address spells, after the leading `$`. */
  function Render(a: Address): string {
    if |a| == 0 then "" else StepText(a[0]) + Render(a[1..])
  }

  /** Index of the first member of ms named k, if any. */
  function FindKey(ms: seq<Member>, k: string): (r: Option<nat>)
    ensures r.Some? ==> r.value < |ms| && ms[r.value].key == k
    ensures r.Some? ==> forall j :: 0 <= j < r.value ==> ms[j].key != k
    ensures r.None? ==> forall j :: 0 <= j < |ms| ==> ms[j].key != k
  {
    if |ms| == 0 then None
    else if ms[0].key == k then Some(0)
    else
      match FindKey(ms[1..], k)
      case None => None
      case Some(j) => Some(j + 1)
  }

  /** Applies one accessor, as `v[key]` / `v[index]` does on a parsed value. */
  function Select(v: Json, s: Step): Option<Json> {
    match (v, s)
    case (Obj(ms), Key(k)) =>
      (match FindKey(ms, k)
       case Some(j) => Some(ms[j].value)
       case None => None)
    case (Arr(es), Index(i)) => if i < |es| then Some(es[i]) else None
    case _ => None
  }

  /** Follows an address from v; None when some accessor misses. */
  function Lookup(v: Json, a: Address): Option<Json>
    decreases |a|
  {
    if |a| == 0 then Some(v)
    else
      match Select(v, a[0])
      case Some(c) => Lookup(c, a[1..])
      case None => None
  }

  /** With distinct keys, the accessor to the i-th child selects exactly that child. */
  lemma SelectStepTo(v: Json, i: nat)
    requires i < Count(v)
    requires v.Obj? ==> forall p, q :: 0 <= p < q < |v.members| ==> v.members[p].key != v.members[q].key
    ensures Select(v, StepTo(v, i)) == Some(Child(v, i))
  {
    if v.Obj? {
      var r := FindKey(v.members, v.members[i].key);
      assert r.Some?;
    }
  }
}
