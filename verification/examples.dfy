/**
 Worked documents: the two-level object, and a document in which two
 values get the same path.
 */
module Examples {
  import opened JsonValue
  import opened TreeBuilder
  import opened Labels
  import opened Display

  /** `{"a":{"b":n}}` */
  function Nested(n: Json): Json {
    Obj([Member("a", Obj([Member("b", n)]))])
  }

  /**
   `{"a":{"b":1}}` holds three values, so it is drawn as three nodes and two
   edges (TreeShape.TreeProperty); the child of the root
   sits at `$.a` and its child at `$.a.b`, labelled `b` and showing `1`.
   */
  lemma NestedTree(one: Json)
    requires one == Num("1")
    ensures var v := Nested(one);
      var a := Child(v, 0);
      && Size(v) == 3
      && Label(RootPath, v) == "root"
      && ChildPath(RootPath, v, 0) == "$.a" && Label("$.a", a) == "a"
      && Child(a, 0) == one
      && ChildPath("$.a", a, 0) == "$.a.b" && Label("$.a.b", one) == "b"
      && PrimitiveText(one) == "1"
  {
    var v := Nested(one);
    var a := Child(v, 0);
    assert Size(one) == 1;
    assert Size(a) == 2;
    RootLabel(v);
    assert ChildPath(RootPath, v, 0) == RootPath + StepText(Key("a"));
    MemberLabel(RootPath, "a", a);
    assert ChildPath("$.a", a, 0) == "$.a" + StepText(Key("b"));
    MemberLabel("$.a", "b", one);
  }

  /** `{"a.b":p,"a":{"b":q}}`: a key with a dot in it. */
  function DottedKey(p: Json, q: Json): Json {
    Obj([Member("a.b", p), Member("a", Obj([Member("b", q)]))])
  }

  /**
   Paths do not name values uniquely: the member `a.b` of the root and the
   member `b` of the member `a` both get the path `$.a.b`, although they are
   different values at different places. Node ids stay distinct only
   through the tiebreaker the builder adds.
   */
  lemma PathsCanCollide(p: Json, q: Json)
    ensures var v := DottedKey(p, q);
      var a := Child(v, 1);
      && Child(v, 0) == p && Child(a, 0) == q
      && ChildPath(RootPath, v, 0) == ChildPath(ChildPath(RootPath, v, 1), a, 0) == "$.a.b"
  {
    var v := DottedKey(p, q);
    var a := Child(v, 1);
    assert ChildPath(RootPath, v, 0) == "$" + ".a.b";
    assert ChildPath(RootPath, v, 1) == "$" + ".a";
    assert ChildPath("$.a", a, 0) == "$.a" + ".b";
  }
}
