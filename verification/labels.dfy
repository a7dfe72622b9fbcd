/**
 The labels the builder gives its nodes, worked out for the paths it makes:
 the root, an object member `path.key` and an array element `path[i]`.
 */
module Labels {
  import opened Text
  import opened JsonValue
  import opened TreeBuilder

  /** The closing part `[n]` an array's label ends with. */
  function CountSuffix(n: nat): string {
    "[" + Decimal(n) + "]"
  }

  /** Appending `[`, the numeral and `]` appends the count suffix. */
  lemma SuffixOf(a: string, n: nat)
    ensures a + "[" + Decimal(n) + "]" == a + CountSuffix(n)
  {
    var d := Decimal(n);
    assert a + "[" + d + "]" == a + ("[" + d + "]");
  }

  /** No `.` occurs in a bracketed index. */
  lemma NoDotInSuffix(n: nat)
    ensures '.' !in CountSuffix(n)
  {
    var s := CountSuffix(n);
    var d := Decimal(n);
    forall j | 0 <= j < |s| ensures s[j] != '.' {
      if 0 < j < |s| - 1 {
        assert s[j] == d[j - 1] && IsDigit(d[j - 1]);
      }
    }
  }

  /**
   The root: an object is labelled `root`, an array `$[n]`, anything else
   `$`, the last dotted segment of the path `$`.
   */
  lemma RootLabel(v: Json)
    ensures Label(RootPath, v) == match v
      case Obj(_) => "root"
      case Arr(es) => RootPath + CountSuffix(|es|)
      case _ => RootPath
  {
    LastSegmentWhole(RootPath, '.');
  }

  /**
   The node of member `key` is labelled with the key itself when it is
   non-empty and has no `.` in it, followed by `[n]` when the value is an
   array of n elements.
   */
  lemma MemberLabel(path: string, key: string, v: Json)
    requires key != "" && '.' !in key
    ensures Label(path + StepText(Key(key)), v) == if v.Arr? then key + CountSuffix(|v.elems|) else key
  {
    var p := path + StepText(Key(key));
    assert p == path + ['.'] + key;
    LastSegmentAfter(path, key, '.');
    assert p != RootPath by { assert |p| >= 2; }
  }

  /** A bracketed index extends the last dotted segment, which is then also the segment name. */
  lemma ElementSegment(path: string, i: nat)
    ensures var p := path + StepText(Index(i));
      var seg := LastSegment(path, '.') + CountSuffix(i);
      && LastSegment(p, '.') == seg && SegmentName(p) == seg
      && seg != "" && p != RootPath
  {
    var p := path + CountSuffix(i);
    assert path + StepText(Index(i)) == p;
    NoDotInSuffix(i);
    LastSegmentAppend(path, CountSuffix(i), '.');
    assert |CountSuffix(i)| >= 3;
  }

  /**
   The node of element i of an array at `path` is labelled with the last
   dotted segment of `path` followed by `[i]` (so element 1 of `$.items`
   reads `items[1]`), then `[n]` when it is itself an array of n elements.
   */
  lemma ElementLabel(path: string, i: nat, v: Json)
    ensures var seg := LastSegment(path, '.') + CountSuffix(i);
      Label(path + StepText(Index(i)), v) == if v.Arr? then seg + CountSuffix(|v.elems|) else seg
  {
    ElementSegment(path, i);
    LabelOfSegment(path + StepText(Index(i)), LastSegment(path, '.') + CountSuffix(i), v);
  }

  /**
   A node whose path is not `$` and whose last dotted segment seg is
   non-empty (and so is its segment name) is labelled seg, with `[n]`
   appended for an array of n elements.
   */
  lemma LabelOfSegment(p: string, seg: string, v: Json)
    requires p != RootPath && seg != "" && LastSegment(p, '.') == seg && SegmentName(p) == seg
    ensures Label(p, v) == if v.Arr? then seg + CountSuffix(|v.elems|) else seg
  {
    if v.Arr? {
      SuffixOf(seg, |v.elems|);
    }
  }

  /**
   The builder's fallback for an empty segment never applies to a non-empty
   path: when the text after the last `.` is empty the path ends in `.`, and
   that `.` survives in the text after the last `[`.
   */
  lemma SegmentNameNonEmpty(path: string)
    requires path != ""
    ensures SegmentName(path) != ""
  {
    if LastSegment(path, '.') == "" {
      LastSegmentSpec(path, '.');
      var t := LastSegment(path, '[');
      assert t == LastSegment(path[..|path| - 1], '[') + ['.'];
      if t[0] == ']' {
        assert RemoveFirst(t, ']') == t[1..];
      }
    }
  }

  /**
   So for every path the builder makes, which is never empty, a
   non-object's label is its path's segment name (followed by `[n]` for an
   array of n elements), never the words `null`, `value` or `array`: a null
   member `x` is labelled `x`, and a null root `$`.
   */
  lemma SegmentLabel(path: string, v: Json)
    requires path != "" && !v.Obj?
    ensures Label(path, v) == if v.Arr? then SegmentName(path) + CountSuffix(|v.elems|) else SegmentName(path)
  {
    SegmentNameNonEmpty(path);
  }
}
