/** DNS names with their labels in reverse, and sorting by them (util/fqdn.go, ConvertNameToRname). */
module ReversedNames {
  import opened Orders
  import opened Names
  import opened Texts

  function Rname(name: string): string {
    Join(Hierarchy(name), '.')
  }

  /** Swaps from both ends towards the middle. */
  method ReverseInPlace(labels: array<string>)
    modifies labels
    ensures labels[..] == Reverse(old(labels[..]))
  {
    var i, j := 0, labels.Length - 1;
    while i < j
      invariant 0 <= i <= j + 1 && i + j == labels.Length - 1
      invariant forall k :: 0 <= k < i || j < k < labels.Length ==> labels[k] == old(labels[labels.Length - 1 - k])
      invariant forall k :: i <= k <= j ==> labels[k] == old(labels[k])
    {
      labels[i], labels[j] := labels[j], labels[i];
      i, j := i + 1, j - 1;
    }
    var reversed := Reverse(old(labels[..]));
    assert forall k :: 0 <= k < labels.Length ==> labels[..][k] == reversed[k];
  }

  method ConvertNameToRname(name: string) returns (rname: string)
    ensures rname == Rname(name)
  {
    var split := Labels(name);
    var labels := new string[|split|](i requires 0 <= i < |split| => split[i]);
    assert labels[..] == split;
    ReverseInPlace(labels);
    return Join(labels[..], '.');
  }

  /** The last label comes first, and then the rest of the name in the same way. */
  lemma RnameMeaning(rest: string, top: string)
    requires '.' !in top && top != "" && rest != "" && Undotted(rest) == rest
    ensures Rname(top) == top && Rname(rest + "." + top) == top + "." + Rname(rest)
  {
    HierarchyOf(rest, top);
    PlainHierarchy(rest);
    JoinConcat([top], Hierarchy(rest), '.');
  }

  /** A label is overtaken by a longer one it begins: in text, the dot behind it comes after the
      next character of the longer label. */
  predicate Overtaken(lab: string, longer: string, isLast: bool) {
    !isLast && lab < longer && longer[|lab|] < '.'
  }

  /** Where two hierarchies first differ, one label is overtaken by the other. */
  predicate Clash(a: seq<string>, b: seq<string>) {
    && a != [] && b != []
    && if a[0] == b[0] then Clash(a[1..], b[1..])
       else Overtaken(a[0], b[0], |a| == 1) || Overtaken(b[0], a[0], |b| == 1)
  }

  function Dotted(labels: seq<string>): string {
    if labels == [] then "" else "." + labels[0] + Dotted(labels[1..])
  }

  lemma {:induction false} JoinDotted(labels: seq<string>)
    requires labels != []
    ensures "." + Join(labels, '.') == Dotted(labels)
  {
    if |labels| > 1 {
      JoinDotted(labels[1..]);
    }
  }

  /** The first difference of two labels decides, unless one is overtaken. */
  lemma {:induction false} LabelDecides(x: string, y: string, s: string, t: string)
    requires x != y && '.' !in x && '.' !in y
    requires (s == "" || s[0] == '.') && (t == "" || t[0] == '.')
    ensures TextOrder(x + s, y + t)
         == if Overtaken(x, y, s == "") || Overtaken(y, x, t == "") then -TextOrder(x, y) else TextOrder(x, y)
  {
    if x == "" {
      assert x + s == s && (y + t)[0] == y[0];
    } else if y == "" {
      assert y + t == t && (x + s)[0] == x[0];
    } else if x[0] == y[0] {
      assert (x + s)[1..] == x[1..] + s && (y + t)[1..] == y[1..] + t;
      assert x == [x[0]] + x[1..] && y == [y[0]] + y[1..];
      LabelDecides(x[1..], y[1..], s, t);
      SameFirst(x, y, s == "");
      SameFirst(y, x, t == "");
    } else {
      assert !(x < y) && !(y < x);
    }
  }

  lemma SameFirst(x: string, y: string, isLast: bool)
    requires x != "" && y != "" && x[0] == y[0]
    ensures Overtaken(x, y, isLast) == Overtaken(x[1..], y[1..], isLast)
  {
    assert x == [x[0]] + x[1..] && y == [y[0]] + y[1..];
    if |x| < |y| {
      assert x == y[..|x|] <==> x[1..] == y[1..][..|x| - 1];
    }
  }

  lemma {:induction false} DottedOrder(a: seq<string>, b: seq<string>)
    requires forall l :: l in a || l in b ==> '.' !in l
    ensures TextOrder(Dotted(a), Dotted(b)) == if Clash(a, b) then -LabelsOrder(a, b) else LabelsOrder(a, b)
    ensures Clash(a, b) ==> LabelsOrder(a, b) != 0
  {
    TextOrderIsTotal();
    if a != [] && b != [] {
      var x, y, s, t := a[0], b[0], Dotted(a[1..]), Dotted(b[1..]);
      assert Dotted(a) == "." + (x + s) && Dotted(b) == "." + (y + t);
      BehindSame(".", x + s, y + t);
      if x == y {
        BehindSame(x, s, t);
        DottedOrder(a[1..], b[1..]);
      } else {
        LabelDecides(x, y, s, t);
      }
    }
  }

  lemma BehindSame(prefix: string, a: string, b: string)
    ensures TextOrder(prefix + a, prefix + b) == TextOrder(a, b)
  {
    LexCommonPrefix(CharOrder, prefix + a, prefix + b, |prefix|);
    assert (prefix + a)[|prefix|..] == a && (prefix + b)[|prefix|..] == b;
  }

  lemma HierarchyLabels(name: string)
    ensures forall l :: l in Hierarchy(name) ==> '.' !in l
    ensures Hierarchy(name) != [""]
  {
    JoinSplit(Undotted(name), '.');
    forall l | l in Hierarchy(name) ensures l in Labels(name) {
    }
    assert Labels(name) != [""];
    assert |Labels(name)| == 1 ==> Hierarchy(name)[0] == Labels(name)[0];
  }

  /** Sorting by reversed names is sorting in DNS order exactly if no label is overtaken at the
      first difference; otherwise it is the opposite order. */
  lemma RnameOrder(a: string, b: string)
    ensures TextOrder(Rname(a), Rname(b)) == NameOrder(a, b) <==> !Clash(Hierarchy(a), Hierarchy(b))
  {
    hide Hierarchy, LabelsOrder;
    var g, h := Hierarchy(a), Hierarchy(b);
    HierarchyLabels(a);
    HierarchyLabels(b);
    DottedOrder(g, h);
    if g != [] && h != [] {
      JoinDotted(g);
      JoinDotted(h);
      BehindSame(".", Rname(a), Rname(b));
    } else {
      EmptyFirst(g, h);
    }
  }

  lemma EmptyFirst(g: seq<string>, h: seq<string>)
    requires (g == [] || h == []) && g != [""] && h != [""]
    ensures TextOrder(Join(g, '.'), Join(h, '.')) == LabelsOrder(g, h)
  {
    NotBlank(g);
    NotBlank(h);
  }

  lemma NotBlank(labels: seq<string>)
    requires labels != [""]
    ensures Join(labels, '.') == "" <==> labels == []
  {
    if |labels| == 1 {
      assert labels == [labels[0]];
    }
  }

  /** No character is below the dot; letters and digits are not, a hyphen is. */
  predicate NothingLow(labels: seq<string>) {
    forall i, j :: 0 <= i < |labels| && 0 <= j < |labels[i]| ==> labels[i][j] >= '.'
  }

  lemma {:induction false} NoClash(a: seq<string>, b: seq<string>)
    requires NothingLow(a) && NothingLow(b)
    ensures !Clash(a, b)
  {
    if a != [] && b != [] && a[0] == b[0] {
      NoClash(a[1..], b[1..]);
    }
  }

  /** Names of letters and digits are sorted in DNS order. */
  lemma PlainNamesSort(a: string, b: string)
    requires NothingLow(Hierarchy(a)) && NothingLow(Hierarchy(b))
    ensures TextOrder(Rname(a), Rname(b)) == NameOrder(a, b)
  {
    RnameOrder(a, b);
    NoClash(Hierarchy(a), Hierarchy(b));
  }

  /** A zone below "a" belongs before "a-b", but is sorted after it. */
  lemma HyphenComesBetween()
    ensures NameOrder("x.a", "a-b") == -1 && TextOrder(Rname("x.a"), Rname("a-b")) == 1
  {
    hide TextOrder, Labels, Reverse, Join;
    ExampleHierarchies();
    ExampleTexts();
    assert LabelsOrder(["a", "x"], ["a-b"]) == -1;
  }

  lemma ExampleHierarchies()
    ensures Hierarchy("x.a") == ["a", "x"] && Hierarchy("a-b") == ["a-b"]
    ensures Join(["a", "x"], '.') == "a.x" && Join(["a-b"], '.') == "a-b"
  {
    ExampleLabels();
    hide Labels;
    assert ["x", "a"][1..] == ["a"] && ["a", "x"][1..] == ["x"];
  }

  lemma ExampleLabels()
    ensures Labels("x.a") == ["x", "a"] && Labels("a-b") == ["a-b"]
  {
    hide Split;
    SplitFirst("x", "a", '.');
    SplitWhole("a", '.');
    SplitWhole("a-b", '.');
    assert "x" + ['.'] + "a" == "x.a";
  }

  lemma ExampleTexts()
    ensures TextOrder("a", "a-b") == -1 && TextOrder("a.x", "a-b") == 1
  {
    assert "a"[1..] == "" && "a-b"[1..] == "-b" && "a.x"[1..] == ".x";
  }
}
