/** Comparison of DNS names in DNS order (util/fqdn.go, CompareNames). */
module Names {
  import opened Orders
  import Texts

  function CharOrder(a: char, b: char): int {
    if a < b then -1 else if a == b then 0 else 1
  }

  /** Byte-wise string comparison; on valid text it is comparison by code point. */
  function TextOrder(a: string, b: string): int {
    Lex(CharOrder, a, b)
  }

  function LabelsOrder(a: seq<string>, b: seq<string>): int {
    Lex(TextOrder, a, b)
  }

  /** A name without its final dot, if it has one. */
  function Undotted(name: string): string {
    if name != "" && name[|name| - 1] == '.' then name[..|name| - 1] else name
  }

  /** The labels of a name, leftmost first. The empty name and the root have none. */
  function Labels(name: string): seq<string> {
    if Undotted(name) == "" then [] else Texts.Split(Undotted(name), '.')
  }

  function Reverse<T>(s: seq<T>): (r: seq<T>)
    ensures |r| == |s|
    ensures forall i :: 0 <= i < |s| ==> r[i] == s[|s| - 1 - i]
  {
    if s == [] then [] else Reverse(s[1..]) + [s[0]]
  }

  /** The labels from the top-level domain down. */
  function Hierarchy(name: string): seq<string> {
    Reverse(Labels(name))
  }

  /** DNS order: by hierarchy, label by label from the top, an ancestor before its descendants. */
  function NameOrder(a: string, b: string): int {
    LabelsOrder(Hierarchy(a), Hierarchy(b))
  }

  /** Where two hierarchies first differ decides their order. */
  lemma FirstDifference(a: seq<string>, b: seq<string>, i: nat)
    requires i < |a| && i < |b| && a[..i] == b[..i]
    ensures a[i] == b[i] ==> a[..i + 1] == b[..i + 1]
    ensures a[i] != b[i] ==> LabelsOrder(a, b) == TextOrder(a[i], b[i])
    ensures TextOrder(a[i], b[i]) in {-1, 0, 1} && (TextOrder(a[i], b[i]) == 0 <==> a[i] == b[i])
  {
    TextOrderIsTotal();
    LexCommonPrefix(TextOrder, a, b, i);
    assert a[i..][0] == a[i] && b[i..][0] == b[i];
    assert -1 <= TextOrder(a[i], b[i]) <= 1;
  }

  /** When one hierarchy extends the other, the lengths decide. */
  lemma AllLabelsEqual(a: seq<string>, b: seq<string>, n: nat)
    requires n <= |a| && n <= |b| && (n == |a| || n == |b|) && a[..n] == b[..n]
    ensures LabelsOrder(a, b) == if |a| == |b| then 0 else if |a| < |b| then -1 else 1
  {
    TextOrderIsTotal();
    LexCommonPrefix(TextOrder, a, b, n);
  }

  method CompareNames(name1: string, name2: string) returns (r: int)
    ensures r == NameOrder(name1, name2)
  {
    hide Labels, LabelsOrder, TextOrder;
    var s1, s2 := Labels(name1), Labels(name2);
    ghost var h1, h2 := Hierarchy(name1), Hierarchy(name2);
    for i := 0 to if |s1| < |s2| then |s1| else |s2|
      invariant h1[..i] == h2[..i]
    {
      FirstDifference(h1, h2, i);
      if s2[|s2| - i - 1] == s1[|s1| - i - 1] {
        continue;
      }
      if TextOrder(s1[|s1| - i - 1], s2[|s2| - i - 1]) < 0 {
        return -1;
      } else {
        return 1;
      }
    }
    AllLabelsEqual(h1, h2, if |s1| < |s2| then |s1| else |s2|);
    if |s1| == |s2| {
      return 0;
    } else if |s1| < |s2| {
      return -1;
    } else {
      return 1;
    }
  }

  lemma TextOrderIsTotal()
    ensures IsTotalOrder(TextOrder)
  {
    forall a, b {
      LexRangeAndAntisymmetry(CharOrder, a, b);
    }
    forall a, b, c | TextOrder(a, b) <= 0 && TextOrder(b, c) <= 0 ensures TextOrder(a, c) <= 0 {
      LexTransitive(CharOrder, a, b, c);
    }
  }

  lemma LabelsOrderIsTotal()
    ensures IsTotalOrder(LabelsOrder)
  {
    TextOrderIsTotal();
    forall a, b {
      LexRangeAndAntisymmetry(TextOrder, a, b);
    }
    forall a, b, c | LabelsOrder(a, b) <= 0 && LabelsOrder(b, c) <= 0 ensures LabelsOrder(a, c) <= 0 {
      LexTransitive(TextOrder, a, b, c);
    }
  }

  lemma {:induction false} ReverseInjective<T>(a: seq<T>, b: seq<T>)
    requires Reverse(a) == Reverse(b)
    ensures a == b
  {
    forall i | 0 <= i < |a| ensures a[i] == b[i] {
      assert Reverse(a)[|a| - 1 - i] == Reverse(b)[|a| - 1 - i];
    }
  }

  /** CompareNames orders names totally, and identifies two names exactly when they
      differ in nothing but a final dot. */
  lemma NameOrderIsTotal()
    ensures IsOrder(NameOrder)
    ensures forall a, b :: NameOrder(a, b) == 0 <==> Undotted(a) == Undotted(b)
  {
    LabelsOrderIsTotal();
    forall a, b ensures NameOrder(a, b) == 0 <==> Undotted(a) == Undotted(b) {
      if NameOrder(a, b) == 0 {
        ReverseInjective(Labels(a), Labels(b));
        if Undotted(a) != "" {
          Texts.JoinSplit(Undotted(a), '.');
          Texts.JoinSplit(Undotted(b), '.');
        }
      }
    }
  }

  /** A zone and everything below it. */
  predicate InSubtree(name: string, zone: string) {
    Hierarchy(zone) <= Hierarchy(name)
  }

  /** An ancestor is never ordered after its descendants. */
  lemma AncestorFirst(name: string, zone: string)
    requires InSubtree(name, zone)
    ensures NameOrder(zone, name) <= 0
  {
    TextOrderIsTotal();
    LexCommonPrefix(TextOrder, Hierarchy(zone), Hierarchy(name), |Hierarchy(zone)|);
  }

  lemma {:induction false} BetweenExtensions(p: seq<string>, a: seq<string>, b: seq<string>, c: seq<string>)
    requires p <= a && p <= c
    requires LabelsOrder(a, b) <= 0 && LabelsOrder(b, c) <= 0
    ensures p <= b
  {
    if p != [] {
      TextOrderIsTotal();
      assert p[0] == a[0] == c[0];
      assert b[0] == p[0];
      BetweenExtensions(p[1..], a[1..], b[1..], c[1..]);
      assert p == [p[0]] + p[1..] && b == [b[0]] + b[1..];
    }
  }

  lemma BetweenDescendants(zone: string, a: string, b: string, c: string)
    requires InSubtree(a, zone) && InSubtree(c, zone)
    requires NameOrder(a, b) <= 0 && NameOrder(b, c) <= 0
    ensures InSubtree(b, zone)
  {
    BetweenExtensions(Hierarchy(zone), Hierarchy(a), Hierarchy(b), Hierarchy(c));
  }

  lemma ZoneLeads(name: string, zone: string, descendant: string)
    requires NameOrder(name, zone) == 0 && InSubtree(descendant, zone)
    ensures NameOrder(name, descendant) <= 0
  {
    AncestorFirst(descendant, zone);
    LabelsOrderIsTotal();
  }

  /** Scans for the first name at or after `from` that is inside (or outside) the subtree. */
  lemma {:induction false} ScanSubtree(names: seq<string>, zone: string, from: nat, inside: bool) returns (k: nat)
    requires from <= |names|
    ensures from <= k <= |names|
    ensures forall i :: from <= i < k ==> InSubtree(names[i], zone) != inside
    ensures k < |names| ==> InSubtree(names[k], zone) == inside
    decreases |names| - from
  {
    hide InSubtree;
    k := from;
    if from < |names| && InSubtree(names[from], zone) != inside {
      k := ScanSubtree(names, zone, from + 1, inside);
    }
  }

  /** In a sorted list the names in a zone's subtree occupy one contiguous block, and the
      zone itself, if listed, is ordered first in that block. */
  lemma SubtreeIsContiguous(names: seq<string>, zone: string) returns (lo: nat, hi: nat)
    requires Sorted(NameOrder, names)
    ensures lo <= hi <= |names|
    ensures forall i :: 0 <= i < |names| ==> (lo <= i < hi <==> InSubtree(names[i], zone))
    ensures forall i, j :: 0 <= i < |names| && lo <= j < hi && NameOrder(names[i], zone) == 0
                           ==> NameOrder(names[i], names[j]) <= 0
    ensures (exists i :: 0 <= i < |names| && NameOrder(names[i], zone) == 0)
       ==> lo < hi && NameOrder(names[lo], zone) == 0
  {
    hide InSubtree, NameOrder;
    lo := ScanSubtree(names, zone, 0, true);
    hi := ScanSubtree(names, zone, lo, false);
    forall i | hi <= i < |names| ensures !InSubtree(names[i], zone) {
      if InSubtree(names[i], zone) && lo < hi {
        BetweenDescendants(zone, names[lo], names[hi], names[i]);
      }
    }
    forall i, j | 0 <= i < |names| && lo <= j < hi && NameOrder(names[i], zone) == 0
      ensures NameOrder(names[i], names[j]) <= 0
    {
      ZoneLeads(names[i], zone, names[j]);
    }
    if i :| 0 <= i < |names| && NameOrder(names[i], zone) == 0 {
      ZoneIsInside(names[i], zone);
      SortedSelf(names, lo, i);
      ZoneFirst(names[lo], names[i], zone);
    }
  }

  lemma SortedSelf(names: seq<string>, i: nat, j: nat)
    requires Sorted(NameOrder, names) && i <= j < |names|
    ensures NameOrder(names[i], names[j]) <= 0
  {
    NameOrderIsTotal();
  }

  lemma ZoneIsInside(name: string, zone: string)
    requires NameOrder(name, zone) == 0
    ensures InSubtree(name, zone)
  {
    LabelsOrderIsTotal();
  }

  /** What is ordered no later than the zone, in its subtree, is the zone. */
  lemma ZoneFirst(first: string, name: string, zone: string)
    requires NameOrder(name, zone) == 0 && InSubtree(first, zone) && NameOrder(first, name) <= 0
    ensures NameOrder(first, zone) == 0
  {
    AncestorFirst(first, zone);
    LabelsOrderIsTotal();
  }

  // The order in terms of the text of names

  /** Texts are ordered by the first character in which they differ, and a text comes before those
      that it begins. */
  lemma TextOrderMeaning(p: string, c: char, d: char, s: string, t: string)
    ensures c < d ==> TextOrder(p + [c] + s, p + [d] + t) == -1
    ensures TextOrder(p, p + [c] + s) == -1
  {
    var a, b := p + [c] + s, p + [d] + t;
    assert a[|p|..] == [c] + s && b[|p|..] == [d] + t && p[|p|..] == "";
    LexCommonPrefix(CharOrder, a, b, |p|);
    LexCommonPrefix(CharOrder, p, a, |p|);
  }

  lemma {:induction false} ReverseConcat<T>(a: seq<T>, b: seq<T>)
    ensures Reverse(a + b) == Reverse(b) + Reverse(a)
  {
    if a == [] {
      assert a + b == b;
    } else {
      assert (a + b)[1..] == a[1..] + b;
      ReverseConcat(a[1..], b);
    }
  }

  /** The hierarchy of a name goes from its last label on to the hierarchy of the rest. */
  lemma HierarchyOf(rest: string, top: string)
    requires '.' !in top && top != ""
    ensures Hierarchy(top) == [top]
    ensures Hierarchy(rest + "." + top) == [top] + Reverse(Texts.Split(rest, '.'))
  {
    Texts.SplitWhole(top, '.');
    var name := rest + "." + top;
    assert name == rest + ['.'] + top && name[|name| - 1] == top[|top| - 1];
    assert Undotted(top) == top && Undotted(name) == name;
    Texts.SplitConcat(rest, top, '.');
    ReverseConcat(Texts.Split(rest, '.'), [top]);
    assert Labels(name) == Texts.Split(rest, '.') + [top];
  }

  /** The order of two names is that of their last labels if these differ; a name comes before names
      below it; and of names below the same one the order is that of what comes before it. */
  lemma NameOrderMeaning(x: string, y: string, a: string, b: string)
    requires a != "" && '.' !in a && b != "" && '.' !in b
    ensures a != b ==> NameOrder(x + "." + a, y + "." + b) == TextOrder(a, b) && NameOrder(a, y + "." + b) == TextOrder(a, b)
    ensures a != b ==> NameOrder(a, b) == TextOrder(a, b)
    ensures NameOrder(a, x + "." + a) == -1
    ensures x != "" && y != "" && Undotted(x) == x && Undotted(y) == y ==>
      NameOrder(x + "." + a, y + "." + a) == NameOrder(x, y)
  {
    HierarchyOf(x, a);
    HierarchyOf(y, b);
    HierarchyOf(y, a);
    TextOrderIsTotal();
    hide Hierarchy, TextOrder, Reverse;
    FirstLabel(a, Reverse(Texts.Split(x, '.')), b, Reverse(Texts.Split(y, '.')));
    FirstLabel(a, [], b, Reverse(Texts.Split(y, '.')));
    FirstLabel(a, [], b, []);
    FirstLabel(a, Reverse(Texts.Split(x, '.')), a, Reverse(Texts.Split(y, '.')));
    FirstLabel(a, [], a, Reverse(Texts.Split(x, '.')));
    assert [a] + [] == [a] && [b] + [] == [b];
    assert |Reverse(Texts.Split(x, '.'))| > 0;
    if x != "" && y != "" && Undotted(x) == x && Undotted(y) == y {
      PlainHierarchy(x);
      PlainHierarchy(y);
    }
  }

  lemma PlainHierarchy(x: string)
    requires x != "" && Undotted(x) == x
    ensures Hierarchy(x) == Reverse(Texts.Split(x, '.'))
  {
  }

  lemma FirstLabel(a: string, r: seq<string>, b: string, s: seq<string>)
    ensures a != b ==> LabelsOrder([a] + r, [b] + s) == TextOrder(a, b)
    ensures a == b ==> LabelsOrder([a] + r, [b] + s) == LabelsOrder(r, s)
    ensures s != [] ==> LabelsOrder([], s) == -1
  {
    TextOrderIsTotal();
    assert ([a] + r)[1..] == r && ([b] + s)[1..] == s;
  }

  /** A name lies at or below a zone if and only if the zone is the root, or the name is the zone or
      ends with a dot and the zone, final dots aside. */
  lemma SubtreeIsSuffix(name: string, zone: string)
    ensures InSubtree(name, zone)
       <==> || Undotted(zone) == "" || Undotted(name) == Undotted(zone)
            || exists p :: Undotted(name) == p + "." + Undotted(zone)
  {
    var n, z := Undotted(name), Undotted(zone);
    assert Hierarchy(name) == (if n == "" then [] else Reverse(Texts.Split(n, '.')));
    assert Hierarchy(zone) == (if z == "" then [] else Reverse(Texts.Split(z, '.')));
    hide Hierarchy, Undotted, Reverse, Texts.Split;
    if z != "" {
      if InSubtree(name, zone) {
        SuffixOf(n, z);
      } else if p :| n == p + "." + z {
        BelowZone(p, z);
      }
    }
  }

  lemma BelowZone(p: string, z: string)
    ensures Reverse(Texts.Split(z, '.')) <= Reverse(Texts.Split(p + "." + z, '.'))
  {
    Texts.SplitConcat(p, z, '.');
    assert p + ['.'] + z == p + "." + z;
    ReverseConcat(Texts.Split(p, '.'), Texts.Split(z, '.'));
  }

  lemma ReverseTwice<T>(s: seq<T>)
    ensures Reverse(Reverse(s)) == s
  {
    var r := Reverse(s);
    forall i | 0 <= i < |s| ensures Reverse(r)[i] == s[i] {
      assert Reverse(r)[i] == r[|s| - 1 - i];
    }
  }

  lemma ReversedPrefix(a: seq<string>, b: seq<string>) returns (front: seq<string>)
    requires Reverse(b) <= Reverse(a)
    ensures a == front + b
  {
    hide Reverse;
    var rest := Reverse(a)[|b|..];
    assert Reverse(a) == Reverse(b) + rest;
    ReverseConcat(Reverse(b), rest);
    ReverseTwice(a);
    ReverseTwice(b);
    front := Reverse(rest);
  }

  lemma SuffixOf(n: string, z: string)
    requires z != "" && Reverse(Texts.Split(z, '.')) <= if n == "" then [] else Reverse(Texts.Split(n, '.'))
    ensures n == z || exists p :: n == p + "." + z
  {
    hide Reverse;
    var a, b := Texts.Split(n, '.'), Texts.Split(z, '.');
    assert n != "";
    var front := ReversedPrefix(a, b);
    Texts.JoinSplit(n, '.');
    Texts.JoinSplit(z, '.');
    hide Texts.Split, Texts.Join;
    if front == [] {
      assert a == b;
    } else {
      Texts.JoinConcat(front, b, '.');
      assert n == Texts.Join(front, '.') + "." + z;
    }
  }
}
