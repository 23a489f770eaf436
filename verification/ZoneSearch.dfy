/** Linear and binary search of zones by name (appdata/bind9stats/zone.go). */
module ZoneSearch {
  import opened Orders
  import opened Names

  // Collections of this size and larger are bisected instead of scanned.
  const BINARY_ZONE_SEARCH_THRESHOLD := 3000

  /** The position of the first name literally equal to `name`, or -1. */
  function IndexOf(names: seq<string>, name: string): (r: int)
    ensures r == -1 ==> name !in names
    ensures r != -1 ==> 0 <= r < |names| && names[r] == name && name !in names[..r]
  {
    if names == [] then -1
    else if names[0] == name then 0
    else
      var r := IndexOf(names[1..], name);
      assert names == [names[0]] + names[1..];
      if r < 0 then -1 else
      assert names[..r + 1] == [names[0]] + names[1..][..r];
      r + 1
  }

  /** The position of the first name not ordered before `name`, or the list's length. */
  function LowerBound(names: seq<string>, name: string): (k: nat)
    ensures k <= |names|
  {
    if names == [] || NameOrder(names[0], name) >= 0 then 0 else 1 + LowerBound(names[1..], name)
  }

  ghost predicate IsLowerBound(names: seq<string>, name: string, k: nat) {
    && k <= |names|
    && (forall i :: 0 <= i < k ==> NameOrder(names[i], name) < 0)
    && (k < |names| ==> NameOrder(names[k], name) >= 0)
  }

  lemma {:induction false} LowerBoundMeaning(names: seq<string>, name: string)
    ensures IsLowerBound(names, name, LowerBound(names, name))
  {
    hide NameOrder;
    if names != [] && NameOrder(names[0], name) < 0 {
      LowerBoundMeaning(names[1..], name);
      assert forall i :: 1 <= i < |names| ==> names[i] == names[1..][i - 1];
    }
  }

  /** What the linear lower-bound search answers: equality is judged in DNS order. */
  function LinearLowerBound(names: seq<string>, name: string): (int, bool) {
    var k: int := LowerBound(names, name);
    if k < |names| then (k, NameOrder(names[k], name) == 0) else (-1, false)
  }

  /** What bisection answers on a sorted list: equality is judged literally. */
  function BinaryLowerBound(names: seq<string>, name: string): (int, bool) {
    var k: int := LowerBound(names, name);
    if k < |names| then (k, names[k] == name) else (-1, false)
  }

  /** What bisection for a zone answers on a sorted list: equality is judged in DNS order. */
  function BinaryIndexOf(names: seq<string>, name: string): int {
    var k := LowerBound(names, name);
    if k < |names| && NameOrder(names[k], name) == 0 then k else -1
  }

  lemma LowerBoundUnique(names: seq<string>, name: string, k: nat)
    requires IsLowerBound(names, name, k)
    ensures k == LowerBound(names, name)
  {
    hide NameOrder;
    LowerBoundMeaning(names, name);
  }

  method LinearSearchZone(names: seq<string>, name: string) returns (index: int)
    ensures index == IndexOf(names, name)
  {
    for i := 0 to |names|
      invariant name !in names[..i]
    {
      if names[i] == name {
        return i;
      }
    }
    return -1;
  }

  method LinearSearchZoneLowerBound(names: seq<string>, name: string) returns (index: int, equal: bool)
    ensures (index, equal) == LinearLowerBound(names, name)
  {
    hide NameOrder;
    for i := 0 to |names|
      invariant forall j :: 0 <= j < i ==> NameOrder(names[j], name) < 0
    {
      var c := CompareNames(names[i], name);
      if c >= 0 {
        LowerBoundUnique(names, name, i);
        return i, c == 0;
      }
    }
    LowerBoundUnique(names, name, |names|);
    return -1, false;
  }

  /** A name ordered at or after a name that is not before `name` is not before it either. */
  lemma BeforeIsDownwardClosed(a: string, b: string, name: string)
    requires NameOrder(a, b) <= 0
    ensures NameOrder(b, name) < 0 ==> NameOrder(a, name) < 0
  {
    NameOrderIsTotal();
    assert NameOrder(a, name) == -NameOrder(name, a);
    assert NameOrder(b, name) == -NameOrder(name, b);
  }

  /** The bisection both binary searches run. */
  method Bisect(names: seq<string>, name: string) returns (i: nat)
    requires Sorted(NameOrder, names)
    ensures i == LowerBound(names, name)
  {
    hide NameOrder;
    i := 0;
    var j := |names|;
    while i < j
      invariant 0 <= i <= j <= |names|
      invariant forall k :: 0 <= k < i ==> NameOrder(names[k], name) < 0
      invariant j < |names| ==> NameOrder(names[j], name) >= 0
    {
      var h := (i + j) / 2;
      var c := CompareNames(names[h], name);
      if c < 0 {
        forall k | 0 <= k < h ensures NameOrder(names[k], name) < 0 {
          BeforeIsDownwardClosed(names[k], names[h], name);
        }
        i := h + 1;
      } else {
        j := h;
      }
    }
    LowerBoundUnique(names, name, i);
  }

  method BinarySearchZone(names: seq<string>, name: string) returns (index: int)
    requires Sorted(NameOrder, names)
    ensures index == BinaryIndexOf(names, name)
  {
    var i := Bisect(names, name);
    if i < |names| {
      var c := CompareNames(names[i], name);
      if c == 0 {
        return i;
      }
    }
    return -1;
  }

  method BinarySearchZoneLowerBound(names: seq<string>, name: string) returns (index: int, equal: bool)
    requires Sorted(NameOrder, names)
    ensures (index, equal) == BinaryLowerBound(names, name)
  {
    var i := Bisect(names, name);
    if i < |names| {
      return i, names[i] == name;
    }
    return -1, false;
  }

  function SearchResult(names: seq<string>, name: string): int {
    if |names| < BINARY_ZONE_SEARCH_THRESHOLD then IndexOf(names, name) else BinaryIndexOf(names, name)
  }

  function LowerBoundResult(names: seq<string>, name: string): (int, bool) {
    if |names| < BINARY_ZONE_SEARCH_THRESHOLD then LinearLowerBound(names, name) else BinaryLowerBound(names, name)
  }

  /** Behind the lower bound of a sorted list nothing equals a name that what is at it does not. */
  lemma NoneBehind(names: seq<string>, name: string)
    requires Sorted(NameOrder, names)
    ensures var k := LowerBound(names, name);
      k == |names| || NameOrder(names[k], name) != 0 ==> forall n :: n in names ==> NameOrder(n, name) != 0
  {
    hide NameOrder;
    var k := LowerBound(names, name);
    LowerBoundMeaning(names, name);
    if k == |names| || NameOrder(names[k], name) != 0 {
      forall n | n in names ensures NameOrder(n, name) != 0 {
        var i :| 0 <= i < |names| && names[i] == n;
        if i > k && NameOrder(n, name) == 0 {
          SameSide(names[k], n, name);
        }
      }
    }
  }

  method SearchZone(names: seq<string>, name: string) returns (index: int)
    requires Sorted(NameOrder, names)
    ensures index == SearchResult(names, name)
    ensures -1 <= index < |names|
    ensures |names| < 3000 ==>
      && (index == -1 <==> name !in names)
      && (index >= 0 ==> names[index] == name && name !in names[..index])
    ensures |names| >= 3000 ==>
      && (index == -1 <==> forall n :: n in names ==> NameOrder(n, name) != 0)
      && (index >= 0 ==> NameOrder(names[index], name) == 0)
      && (forall i :: 0 <= i < index ==> NameOrder(names[i], name) < 0)
  {
    hide NameOrder;
    LowerBoundMeaning(names, name);
    NoneBehind(names, name);
    if |names| < BINARY_ZONE_SEARCH_THRESHOLD {
      index := LinearSearchZone(names, name);
    } else {
      index := BinarySearchZone(names, name);
    }
  }

  method SearchZoneLowerBound(names: seq<string>, name: string) returns (index: int, equal: bool)
    requires Sorted(NameOrder, names)
    ensures (index, equal) == LowerBoundResult(names, name)
  {
    if |names| < BINARY_ZONE_SEARCH_THRESHOLD {
      index, equal := LinearSearchZoneLowerBound(names, name);
    } else {
      index, equal := BinarySearchZoneLowerBound(names, name);
    }
  }

  /** No misspelling: the first listed name that equals `name` in DNS order, if there is
      one, is spelled like it, final dot included. */
  predicate SpelledAlike(names: seq<string>, name: string) {
    var k := LowerBound(names, name);
    k < |names| && Undotted(names[k]) == Undotted(name) ==> names[k] == name
  }

  /** On a sorted list the linear and the binary searches give the same answers exactly
      when the name is spelled alike. */
  lemma SearchesAgree(names: seq<string>, name: string)
    requires Sorted(NameOrder, names)
    ensures IndexOf(names, name) == BinaryIndexOf(names, name) <==> SpelledAlike(names, name)
    ensures LinearLowerBound(names, name) == BinaryLowerBound(names, name) <==> SpelledAlike(names, name)
  {
    hide NameOrder;
    var k := LowerBound(names, name);
    var r := IndexOf(names, name);
    LowerBoundMeaning(names, name);
    if k < |names| {
      OrderZero(names[k], name);
      assert names[k] == name ==> r != -1;
    }
    if r >= 0 {
      OrderZero(names[r], name);
      assert k <= r;
      if k < r {
        SameSide(names[k], names[r], name);
        assert names[k] == names[..r][k];
      }
    }
  }

  lemma OrderZero(a: string, b: string)
    ensures NameOrder(a, b) == 0 <==> Undotted(a) == Undotted(b)
  {
    NameOrderIsTotal();
  }

  lemma SameSide(a: string, b: string, name: string)
    requires NameOrder(a, b) <= 0 && NameOrder(b, name) == 0 && NameOrder(a, name) >= 0
    ensures NameOrder(a, name) == 0
  {
    NameOrderIsTotal();
  }

  /** In particular the threshold cannot be observed while lists and queries agree on final dots. */
  lemma ThresholdUnobservable(names: seq<string>, name: string)
    requires Sorted(NameOrder, names)
    requires forall n :: n in names && Undotted(n) == Undotted(name) ==> n == name
    ensures SearchResult(names, name) == IndexOf(names, name)
    ensures LowerBoundResult(names, name) == LinearLowerBound(names, name)
  {
    SearchesAgree(names, name);
  }

  /** With mixed spellings the two searches do differ. */
  lemma FinalDotTellsSearchesApart()
    ensures IndexOf(["example"], "example.") != BinaryIndexOf(["example"], "example.")
    ensures LinearLowerBound(["example"], "example.") != BinaryLowerBound(["example"], "example.")
  {
    hide NameOrder;
    OrderZero("example", "example.");
    assert Undotted("example.") == "example" == Undotted("example");
    LowerBoundUnique(["example"], "example.", 0);
  }
}
