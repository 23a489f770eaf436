/** Comparison functions returning a sign, and the orders they induce. */
module Orders {

  /** A three-way comparison whose sign behaves as a total preorder. */
  ghost predicate IsOrder<T(!new)>(cmp: (T, T) -> int) {
    && (forall x, y :: -1 <= cmp(x, y) <= 1)
    && (forall x, y :: cmp(x, y) == -cmp(y, x))
    && (forall x, y, z :: cmp(x, y) <= 0 && cmp(y, z) <= 0 ==> cmp(x, z) <= 0)
  }

  /** An order in which only equal values compare as equal. */
  ghost predicate IsTotalOrder<T(!new)>(cmp: (T, T) -> int) {
    && IsOrder(cmp)
    && (forall x, y :: cmp(x, y) == 0 <==> x == y)
  }

  /** Lexicographic comparison: the first differing position decides, then the length. */
  function Lex<T>(cmp: (T, T) -> int, a: seq<T>, b: seq<T>): int {
    if a == [] && b == [] then 0
    else if a == [] then -1
    else if b == [] then 1
    else if cmp(a[0], b[0]) != 0 then cmp(a[0], b[0])
    else Lex(cmp, a[1..], b[1..])
  }

  lemma {:induction false} LexRangeAndAntisymmetry<T(!new)>(cmp: (T, T) -> int, a: seq<T>, b: seq<T>)
    requires IsTotalOrder(cmp)
    ensures -1 <= Lex(cmp, a, b) <= 1
    ensures Lex(cmp, a, b) == -Lex(cmp, b, a)
    ensures Lex(cmp, a, b) == 0 <==> a == b
  {
    if a != [] && b != [] {
      LexRangeAndAntisymmetry(cmp, a[1..], b[1..]);
      if a[0] == b[0] {
        assert a == [a[0]] + a[1..] && b == [b[0]] + b[1..];
      }
    }
  }

  lemma {:induction false} LexTransitive<T(!new)>(cmp: (T, T) -> int, a: seq<T>, b: seq<T>, c: seq<T>)
    requires IsTotalOrder(cmp)
    requires Lex(cmp, a, b) <= 0 && Lex(cmp, b, c) <= 0
    ensures Lex(cmp, a, c) <= 0
  {
    if a != [] && b != [] && c != [] {
      if a[0] == b[0] && b[0] == c[0] {
        LexTransitive(cmp, a[1..], b[1..], c[1..]);
      } else {
        assert cmp(a[0], b[0]) <= 0 && cmp(b[0], c[0]) <= 0;
      }
    }
  }

  /** A common prefix does not influence the comparison. */
  lemma {:induction false} LexCommonPrefix<T(!new)>(cmp: (T, T) -> int, a: seq<T>, b: seq<T>, n: nat)
    requires IsTotalOrder(cmp)
    requires n <= |a| && n <= |b| && a[..n] == b[..n]
    ensures Lex(cmp, a, b) == Lex(cmp, a[n..], b[n..])
  {
    if n == 0 {
      assert a[n..] == a && b[n..] == b;
    } else {
      assert a[0] == a[..n][0] == b[..n][0] == b[0];
      assert a[1..][..n - 1] == a[..n][1..] == b[..n][1..] == b[1..][..n - 1];
      LexCommonPrefix(cmp, a[1..], b[1..], n - 1);
      assert a[1..][n - 1..] == a[n..] && b[1..][n - 1..] == b[n..];
    }
  }

  /** A list whose neighbours never decrease; transitivity extends this to all pairs. */
  ghost predicate Sorted<T(!new)>(cmp: (T, T) -> int, s: seq<T>) {
    forall i, j :: 0 <= i < j < |s| ==> cmp(s[i], s[j]) <= 0
  }

  ghost predicate StrictlySorted<T(!new)>(cmp: (T, T) -> int, s: seq<T>) {
    forall i, j :: 0 <= i < j < |s| ==> cmp(s[i], s[j]) < 0
  }

  function Insert<T>(cmp: (T, T) -> int, x: T, s: seq<T>): seq<T> {
    if s == [] then [x]
    else if cmp(x, s[0]) <= 0 then [x] + s
    else [s[0]] + Insert(cmp, x, s[1..])
  }

  /** The result of sorting. Any algorithm gives this list when no two elements compare
      as equal; see StrictlySortedUnique. */
  function SortBy<T>(cmp: (T, T) -> int, s: seq<T>): seq<T> {
    if s == [] then [] else Insert(cmp, s[0], SortBy(cmp, s[1..]))
  }

  lemma {:induction false} InsertElements<T(!new)>(cmp: (T, T) -> int, x: T, s: seq<T>)
    ensures multiset(Insert(cmp, x, s)) == multiset([x]) + multiset(s)
  {
    if s != [] {
      assert s == [s[0]] + s[1..];
      if cmp(x, s[0]) > 0 {
        InsertElements(cmp, x, s[1..]);
        assert Insert(cmp, x, s) == [s[0]] + Insert(cmp, x, s[1..]);
      }
    }
  }

  lemma {:induction false} InsertSorted<T(!new)>(cmp: (T, T) -> int, x: T, s: seq<T>)
    requires IsOrder(cmp) && Sorted(cmp, s)
    ensures Sorted(cmp, Insert(cmp, x, s))
  {
    if s != [] {
      if cmp(x, s[0]) > 0 {
        var rest := Insert(cmp, x, s[1..]);
        InsertSorted(cmp, x, s[1..]);
        InsertElements(cmp, x, s[1..]);
        forall i | 0 <= i < |rest| ensures cmp(s[0], rest[i]) <= 0 {
          assert rest[i] in multiset(rest);
          assert rest[i] == x || rest[i] in s[1..];
        }
        PrependSorted(cmp, s[0], rest);
      } else {
        forall i | 0 <= i < |s| ensures cmp(x, s[i]) <= 0 {
          assert i == 0 || cmp(s[0], s[i]) <= 0;
        }
        PrependSorted(cmp, x, s);
      }
    }
  }

  lemma PrependSorted<T(!new)>(cmp: (T, T) -> int, x: T, s: seq<T>)
    requires Sorted(cmp, s) && forall i :: 0 <= i < |s| ==> cmp(x, s[i]) <= 0
    ensures Sorted(cmp, [x] + s)
  {
    var t := [x] + s;
    forall i, j | 0 <= i < j < |t| ensures cmp(t[i], t[j]) <= 0 {
      assert t[j] == s[j - 1];
    }
  }

  lemma {:induction false} SortBySorted<T(!new)>(cmp: (T, T) -> int, s: seq<T>)
    requires IsOrder(cmp)
    ensures Sorted(cmp, SortBy(cmp, s))
    ensures multiset(SortBy(cmp, s)) == multiset(s)
  {
    if s != [] {
      SortBySorted(cmp, s[1..]);
      InsertSorted(cmp, s[0], SortBy(cmp, s[1..]));
      InsertElements(cmp, s[0], SortBy(cmp, s[1..]));
      assert s == [s[0]] + s[1..];
    }
  }

  /** Dropping a shared first element that occurs nowhere else keeps two lists' elements equal. */
  lemma SameTailElements<T>(a: seq<T>, b: seq<T>)
    requires a != [] && b != [] && a[0] == b[0] && a[0] !in a[1..] && b[0] !in b[1..]
    requires forall x :: x in a <==> x in b
    ensures forall x :: x in a[1..] <==> x in b[1..]
  {
    assert a == [a[0]] + a[1..] && b == [b[0]] + b[1..];
    assert forall x :: x in a <==> x == a[0] || x in a[1..];
    assert forall x :: x in b <==> x == b[0] || x in b[1..];
  }

  lemma StrictHead<T(!new)>(cmp: (T, T) -> int, a: seq<T>)
    requires IsOrder(cmp) && StrictlySorted(cmp, a) && a != []
    ensures a[0] !in a[1..] && StrictlySorted(cmp, a[1..])
    ensures forall x :: x in a ==> cmp(a[0], x) <= 0
  {
    assert cmp(a[0], a[0]) == -cmp(a[0], a[0]);
    forall x | x in a ensures cmp(a[0], x) <= 0 {
      var i :| 0 <= i < |a| && a[i] == x;
    }
  }

  /** Two strictly sorted lists with the same elements are the same list. */
  lemma {:induction false} StrictlySortedUnique<T(!new)>(cmp: (T, T) -> int, a: seq<T>, b: seq<T>)
    requires IsOrder(cmp) && StrictlySorted(cmp, a) && StrictlySorted(cmp, b)
    requires forall x :: x in a <==> x in b
    ensures a == b
  {
    assert a != [] ==> a[0] in b;
    assert b != [] ==> b[0] in a;
    if a != [] && b != [] {
      StrictHead(cmp, a);
      StrictHead(cmp, b);
      StrictLeast(cmp, a, b[0]);
      StrictLeast(cmp, b, a[0]);
      SameTailElements(a, b);
      StrictlySortedUnique(cmp, a[1..], b[1..]);
      assert a == [a[0]] + a[1..] && b == [b[0]] + b[1..];
    }
  }

  /** The first element of a strictly sorted list is strictly below every other element. */
  lemma StrictLeast<T(!new)>(cmp: (T, T) -> int, a: seq<T>, x: T)
    requires StrictlySorted(cmp, a) && x in a
    ensures x == a[0] || cmp(a[0], x) < 0
  {
    var i :| 0 <= i < |a| && a[i] == x;
  }

  /** In a strictly sorted list, different elements do not compare as equal. */
  lemma StrictApart<T(!new)>(cmp: (T, T) -> int, a: seq<T>, x: T, y: T)
    requires IsOrder(cmp) && StrictlySorted(cmp, a) && x in a && y in a && x != y
    ensures cmp(x, y) != 0
  {
    var i :| 0 <= i < |a| && a[i] == x;
    var j :| 0 <= j < |a| && a[j] == y;
    assert cmp(a[i], a[j]) == -cmp(a[j], a[i]);
  }

  /** A list of all elements of a set, each once, has no element twice. */
  lemma OccursOnce<T>(s: seq<T>, elements: set<T>, i: nat, j: nat)
    requires multiset(s) == multiset(elements) && i < j < |s|
    ensures s[i] != s[j]
  {
    assert s == s[..i + 1] + s[i + 1..];
    assert s[i] in multiset(s[..i + 1]) && s[j] in multiset(s[i + 1..]);
    assert multiset(s)[s[i]] <= 1;
  }
}
