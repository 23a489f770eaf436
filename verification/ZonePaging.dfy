/** Fetching the zones of a view page by page, each page after the last name of the one before. */
module ZonePaging {
  import opened Wrappers
  import opened Orders
  import opened Names
  import opened ZoneSearch
  import opened ZoneViews

  function PageFilter(lowerBound: string, limit: int, after: Option<int>): Option<ZoneFilter> {
    Some(ZoneFilter(None, Some(lowerBound), Some(limit), after))
  }

  function Page(zones: seq<Zone>, lowerBound: string, limit: int, after: Option<int>): seq<Zone> {
    Selected(zones, PageFilter(lowerBound, limit, after))
  }

  /** All pages one after another until a short one, or None if `rounds` requests are not enough. */
  function Drain(zones: seq<Zone>, lowerBound: string, limit: int, after: Option<int>, rounds: nat): Option<seq<Zone>>
    requires limit >= 1
    decreases rounds
  {
    if rounds == 0 then None
    else
      var page := Page(zones, lowerBound, limit, after);
      if |page| < limit then Some(page)
      else
        var rest := Drain(zones, page[|page| - 1].name, limit, after, rounds - 1);
        if rest.None? then None else Some(page + rest.value)
  }

  /** Pages of one zone whose first zone has the empty name: the empty lower bound that the
      next request carries is read as no lower bound at all. */
  predicate StuckOnEmptyName(zones: seq<Zone>, limit: int, after: Option<int>) {
    limit == 1 && Loaded(zones, after) != [] && Loaded(zones, after)[0].name == ""
  }

  /** Asking for zones after a listed name starts with the zone behind it, whichever search runs. */
  lemma StartAfterListed(zones: seq<Zone>, k: nat, limit: int, after: Option<int>)
    requires StrictlySorted(ZoneOrder, zones)
    requires k < |zones| && zones[k].name != ""
    ensures FilterStart(ZoneNames(zones), PageFilter(zones[k].name, limit, after)) == k + 1
  {
    hide NameOrder;
    var names := ZoneNames(zones);
    OrderZero(names[k], names[k]);
    forall i | 0 <= i < k ensures NameOrder(names[i], names[k]) < 0 {
      assert ZoneOrder(zones[i], zones[k]) < 0;
    }
    LowerBoundUnique(names, names[k], k);
  }

  /** The n-th zone that passes, its position, and what passes behind it. */
  lemma {:induction false} LastLoaded(zones: seq<Zone>, from: nat, n: nat, after: Option<int>) returns (k: nat)
    requires from <= |zones| && 1 <= n <= |Loaded(zones[from..], after)|
    ensures from + n - 1 <= k < |zones| && zones[k] == Loaded(zones[from..], after)[n - 1]
    ensures Loaded(zones[k + 1..], after) == Loaded(zones[from..], after)[n..]
    decreases |zones| - from
  {
    hide Loaded, LoadedAfter;
    LoadedFrom(zones, from, after);
    var rest := Loaded(zones[from + 1..], after);
    if !LoadedAfter(zones[from], after) {
      k := LastLoaded(zones, from + 1, n, after);
    } else if n == 1 {
      k := from;
      assert ([zones[from]] + rest)[1..] == rest;
    } else {
      k := LastLoaded(zones, from + 1, n - 1, after);
      assert ([zones[from]] + rest)[n..] == rest[n - 1..];
    }
  }

  lemma LoadedFrom(zones: seq<Zone>, from: nat, after: Option<int>)
    requires from <= |zones|
    ensures from == |zones| ==> Loaded(zones[from..], after) == []
    ensures from < |zones| ==>
      var passing := if LoadedAfter(zones[from], after) then [zones[from]] else [];
      Loaded(zones[from..], after) == passing + Loaded(zones[from + 1..], after)
  {
    if from < |zones| {
      assert zones[from..][0] == zones[from] && zones[from..][1..] == zones[from + 1..];
    }
  }

  /** Only the first zone of a strictly sorted list can have the empty name. */
  lemma EmptyNameIsFirst(zones: seq<Zone>, k: nat)
    requires StrictlySorted(ZoneOrder, zones) && 0 < k < |zones|
    ensures zones[k].name != ""
  {
    hide NameOrder;
    assert ZoneOrder(zones[0], zones[k]) < 0;
    NameOrderIsTotal();
    assert InSubtree(zones[0].name, "");
    AncestorFirst(zones[0].name, "");
  }

  /** A full page ends at some zone; the next request starts right behind that zone. */
  lemma FullPage(zones: seq<Zone>, from: nat, lowerBound: string, limit: int, after: Option<int>) returns (k: nat)
    requires StrictlySorted(ZoneOrder, zones) && limit >= 1 && from <= |zones|
    requires FilterStart(ZoneNames(zones), PageFilter(lowerBound, limit, after)) == from
    requires from > 0 || !StuckOnEmptyName(zones, limit, after)
    requires |Loaded(zones[from..], after)| >= limit
    ensures from <= k < |zones|
    ensures FilterStart(ZoneNames(zones), PageFilter(zones[k].name, limit, after)) == k + 1
    ensures |Page(zones, lowerBound, limit, after)| == limit
    ensures Page(zones, lowerBound, limit, after)[limit - 1] == zones[k]
    ensures Loaded(zones[from..], after) == Page(zones, lowerBound, limit, after) + Loaded(zones[k + 1..], after)
  {
    hide FilterStart, ZoneOrder, Loaded;
    k := LastLoaded(zones, from, limit, after);
    if k > 0 {
      EmptyNameIsFirst(zones, k);
    } else {
      assert zones[from..] == zones;
    }
    StartAfterListed(zones, k, limit, after);
  }

  lemma {:induction false} DrainFrom(
    zones: seq<Zone>, from: nat, lowerBound: string, limit: int, after: Option<int>, rounds: nat)
    requires StrictlySorted(ZoneOrder, zones) && limit >= 1 && from <= |zones|
    requires FilterStart(ZoneNames(zones), PageFilter(lowerBound, limit, after)) == from
    requires from > 0 || !StuckOnEmptyName(zones, limit, after)
    ensures Drain(zones, lowerBound, limit, after, rounds) in {None, Some(Loaded(zones[from..], after))}
    ensures rounds > |zones| - from ==> Drain(zones, lowerBound, limit, after, rounds).Some?
    decreases rounds
  {
    hide FilterStart, ZoneOrder, Loaded, StuckOnEmptyName, StrictlySorted;
    if rounds > 0 {
      if |Loaded(zones[from..], after)| >= limit {
        var k := FullPage(zones, from, lowerBound, limit, after);
        DrainFrom(zones, k + 1, zones[k].name, limit, after, rounds - 1);
      }
    }
  }

  lemma {:induction false} StuckForever(zones: seq<Zone>, limit: int, after: Option<int>, rounds: nat)
    requires StuckOnEmptyName(zones, limit, after)
    ensures Drain(zones, "", limit, after, rounds) == None
  {
    if rounds > 0 {
      assert zones[0..] == zones;
      StuckForever(zones, limit, after, rounds - 1);
    }
  }

  /** One zone with the empty name is fetched over and over again. */
  lemma EmptyNameIsFetchedForever(zone: Zone, rounds: nat)
    requires zone.name == ""
    ensures StrictlySorted(ZoneOrder, [zone]) && Page([zone], "", 1, None) == [zone]
    ensures Drain([zone], "", 1, None, rounds) == None
  {
    hide Drain, ZoneOrder;
    assert [zone][0..] == [zone];
    assert Loaded([zone], None) == [zone] by {
      LoadedAll([zone]);
    }
    StuckForever([zone], 1, None, rounds);
  }

  lemma NoLowerBound(zones: seq<Zone>, limit: int, after: Option<int>)
    ensures FilterStart(ZoneNames(zones), PageFilter("", limit, after)) == 0
  {
  }

  /** Paging over distinct zones in DNS order comes to an end unless it is stuck on an empty
      name, and then it has delivered every zone loaded in time, once each and in order. */
  lemma PagingIsExactlyOnce(zones: seq<Zone>, limit: int, after: Option<int>)
    requires StrictlySorted(ZoneOrder, zones) && limit >= 1
    ensures (exists rounds: nat :: Drain(zones, "", limit, after, rounds).Some?)
       <==> !StuckOnEmptyName(zones, limit, after)
    ensures forall rounds: nat ::
      Drain(zones, "", limit, after, rounds) in {None, Some(Loaded(zones, after))}
  {
    hide ZoneOrder, Loaded, FilterStart, Drain;
    assert zones[0..] == zones;
    NoLowerBound(zones, limit, after);
    if StuckOnEmptyName(zones, limit, after) {
      forall rounds: nat ensures Drain(zones, "", limit, after, rounds) == None {
        StuckForever(zones, limit, after, rounds);
      }
    } else {
      forall rounds: nat
        ensures Drain(zones, "", limit, after, rounds) in {None, Some(Loaded(zones, after))}
        ensures rounds > |zones| ==> Drain(zones, "", limit, after, rounds).Some?
      {
        DrainFrom(zones, 0, "", limit, after, rounds);
      }
      assert Drain(zones, "", limit, after, |zones| + 1).Some?;
    }
  }

  // Zones that change between two pages

  /** The zones from a position on are exactly those ordered after the bound, and if the bound itself
      is listed it is listed with the same spelling. */
  ghost predicate Splits(zones: seq<Zone>, bound: string, i: nat) {
    && bound != "" && i <= |zones| && SpelledAlike(ZoneNames(zones), bound)
    && forall j :: 0 <= j < |zones| ==> (j >= i <==> NameOrder(zones[j].name, bound) > 0)
  }

  lemma StrictlyBefore(a: string, b: string, c: string)
    requires NameOrder(a, b) < 0 && NameOrder(b, c) == 0
    ensures NameOrder(a, c) < 0
  {
    hide NameOrder;
    NameOrderIsTotal();
    assert NameOrder(c, a) == -NameOrder(a, c);
    assert NameOrder(b, a) == -NameOrder(a, b);
  }

  /** The bound itself is dropped. */
  lemma BoundIsDropped(zones: seq<Zone>, bound: string, j: nat)
    requires StrictlySorted(ZoneOrder, zones) && j < |zones|
    requires bound != "" && SpelledAlike(ZoneNames(zones), bound) && NameOrder(zones[j].name, bound) == 0
    ensures !IsBehind(ZoneNames(zones), Some(bound), j)
  {
    hide NameOrder;
    var names := ZoneNames(zones);
    forall l | 0 <= l < j ensures NameOrder(names[l], bound) < 0 {
      assert ZoneOrder(zones[l], zones[j]) < 0;
      StrictlyBefore(zones[l].name, zones[j].name, bound);
    }
    LowerBoundUnique(names, bound, j);
    OrderZero(names[j], bound);
  }

  lemma BehindIsAfter(zones: seq<Zone>, bound: string, i: nat, j: nat)
    requires StrictlySorted(ZoneOrder, zones) && Splits(zones, bound, i) && j < |zones|
    ensures IsBehind(ZoneNames(zones), Some(bound), j) <==> j >= i
  {
    SignOf(zones[j].name, bound);
    hide NameOrder;
    if NameOrder(zones[j].name, bound) == 0 {
      BoundIsDropped(zones, bound, j);
    }
  }

  lemma StartsBehind(zones: seq<Zone>, bound: string, i: nat, limit: int, after: Option<int>)
    requires StrictlySorted(ZoneOrder, zones) && Splits(zones, bound, i)
    ensures FilterStart(ZoneNames(zones), PageFilter(bound, limit, after)) == i
  {
    hide NameOrder, FilterStart, IsBehind;
    var names, filter := ZoneNames(zones), PageFilter(bound, limit, after);
    SortedZonesHaveSortedNames(zones);
    if i < |zones| {
      BehindIsAfter(zones, bound, i, i);
      BehindIsKept(names, filter.value, i);
    }
    var start := FilterStart(names, filter);
    if start < |zones| {
      BehindIsAfter(zones, bound, i, start);
      BehindIsKept(names, filter.value, start);
    }
  }

  lemma SplitsAtListed(zones: seq<Zone>, k: nat)
    requires StrictlySorted(ZoneOrder, zones) && k < |zones| && zones[k].name != ""
    ensures Splits(zones, zones[k].name, k + 1)
  {
    hide NameOrder;
    var names := ZoneNames(zones);
    OrderZero(names[k], names[k]);
    NameOrderIsTotal();
    forall j | 0 <= j < |zones| ensures j >= k + 1 <==> NameOrder(zones[j].name, zones[k].name) > 0 {
      assert NameOrder(names[j], names[k]) == -NameOrder(names[k], names[j]);
      if j < k {
        assert ZoneOrder(zones[j], zones[k]) < 0;
      } else if j > k {
        assert ZoneOrder(zones[k], zones[j]) < 0;
      }
    }
    forall j | 0 <= j < k ensures NameOrder(names[j], names[k]) < 0 {
      assert ZoneOrder(zones[j], zones[k]) < 0;
    }
    LowerBoundUnique(names, names[k], k);
  }

  lemma AfterBoundIsNamed(name: string, bound: string)
    requires NameOrder(name, bound) > 0
    ensures name != ""
  {
    assert InSubtree(bound, "");
    AncestorFirst(bound, "");
  }

  /** The pages behind a bound depend on nothing but the zones behind it: two lists that have
      the same zones there, whatever comes before, are delivered the same from there on. */
  lemma {:induction false} PagesDependOnRest(
    a: seq<Zone>, b: seq<Zone>, bound: string, i: nat, j: nat, limit: int, after: Option<int>, rounds: nat)
    requires StrictlySorted(ZoneOrder, a) && StrictlySorted(ZoneOrder, b) && limit >= 1
    requires Splits(a, bound, i) && Splits(b, bound, j) && a[i..] == b[j..]
    ensures Page(a, bound, limit, after) == Page(b, bound, limit, after)
    ensures Drain(a, bound, limit, after, rounds) == Drain(b, bound, limit, after, rounds)
    decreases rounds
  {
    hide FilterStart, ZoneOrder, Loaded, StrictlySorted, Splits, NameOrder;
    StartsBehind(a, bound, i, limit, after);
    StartsBehind(b, bound, j, limit, after);
    SplitsBound(a, bound, i);
    SplitsBound(b, bound, j);
    if rounds > 0 && |Page(a, bound, limit, after)| >= limit {
      var k := LastLoaded(a, i, limit, after);
      LastIsNamed(a, bound, i, k);
      NextSplits(a, b, i, j, k);
      PagesDependOnRest(a, b, a[k].name, k + 1, k - i + j + 1, limit, after, rounds - 1);
    }
  }

  lemma NextSplits(a: seq<Zone>, b: seq<Zone>, i: nat, j: nat, k: nat)
    requires StrictlySorted(ZoneOrder, a) && StrictlySorted(ZoneOrder, b)
    requires i <= k < |a| && j <= |b| && a[i..] == b[j..] && a[k].name != ""
    ensures k - i + j < |b| && b[k - i + j] == a[k] && a[k + 1..] == b[k - i + j + 1..]
    ensures Splits(a, a[k].name, k + 1) && Splits(b, a[k].name, k - i + j + 1)
  {
    hide StrictlySorted, Splits, ZoneOrder;
    assert |a| - i == |b| - j;
    assert b[k - i + j] == b[j..][k - i] == a[i..][k - i] == a[k];
    assert a[k + 1..] == a[i..][k + 1 - i..] && b[k - i + j + 1..] == b[j..][k + 1 - i..];
    SplitsAtListed(a, k);
    SplitsAtListed(b, k - i + j);
  }

  lemma SplitsBound(zones: seq<Zone>, bound: string, i: nat)
    requires Splits(zones, bound, i)
    ensures i <= |zones|
  {
  }

  lemma LastIsNamed(zones: seq<Zone>, bound: string, i: nat, k: nat)
    requires Splits(zones, bound, i) && i <= k < |zones|
    ensures zones[k].name != ""
  {
    hide NameOrder;
    AfterBoundIsNamed(zones[k].name, bound);
  }

  /** When the zone that ended a page is removed before the next request, the pages that follow
      are the same as if it were still there: no zone is lost, and none comes again. */
  lemma RemovedZoneLosesNothing(zones: seq<Zone>, k: nat, limit: int, after: Option<int>, rounds: nat)
    requires StrictlySorted(ZoneOrder, zones) && k < |zones| && zones[k].name != "" && limit >= 1
    ensures var left := zones[..k] + zones[k + 1..];
      && Drain(left, zones[k].name, limit, after, rounds) == Drain(zones, zones[k].name, limit, after, rounds)
      && Drain(left, zones[k].name, limit, after, rounds) in {None, Some(Loaded(zones[k + 1..], after))}
      && (rounds > |zones| ==> Drain(left, zones[k].name, limit, after, rounds).Some?)
  {
    hide FilterStart, Loaded, Drain, NameOrder;
    var left := zones[..k] + zones[k + 1..];
    SplitsAtListed(zones, k);
    SplitsWithout(zones, k);
    StartsBehind(zones, zones[k].name, k + 1, limit, after);
    PagesDependOnRest(left, zones, zones[k].name, k, k + 1, limit, after, rounds);
    DrainFrom(zones, k + 1, zones[k].name, limit, after, rounds);
  }

  lemma WithoutIsSorted(zones: seq<Zone>, k: nat)
    requires StrictlySorted(ZoneOrder, zones) && k < |zones|
    ensures var left := zones[..k] + zones[k + 1..];
      StrictlySorted(ZoneOrder, left) && left[k..] == zones[k + 1..]
  {
    hide ZoneOrder;
    var left := zones[..k] + zones[k + 1..];
    forall j | 0 <= j < |left| ensures left[j] == zones[if j < k then j else j + 1] {
    }
    assert left[k..] == zones[k + 1..];
  }

  lemma ApartWithout(zones: seq<Zone>, k: nat, j: nat)
    requires StrictlySorted(ZoneOrder, zones) && k < |zones| && Splits(zones, zones[k].name, k + 1) && j < |zones| - 1
    ensures var order := NameOrder((zones[..k] + zones[k + 1..])[j].name, zones[k].name);
      order != 0 && (order > 0 <==> j >= k)
  {
    hide NameOrder, SpelledAlike;
    if j < k {
      assert ZoneOrder(zones[j], zones[k]) < 0;
    } else {
      assert NameOrder(zones[j + 1].name, zones[k].name) > 0;
    }
  }

  lemma SplitsWithout(zones: seq<Zone>, k: nat)
    requires StrictlySorted(ZoneOrder, zones) && k < |zones| && Splits(zones, zones[k].name, k + 1)
    ensures var left := zones[..k] + zones[k + 1..];
      StrictlySorted(ZoneOrder, left) && left[k..] == zones[k + 1..] && Splits(left, zones[k].name, k)
  {
    hide NameOrder, ZoneOrder, StrictlySorted;
    var left, bound := zones[..k] + zones[k + 1..], zones[k].name;
    WithoutIsSorted(zones, k);
    forall j | 0 <= j < |left|
      ensures NameOrder(left[j].name, bound) != 0 && (NameOrder(left[j].name, bound) > 0 <==> j >= k)
    {
      ApartWithout(zones, k, j);
    }
    var l := LowerBound(ZoneNames(left), bound);
    if l < |left| {
      OrderZero(left[l].name, bound);
    }
  }
}
