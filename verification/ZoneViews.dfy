/** Zones, views and filtered iteration (appdata/bind9stats/zone.go, view.go, filter.go). */
module ZoneViews {
  import opened Wrappers
  import opened Orders
  import opened Names
  import opened ZoneSearch

  /** `loaded` is the time the zone was loaded. */
  datatype Zone = Zone(name: string, class_: string, serial: int, kind: string, loaded: int)

  datatype ZoneFilter = ZoneFilter(
    view: Option<string>,
    lowerBound: Option<string>,
    limit: Option<int>,
    loadedAfter: Option<int>)

  function ZoneNames(zones: seq<Zone>): (names: seq<string>)
    ensures |names| == |zones|
    ensures forall i :: 0 <= i < |zones| ==> names[i] == zones[i].name
  {
    seq(|zones|, i requires 0 <= i < |zones| => zones[i].name)
  }

  function ZoneOrder(a: Zone, b: Zone): int {
    NameOrder(a.name, b.name)
  }

  /** Where the filter lets iteration begin: at the lower bound, or right after it when the
      search reports the bound itself as listed. */
  function FilterStart(names: seq<string>, filter: Option<ZoneFilter>): (start: nat)
    ensures start <= |names|
  {
    if filter.None? || filter.value.lowerBound.None? || filter.value.lowerBound.value == "" then 0
    else
      var (index, equal) := LowerBoundResult(names, filter.value.lowerBound.value);
      var start := if equal then index + 1 else index;
      if start < 0 || start >= |names| then |names| else start
  }

  method ApplyZoneLowerBoundFilter<T>(items: seq<T>, names: seq<string>, filter: Option<ZoneFilter>)
    returns (rest: seq<T>)
    requires |items| == |names| && Sorted(NameOrder, names)
    ensures rest == items[FilterStart(names, filter)..]
    ensures filter.None? ==> rest == items
    ensures filter.Some? ==> forall i :: 0 <= i < |items| ==>
      (i >= |items| - |rest| <==> IsBehind(names, filter.value.lowerBound, i))
  {
    AllKept(names, filter);
    hide NameOrder;
    if filter.None? || filter.value.lowerBound.None? || filter.value.lowerBound.value == "" {
      return items;
    }
    var start, equal := SearchZoneLowerBound(names, filter.value.lowerBound.value);
    if equal {
      start := start + 1;
    }
    if start < 0 || start >= |items| {
      return [];
    }
    return items[start..];
  }

  /** The zones loaded after the given time, in order. */
  function Loaded(zones: seq<Zone>, after: Option<int>): seq<Zone> {
    if zones == [] then []
    else if after.Some? && zones[0].loaded <= after.value then Loaded(zones[1..], after)
    else [zones[0]] + Loaded(zones[1..], after)
  }

  function AtMost<T>(items: seq<T>, limit: Option<int>): seq<T> {
    if limit.None? || limit.value >= |items| then items
    else if limit.value <= 0 then []
    else items[..limit.value]
  }

  /** What iterating over zones listed under the given names yields, if the consumer never
      stops it. The names are those of the zones in memory and of the files on disk. */
  function SelectedByName(names: seq<string>, zones: seq<Zone>, filter: Option<ZoneFilter>): seq<Zone>
    requires |names| == |zones|
  {
    if filter.None? then zones
    else AtMost(Loaded(zones[FilterStart(names, filter)..], filter.value.loadedAfter), filter.value.limit)
  }

  function Selected(zones: seq<Zone>, filter: Option<ZoneFilter>): seq<Zone> {
    SelectedByName(ZoneNames(zones), zones, filter)
  }

  lemma {:induction false} LoadedAppend(zones: seq<Zone>, more: seq<Zone>, after: Option<int>)
    ensures Loaded(zones + more, after) == Loaded(zones, after) + Loaded(more, after)
  {
    if zones == [] {
      assert zones + more == more;
    } else {
      assert (zones + more)[1..] == zones[1..] + more;
      LoadedAppend(zones[1..], more, after);
    }
  }

  lemma {:induction false} LoadedAll(zones: seq<Zone>)
    ensures Loaded(zones, None) == zones
  {
    if zones != [] {
      LoadedAll(zones[1..]);
    }
  }

  predicate LoadedAfter(zone: Zone, after: Option<int>) {
    after.None? || zone.loaded > after.value
  }

  lemma LoadedNext(zones: seq<Zone>, i: nat, after: Option<int>)
    requires i < |zones|
    ensures Loaded(zones[..i + 1], after)
         == Loaded(zones[..i], after) + if LoadedAfter(zones[i], after) then [zones[i]] else []
  {
    assert zones[..i + 1] == zones[..i] + [zones[i]];
    LoadedAppend(zones[..i], [zones[i]], after);
  }

  /** Once the limit is reached, a further zone that passes is where iteration ends. */
  lemma LimitReached(zones: seq<Zone>, i: nat, after: Option<int>, limit: int)
    requires i < |zones| && LoadedAfter(zones[i], after)
    requires |Loaded(zones[..i], after)| == if limit <= 0 then 0 else limit
    ensures AtMost(Loaded(zones, after), Some(limit)) == Loaded(zones[..i], after)
  {
    assert zones == zones[..i] + zones[i..];
    LoadedAppend(zones[..i], zones[i..], after);
    assert Loaded(zones[i..], after) != [];
  }

  method IterateZones(names: seq<string>, zones: seq<Zone>, filter: Option<ZoneFilter>)
    returns (yielded: seq<Zone>)
    requires |names| == |zones| && Sorted(NameOrder, names)
    ensures yielded == SelectedByName(names, zones, filter)
  {
    hide NameOrder, FilterStart, Loaded;
    var rest := ApplyZoneLowerBoundFilter(zones, names, filter);
    if filter.None? {
      NoFilterStart(names);
      LoadedAll(rest);
    }
    ghost var after := if filter.Some? then filter.value.loadedAfter else None;
    ghost var limit := if filter.Some? then filter.value.limit else None;
    NothingLoaded(after);
    yielded := [];
    var count := 0;
    for i := 0 to |rest|
      invariant yielded == Loaded(rest[..i], after)
      invariant limit.Some? ==> count == |yielded| && (count == 0 || count <= limit.value)
    {
      LoadedNext(rest, i, after);
      if filter.Some? {
        if filter.value.loadedAfter.Some? && rest[i].loaded <= filter.value.loadedAfter.value {
          continue;
        }
        if filter.value.limit.Some? {
          count := count + 1;
          if count > filter.value.limit.value {
            LimitReached(rest, i, after, limit.value);
            return;
          }
        }
      }
      yielded := yielded + [rest[i]];
    }
    assert rest[..|rest|] == rest;
  }

  lemma NoFilterStart(names: seq<string>)
    ensures FilterStart(names, None) == 0
  {
  }

  lemma NothingLoaded(after: Option<int>)
    ensures Loaded([], after) == []
  {
  }

  lemma SortedZonesHaveSortedNames(zones: seq<Zone>)
    ensures Sorted(ZoneOrder, zones) <==> Sorted(NameOrder, ZoneNames(zones))
  {
    hide NameOrder;
    var names := ZoneNames(zones);
    forall i, j | 0 <= i < j < |zones|
      ensures ZoneOrder(zones[i], zones[j]) == NameOrder(names[i], names[j])
    {
    }
  }

  lemma ZoneOrderIsOrder()
    ensures IsOrder(ZoneOrder)
  {
    hide NameOrder;
    NameOrderIsTotal();
    forall a, b, c | ZoneOrder(a, b) <= 0 && ZoneOrder(b, c) <= 0 ensures ZoneOrder(a, c) <= 0 {
      assert NameOrder(a.name, b.name) <= 0 && NameOrder(b.name, c.name) <= 0;
    }
    forall a, b ensures -1 <= ZoneOrder(a, b) <= 1 && ZoneOrder(a, b) == -ZoneOrder(b, a) {
      assert NameOrder(a.name, b.name) == -NameOrder(b.name, a.name);
    }
  }

  /** A view held in memory, its zones in DNS order. */
  class View {
    const name: string
    var zoneList: seq<Zone>

    ghost predicate Valid()
      reads this
    {
      Sorted(ZoneOrder, zoneList)
    }

    constructor (name: string, zones: seq<Zone>)
      ensures Valid() && this.name == name && zoneList == SortBy(ZoneOrder, zones)
      ensures multiset(zoneList) == multiset(zones)
    {
      this.name := name;
      this.zoneList := SortBy(ZoneOrder, zones);
      new;
      ZoneOrderIsOrder();
      SortBySorted(ZoneOrder, zones);
    }

    method SetZones(zones: seq<Zone>)
      modifies this
      ensures Valid() && zoneList == SortBy(ZoneOrder, zones)
      ensures multiset(zoneList) == multiset(zones)
    {
      zoneList := SortBy(ZoneOrder, zones);
      ZoneOrderIsOrder();
      SortBySorted(ZoneOrder, zones);
    }

    /** A zone that is listed under the given name is found; a miss means that none is. */
    method GetZone(zoneName: string) returns (zone: Option<Zone>)
      requires Valid()
      ensures var k := SearchResult(ZoneNames(zoneList), zoneName);
        zone == if k >= 0 then Some(zoneList[k]) else None
      ensures zone.Some? ==> zone.value in zoneList && Undotted(zone.value.name) == Undotted(zoneName)
      ensures zone.None? ==> forall z :: z in zoneList ==> z.name != zoneName
    {
      hide NameOrder;
      SortedZonesHaveSortedNames(zoneList);
      FoundZone(zoneList, zoneName);
      var index := SearchZone(ZoneNames(zoneList), zoneName);
      if index >= 0 {
        return Some(zoneList[index]);
      }
      return None;
    }

    method GetZoneIterator(filter: Option<ZoneFilter>) returns (yielded: seq<Zone>)
      requires Valid()
      ensures yielded == Selected(zoneList, filter)
    {
      SortedZonesHaveSortedNames(zoneList);
      yielded := IterateZones(ZoneNames(zoneList), zoneList, filter);
    }
  }

  lemma FoundZone(zones: seq<Zone>, name: string)
    requires Sorted(ZoneOrder, zones)
    ensures var k := SearchResult(ZoneNames(zones), name);
      && -1 <= k < |zones|
      && (k >= 0 ==> Undotted(zones[k].name) == Undotted(name))
      && (k == -1 ==> forall z :: z in zones ==> z.name != name)
  {
    hide NameOrder;
    var names := ZoneNames(zones);
    var k := LowerBound(names, name);
    LowerBoundMeaning(names, name);
    forall i | 0 <= i < |zones| && zones[i].name == name
      ensures k <= i && NameOrder(names[k], name) == 0 && IndexOf(names, name) != -1
    {
      OrderZero(zones[i].name, name);
      assert names[i] in names;
      SortedZonesHaveSortedNames(zones);
      if k < i {
        SameSide(names[k], names[i], name);
      }
    }
    if k < |names| {
      OrderZero(names[k], name);
    }
  }

  /** No lower bound, limit or time is set. */
  predicate LetsAllPass(filter: Option<ZoneFilter>) {
    filter.None? || (filter.value.lowerBound.None? && filter.value.limit.None? && filter.value.loadedAfter.None?)
  }

  lemma {:induction false} LoadedLength(zones: seq<Zone>, after: Option<int>)
    ensures |Loaded(zones, after)| <= |zones|
  {
    if zones != [] {
      LoadedLength(zones[1..], after);
    }
  }

  lemma SelectedLength(zones: seq<Zone>, filter: Option<ZoneFilter>)
    ensures |Selected(zones, filter)| <= |zones|
    ensures LetsAllPass(filter)
      ==> Selected(zones, filter) == zones
  {
    if filter.Some? {
      LoadedLength(zones[FilterStart(ZoneNames(zones), filter)..], filter.value.loadedAfter);
      if filter.value.lowerBound.None? && filter.value.loadedAfter.None? {
        LoadedAll(zones);
      }
    }
  }

  // What a filter holds back, zone by zone

  /** Over sorted names, what a lower bound drops: every name ordered before it, no name ordered
      after it, and of the names equal to it in DNS order only the first one, if the list is scanned
      or the name is spelled like the bound. */
  lemma BehindLowerBound(names: seq<string>, bound: string, filter: ZoneFilter, i: nat)
    requires Sorted(NameOrder, names) && filter.lowerBound == Some(bound) && bound != "" && i < |names|
    ensures i < FilterStart(names, Some(filter))
       <==> || NameOrder(names[i], bound) < 0
            || (&& NameOrder(names[i], bound) == 0 && (forall j :: 0 <= j < i ==> NameOrder(names[j], bound) < 0)
                && (|names| < 3000 || names[i] == bound))
  {
    hide NameOrder;
    LowerBoundMeaning(names, bound);
    var k := LowerBound(names, bound);
    if k < i {
      NotBeforeBound(names[k], names[i], bound);
    }
    if k < |names| {
      OrderZero(names[k], bound);
    }
  }

  lemma NotBeforeBound(a: string, b: string, bound: string)
    requires NameOrder(a, b) <= 0 && NameOrder(a, bound) >= 0
    ensures NameOrder(b, bound) >= 0
  {
    BeforeIsDownwardClosed(a, b, bound);
  }

  /** A name lies behind a lower bound: it is ordered after it, or equal to it without being the
      one that the search reports as the bound. Without a bound every name does. */
  ghost predicate IsBehind(names: seq<string>, bound: Option<string>, i: nat)
    requires i < |names|
  {
    || bound in {None, Some("")}
    || NameOrder(names[i], bound.value) > 0
    || (&& NameOrder(names[i], bound.value) == 0
        && ((exists j :: 0 <= j < i && NameOrder(names[j], bound.value) >= 0)
            || (|names| >= 3000 && names[i] != bound.value)))
  }

  lemma BehindIsKept(names: seq<string>, filter: ZoneFilter, i: nat)
    requires Sorted(NameOrder, names) && i < |names|
    ensures i >= FilterStart(names, Some(filter)) <==> IsBehind(names, filter.lowerBound, i)
  {
    hide NameOrder, FilterStart;
    if filter.lowerBound in {None, Some("")} {
      WithoutLowerBound(names, Some(filter));
    } else {
      BehindLowerBound(names, filter.lowerBound.value, filter, i);
      SignOf(names[i], filter.lowerBound.value);
    }
  }

  lemma AllKept(names: seq<string>, filter: Option<ZoneFilter>)
    requires Sorted(NameOrder, names)
    ensures filter.Some? ==> forall i :: 0 <= i < |names| ==>
      (i >= FilterStart(names, filter) <==> IsBehind(names, filter.value.lowerBound, i))
  {
    hide NameOrder, FilterStart, IsBehind;
    if filter.Some? {
      forall i | 0 <= i < |names|
        ensures i >= FilterStart(names, filter) <==> IsBehind(names, filter.value.lowerBound, i)
      {
        BehindIsKept(names, filter.value, i);
      }
    }
  }

  lemma SignOf(a: string, b: string)
    ensures NameOrder(a, b) in {-1, 0, 1}
  {
    NameOrderIsTotal();
  }

  lemma WithoutLowerBound(names: seq<string>, filter: Option<ZoneFilter>)
    requires filter.None? || filter.value.lowerBound in {None, Some("")}
    ensures FilterStart(names, filter) == 0
  {
  }

  /** Positions in increasing order. */
  ghost predicate Increasing(chosen: seq<nat>, count: nat) {
    && (forall k :: 0 <= k < |chosen| ==> chosen[k] < count)
    && (forall k, l :: 0 <= k < l < |chosen| ==> chosen[k] < chosen[l])
  }

  /** The elements that satisfy a condition, in their order. */
  function Kept<T>(items: seq<T>, keep: T -> bool): seq<T> {
    if items == [] then [] else (if keep(items[0]) then [items[0]] else []) + Kept(items[1..], keep)
  }

  lemma {:induction false} KeptAppend<T>(items: seq<T>, last: T, keep: T -> bool)
    ensures Kept(items + [last], keep) == Kept(items, keep) + if keep(last) then [last] else []
  {
    if items == [] {
      assert items + [last] == [last] && [last][1..] == [];
    } else {
      assert (items + [last])[1..] == items[1..] + [last];
      KeptAppend(items[1..], last, keep);
    }
  }

  /** Which elements are kept: those, once for each position, and in the order of their positions. */
  lemma {:induction false} KeptMeaning<T>(items: seq<T>, keep: T -> bool) returns (chosen: seq<nat>)
    ensures Increasing(chosen, |items|) && |chosen| == |Kept(items, keep)|
    ensures forall k :: 0 <= k < |chosen| ==> Kept(items, keep)[k] == items[chosen[k]]
    ensures forall i :: 0 <= i < |items| ==> (i in chosen <==> keep(items[i]))
  {
    hide Kept;
    if items == [] {
      chosen := [];
      NothingKept(items, keep);
    } else {
      var last := |items| - 1;
      var front := KeptMeaning(items[..last], keep);
      assert items == items[..last] + [items[last]];
      KeptAppend(items[..last], items[last], keep);
      chosen := front + if keep(items[last]) then [last] else [];
    }
  }

  lemma {:induction false} InKept<T>(items: seq<T>, keep: T -> bool, x: T)
    ensures x in Kept(items, keep) <==> x in items && keep(x)
  {
    if items != [] {
      InKept(items[1..], keep, x);
      assert x in items <==> x == items[0] || x in items[1..];
    }
  }

  lemma FirstKept<T>(items: seq<T>, keep: T -> bool)
    requires items != []
    ensures Kept(items, keep) == (if keep(items[0]) then [items[0]] else []) + Kept(items[1..], keep)
  {
  }

  lemma NothingKept<T>(items: seq<T>, keep: T -> bool)
    requires items == []
    ensures Kept(items, keep) == []
  {
  }

  /** Which zones are loaded after a time. */
  lemma {:induction false} LoadedIsKept(zones: seq<Zone>, after: Option<int>)
    ensures Loaded(zones, after) == Kept(zones, (z: Zone) => after.None? || z.loaded > after.value)
  {
    if zones != [] {
      LoadedIsKept(zones[1..], after);
    }
  }

  /** The positions behind a start. */
  lemma Shifted(start: nat, rest: seq<nat>, count: nat) returns (chosen: seq<nat>)
    requires start <= count && Increasing(rest, count - start)
    ensures Increasing(chosen, count) && |chosen| == |rest|
    ensures forall k :: 0 <= k < |rest| ==> chosen[k] == start + rest[k]
    ensures forall i :: 0 <= i < count ==> (i in chosen <==> i >= start && i - start in rest)
  {
    chosen := seq(|rest|, k requires 0 <= k < |rest| => start + rest[k]);
    forall i | start <= i < count && i - start in rest ensures i in chosen {
      var k :| 0 <= k < |rest| && rest[k] == i - start;
      assert chosen[k] == i;
    }
  }

  lemma KeptAndLoaded(zones: seq<Zone>, filter: ZoneFilter, start: nat, rest: seq<nat>, i: nat)
    requires Sorted(ZoneOrder, zones) && i < |zones| && start == FilterStart(ZoneNames(zones), Some(filter))
    requires forall j :: 0 <= j < |zones| - start ==>
      (j in rest <==> filter.loadedAfter.None? || zones[start..][j].loaded > filter.loadedAfter.value)
    ensures i >= start && i - start in rest
       <==> && IsBehind(ZoneNames(zones), filter.lowerBound, i)
            && (filter.loadedAfter.None? || zones[i].loaded > filter.loadedAfter.value)
  {
    hide NameOrder, FilterStart, IsBehind, ZoneOrder;
    SortedZonesHaveSortedNames(zones);
    BehindIsKept(ZoneNames(zones), filter, i);
    assert i >= start ==> zones[start..][i - start] == zones[i];
  }

  lemma LoadedBehind(zones: seq<Zone>, filter: ZoneFilter) returns (chosen: seq<nat>)
    requires Sorted(ZoneOrder, zones)
    ensures Increasing(chosen, |zones|)
    ensures forall i :: 0 <= i < |zones| ==> (i in chosen
       <==> && IsBehind(ZoneNames(zones), filter.lowerBound, i)
            && (filter.loadedAfter.None? || zones[i].loaded > filter.loadedAfter.value))
    ensures var all := Loaded(zones[FilterStart(ZoneNames(zones), Some(filter))..], filter.loadedAfter);
      |all| == |chosen| && forall k :: 0 <= k < |all| ==> all[k] == zones[chosen[k]]
  {
    hide NameOrder, FilterStart, IsBehind, Loaded, ZoneOrder, Sorted;
    var start := FilterStart(ZoneNames(zones), Some(filter));
    var behind := zones[start..];
    LoadedIsKept(behind, filter.loadedAfter);
    var rest := KeptMeaning(behind, (z: Zone) => filter.loadedAfter.None? || z.loaded > filter.loadedAfter.value);
    chosen := Shifted(start, rest, |zones|);
    forall k | 0 <= k < |rest| ensures Loaded(behind, filter.loadedAfter)[k] == zones[chosen[k]] {
      assert behind[rest[k]] == zones[start + rest[k]];
    }
    forall i | 0 <= i < |zones|
      ensures i in chosen
         <==> && IsBehind(ZoneNames(zones), filter.lowerBound, i)
              && (filter.loadedAfter.None? || zones[i].loaded > filter.loadedAfter.value)
    {
      KeptAndLoaded(zones, filter, start, rest, i);
    }
  }

  /** Which zones an iteration yields: of those behind the lower bound that were loaded late
      enough, the first ones up to the limit, in their order. */
  lemma SelectedZones(zones: seq<Zone>, filter: ZoneFilter) returns (chosen: seq<nat>)
    requires Sorted(ZoneOrder, zones)
    ensures Increasing(chosen, |zones|)
    ensures forall i :: 0 <= i < |zones| ==> (i in chosen
       <==> && IsBehind(ZoneNames(zones), filter.lowerBound, i)
            && (filter.loadedAfter.None? || zones[i].loaded > filter.loadedAfter.value))
    ensures |Selected(zones, Some(filter))|
         == if filter.limit.None? || filter.limit.value >= |chosen| then |chosen|
            else if filter.limit.value <= 0 then 0 else filter.limit.value
    ensures forall k :: 0 <= k < |Selected(zones, Some(filter))| ==> Selected(zones, Some(filter))[k] == zones[chosen[k]]
  {
    hide NameOrder, FilterStart, IsBehind, Loaded, ZoneOrder, Sorted;
    chosen := LoadedBehind(zones, filter);
  }
}
