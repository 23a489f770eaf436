/** Cumulative histograms built from named statistics (agent/prombind9exporter.go). */
module Histograms {
  import opened Wrappers
  import opened Texts
  import opened Orders

  const WORD := 0x1_0000_0000_0000_0000

  type Uint64 = n: int | 0 <= n < WORD

  /** The upper bound of a bucket. */
  datatype Bound = Finite(value: real) | Infinite

  type Buckets = map<Bound, Uint64>

  function BoundOrder(a: Bound, b: Bound): int {
    if a == b then 0
    else if b.Infinite? || (a.Finite? && a.value < b.value) then -1
    else 1
  }

  predicate AtMost(a: Bound, b: Bound) {
    BoundOrder(a, b) <= 0
  }

  /** Parsing floating point numbers is a parameter. */
  type FloatParser = string -> Option<Bound>

  /** What the name of a statistic says. */
  datatype Stat = Ignored | Malformed | Bucket(bound: Bound)

  const QRY_RTT := "QryRTT"

  predicate IsOpenEnded(name: string) {
    name != "" && name[|name| - 1] == '+'
  }

  /** Round trip times are named in milliseconds; the buckets are in seconds. */
  function RttStat(parseFloat: FloatParser, name: string): Stat {
    if !(QRY_RTT <= name) then Ignored
    else if IsOpenEnded(name) then Bucket(Infinite)
    else match parseFloat(name[|QRY_RTT|..])
      case None => Malformed
      case Some(Infinite) => Bucket(Infinite)
      case Some(Finite(ms)) => Bucket(Finite(ms / 1000.0))
  }

  /** Sizes are named by their range, of which the maximum counts. */
  function TrafficStat(parseFloat: FloatParser, name: string): Stat {
    if IsOpenEnded(name) then Bucket(Infinite)
    else
      var sizes := Split(name, '-');
      if |sizes| != 2 then Ignored
      else match parseFloat(sizes[1])
        case None => Malformed
        case Some(b) => Bucket(b)
  }

  function RttNames(parseFloat: FloatParser): string -> Stat {
    (name: string) => RttStat(parseFloat, name)
  }

  function TrafficNames(parseFloat: FloatParser): string -> Stat {
    (name: string) => TrafficStat(parseFloat, name)
  }

  // What names stand for

  /** A name of two parts with one dash between them counts up to what the second part denotes. */
  lemma RangeStat(parseFloat: FloatParser, lo: string, hi: string)
    requires '-' !in lo && '-' !in hi && !IsOpenEnded(hi)
    ensures parseFloat(hi).Some? ==> TrafficStat(parseFloat, lo + "-" + hi) == Bucket(parseFloat(hi).value)
    ensures parseFloat(hi).None? ==> TrafficStat(parseFloat, lo + "-" + hi) == Malformed
  {
    SplitFirst(lo, hi, '-');
    SplitWhole(hi, '-');
    assert lo + ['-'] + hi == lo + "-" + hi;
  }

  /** A name without exactly one dash says nothing unless it is open-ended. */
  lemma OtherStat(parseFloat: FloatParser, name: string)
    requires !IsOpenEnded(name)
    requires forall lo, hi :: '-' !in lo && '-' !in hi ==> name != lo + "-" + hi
    ensures TrafficStat(parseFloat, name) == Ignored
  {
    if |Split(name, '-')| == 2 {
      TwoParts(name);
    }
  }

  lemma TwoParts(name: string)
    requires |Split(name, '-')| == 2
    ensures var parts := Split(name, '-');
      '-' !in parts[0] && '-' !in parts[1] && name == parts[0] + "-" + parts[1]
  {
    var parts := Split(name, '-');
    JoinSplit(name, '-');
    assert parts == [parts[0], parts[1]];
    assert parts[0] in parts && parts[1] in parts;
    assert parts[1..] == [parts[1]];
  }

  lemma OpenEndedStat(parseFloat: FloatParser, name: string)
    ensures TrafficStat(parseFloat, name + "+") == Bucket(Infinite)
    ensures RttStat(parseFloat, "QryRTT" + name + "+") == Bucket(Infinite)
  {
  }

  /** A round trip time counts up to a thousandth of what the name denotes; other names say
      nothing. */
  lemma TimeStat(parseFloat: FloatParser, rtt: string, name: string)
    requires !IsOpenEnded(rtt)
    ensures parseFloat(rtt).None? ==> RttStat(parseFloat, "QryRTT" + rtt) == Malformed
    ensures parseFloat(rtt) == Some(Infinite) ==> RttStat(parseFloat, "QryRTT" + rtt) == Bucket(Infinite)
    ensures parseFloat(rtt).Some? && parseFloat(rtt).value.Finite? ==>
      && RttStat(parseFloat, "QryRTT" + rtt).Bucket? && RttStat(parseFloat, "QryRTT" + rtt).bound.Finite?
      && RttStat(parseFloat, "QryRTT" + rtt).bound.value * 1000.0 == parseFloat(rtt).value.value
    ensures !("QryRTT" <= name) ==> RttStat(parseFloat, name) == Ignored
  {
    assert ("QryRTT" + rtt)[|QRY_RTT|..] == rtt;
  }

  // Sums over finite sets

  ghost function SumOf<K(!new)>(m: map<K, Uint64>, keys: set<K>): nat
    requires keys <= m.Keys
  {
    if keys == {} then 0
    else
      var k :| k in keys;
      m[k] + SumOf(m, keys - {k})
  }

  lemma EmptySum<K(!new)>(m: map<K, Uint64>)
    ensures SumOf(m, {}) == 0
  {
  }

  lemma {:induction false} SumWithout<K(!new)>(m: map<K, Uint64>, keys: set<K>, k: K)
    requires keys <= m.Keys && k in keys
    ensures SumOf(m, keys) == m[k] + SumOf(m, keys - {k})
  {
    var first :| first in keys && SumOf(m, keys) == m[first] + SumOf(m, keys - {first});
    if first != k {
      SumWithout(m, keys - {first}, k);
      SumWithout(m, keys - {k}, first);
      assert keys - {first} - {k} == keys - {k} - {first};
    }
  }

  lemma {:induction false} SumOfPart<K(!new)>(m: map<K, Uint64>, part: set<K>, whole: set<K>)
    requires part <= whole <= m.Keys
    ensures SumOf(m, part) <= SumOf(m, whole)
    decreases |whole - part|
  {
    var others := whole - part;
    if others == {} {
      assert whole == part;
    } else {
      var k :| k in others;
      SumWithout(m, part + {k}, k);
      assert part + {k} - {k} == part;
      assert whole - (part + {k}) == others - {k};
      SumOfPart(m, part + {k}, whole);
    }
  }

  lemma {:induction false} SumsAgree<K(!new)>(m: map<K, Uint64>, n: map<K, Uint64>, keys: set<K>)
    requires keys <= m.Keys && keys <= n.Keys && forall k :: k in keys ==> m[k] == n[k]
    ensures SumOf(m, keys) == SumOf(n, keys)
    decreases |keys|
  {
    if keys != {} {
      var k :| k in keys;
      SumWithout(m, keys, k);
      SumWithout(n, keys, k);
      SumsAgree(m, n, keys - {k});
    }
  }

  lemma {:induction false} Greatest(bounds: set<Bound>) returns (b: Bound)
    requires bounds != {}
    ensures b in bounds && forall c :: c in bounds ==> AtMost(c, b)
    decreases |bounds|
  {
    BoundOrderIsTotal();
    var first :| first in bounds;
    b := first;
    var others := bounds - {first};
    if others != {} {
      var c := Greatest(others);
      if AtMost(first, c) {
        b := c;
      } else {
        assert forall d :: d in others ==> AtMost(d, c) && AtMost(c, first);
      }
    }
    assert forall c :: c in bounds ==> c == first || c in others;
  }

  // Cumulative buckets

  function UpTo(raw: Buckets, b: Bound): (bounds: set<Bound>)
    ensures bounds <= raw.Keys
  {
    set c | c in raw && AtMost(c, b)
  }

  ghost function Cumulative(raw: Buckets): (buckets: Buckets)
    ensures buckets.Keys == raw.Keys
  {
    map b | b in raw :: SumOf(raw, UpTo(raw, b)) % WORD
  }

  ghost function Total(raw: Buckets): nat {
    SumOf(raw, raw.Keys)
  }

  ghost function Elements(bounds: seq<Bound>): set<Bound> {
    set b | b in bounds
  }

  lemma InElements(bounds: seq<Bound>, b: Bound)
    ensures b in Elements(bounds) <==> b in bounds
  {
  }

  lemma BoundOrderIsTotal()
    ensures IsTotalOrder(BoundOrder)
  {
  }

  lemma SortedKeys(raw: Buckets, keys: seq<Bound>)
    requires multiset(keys) == multiset(raw.Keys)
    ensures StrictlySorted(BoundOrder, SortBy(BoundOrder, keys)) && Elements(SortBy(BoundOrder, keys)) == raw.Keys
  {
    hide BoundOrder, SortBy;
    BoundOrderIsTotal();
    SortBySorted(BoundOrder, keys);
    var sorted := SortBy(BoundOrder, keys);
    forall i, j | 0 <= i < j < |sorted| ensures BoundOrder(sorted[i], sorted[j]) < 0 {
      OccursOnce(sorted, raw.Keys, i, j);
    }
    SameElements(raw, sorted);
  }

  lemma SameElements(raw: Buckets, keys: seq<Bound>)
    requires multiset(keys) == multiset(raw.Keys)
    ensures Elements(keys) == raw.Keys
  {
    forall b ensures b in keys <==> b in raw {
      assert b in keys <==> b in multiset(keys);
    }
  }

  lemma SortedPrefix(raw: Buckets, sorted: seq<Bound>, j: nat)
    requires StrictlySorted(BoundOrder, sorted) && Elements(sorted) == raw.Keys && j < |sorted|
    ensures UpTo(raw, sorted[j]) == Elements(sorted[..j + 1])
  {
    BoundOrderIsTotal();
    hide BoundOrder;
    forall b | b in UpTo(raw, sorted[j]) ensures b in sorted[..j + 1] {
      assert b in Elements(sorted);
      var i :| 0 <= i < |sorted| && sorted[i] == b;
      assert i <= j;
    }
    forall b | b in sorted[..j + 1] ensures b in UpTo(raw, sorted[j]) {
      var i :| 0 <= i < j + 1 && sorted[i] == b;
      assert b in Elements(sorted);
      assert AtMost(sorted[i], sorted[j]);
    }
  }

  lemma Apart(sorted: seq<Bound>, j: nat)
    requires StrictlySorted(BoundOrder, sorted) && j < |sorted|
    ensures forall i :: 0 <= i < |sorted| && i != j ==> sorted[i] != sorted[j]
    ensures sorted[j] !in Elements(sorted[..j])
    ensures Elements(sorted[..j + 1]) == Elements(sorted[..j]) + {sorted[j]}
  {
    assert sorted[..j + 1] == sorted[..j] + [sorted[j]];
  }

  /** One more bucket adds its own count to the sum of those before it. */
  lemma SortedStep(raw: Buckets, sorted: seq<Bound>, j: nat)
    requires StrictlySorted(BoundOrder, sorted) && Elements(sorted) == raw.Keys && j < |sorted|
    ensures Elements(sorted[..j]) <= raw.Keys && Elements(sorted[..j + 1]) <= raw.Keys && sorted[j] in raw
    ensures SumOf(raw, Elements(sorted[..j + 1])) == SumOf(raw, Elements(sorted[..j])) + raw[sorted[j]]
    ensures Cumulative(raw)[sorted[j]] == SumOf(raw, Elements(sorted[..j + 1])) % WORD
  {
    hide SumOf, StrictlySorted, AtMost;
    SortedPrefix(raw, sorted, j);
    Apart(sorted, j);
    assert sorted[j] in Elements(sorted);
    assert Elements(sorted[..j + 1]) - {sorted[j]} == Elements(sorted[..j]);
    SumWithout(raw, Elements(sorted[..j + 1]), sorted[j]);
  }

  /** The keys of a map, in any order. */
  method Keys(raw: Buckets) returns (keys: seq<Bound>)
    ensures multiset(keys) == multiset(raw.Keys)
  {
    keys := [];
    var rest := raw.Keys;
    while rest != {}
      invariant rest <= raw.Keys && multiset(keys) + multiset(rest) == multiset(raw.Keys)
    {
      var b :| b in rest;
      keys := keys + [b];
      rest := rest - {b};
    }
  }

  /** The first buckets hold running sums, the others still their own counts. */
  ghost predicate IsPartial(raw: Buckets, keys: seq<Bound>, i: nat, count: Uint64, buckets: Buckets)
    requires i <= |keys|
  {
    && buckets.Keys == raw.Keys
    && Elements(keys[..i]) <= raw.Keys && count == SumOf(raw, Elements(keys[..i])) % WORD
    && (forall j :: 0 <= j < |keys| ==>
      keys[j] in raw && buckets[keys[j]] == if j < i then Cumulative(raw)[keys[j]] else raw[keys[j]])
  }

  lemma PartialStep(raw: Buckets, keys: seq<Bound>, i: nat, count: Uint64, buckets: Buckets)
    requires StrictlySorted(BoundOrder, keys) && Elements(keys) == raw.Keys
    requires i < |keys| && IsPartial(raw, keys, i, count, buckets)
    ensures keys[i] in buckets
    ensures var sum := (count + buckets[keys[i]]) % WORD; IsPartial(raw, keys, i + 1, sum, buckets[keys[i] := sum])
  {
    hide SumOf, BoundOrder, StrictlySorted, Elements, Cumulative;
    SortedStep(raw, keys, i);
    Apart(keys, i);
    var sum := (count + buckets[keys[i]]) % WORD;
    forall j | 0 <= j < |keys|
      ensures buckets[keys[i] := sum][keys[j]] == if j < i + 1 then Cumulative(raw)[keys[j]] else raw[keys[j]]
    {
    }
  }

  lemma PartialEnd(raw: Buckets, keys: seq<Bound>, count: Uint64, buckets: Buckets)
    requires Elements(keys) == raw.Keys && IsPartial(raw, keys, |keys|, count, buckets)
    ensures buckets == Cumulative(raw) && count == Total(raw) % WORD
  {
    hide SumOf, Elements, Cumulative;
    assert keys[..|keys|] == keys;
    forall b | b in raw ensures buckets[b] == Cumulative(raw)[b] {
      InElements(keys, b);
    }
  }

  /** Sorts the bounds and replaces each count by the running sum. */
  method Accumulate(raw: Buckets) returns (count: Uint64, buckets: Buckets)
    ensures buckets == Cumulative(raw)
    ensures count == Total(raw) % WORD
  {
    hide SumOf, BoundOrder, StrictlySorted, SortBy, Elements, Cumulative, IsPartial;
    var keys := Keys(raw);
    SortedKeys(raw, keys);
    keys := SortBy(BoundOrder, keys);
    buckets := raw;
    count := 0;
    NothingSummed(raw, keys);
    for i := 0 to |keys|
      invariant IsPartial(raw, keys, i, count, buckets)
    {
      PartialStep(raw, keys, i, count, buckets);
      count := (count + buckets[keys[i]]) % WORD;
      buckets := buckets[keys[i] := count];
    }
    PartialEnd(raw, keys, count, buckets);
  }

  lemma NothingSummed(raw: Buckets, keys: seq<Bound>)
    requires Elements(keys) == raw.Keys
    ensures IsPartial(raw, keys, 0, 0, raw)
  {
    assert Elements(keys[..0]) == {};
    forall j | 0 <= j < |keys| ensures keys[j] in raw {
      assert keys[j] in Elements(keys);
    }
  }

  // Filling the buckets, in whatever order the statistics are visited

  type Stats = map<string, Uint64>
  type Classifier = string -> Stat

  predicate IsMalformed(stats: Stats, classify: Classifier) {
    exists name :: name in stats && classify(name).Malformed?
  }

  /** Each statistic is visited once. */
  ghost predicate Visits(order: seq<string>, stats: Stats) {
    multiset(order) == multiset(stats.Keys)
  }

  /** A later statistic replaces an earlier one of the same bucket. */
  function Filled(start: Buckets, order: seq<string>, stats: Stats, classify: Classifier): Buckets
    requires forall name :: name in order ==> name in stats
  {
    if order == [] then start
    else
      var name := order[|order| - 1];
      assert name in order;
      var before := Filled(start, order[..|order| - 1], stats, classify);
      match classify(name)
      case Bucket(b) => before[b := stats[name]]
      case _ => before
  }

  lemma VisitedOnly(order: seq<string>, stats: Stats)
    requires multiset(order) <= multiset(stats.Keys)
    ensures forall name :: name in order ==> name in stats
  {
    forall name | name in order ensures name in stats {
      assert name in multiset(order);
    }
  }

  lemma VisitedAll(order: seq<string>, stats: Stats)
    requires Visits(order, stats)
    ensures forall name :: name in order <==> name in stats
  {
    VisitedOnly(order, stats);
    forall name | name in stats ensures name in order {
      assert name in multiset(stats.Keys);
    }
  }

  lemma FilledNext(start: Buckets, order: seq<string>, name: string, stats: Stats, classify: Classifier)
    requires name in stats && forall n :: n in order ==> n in stats
    ensures Filled(start, order + [name], stats, classify)
         == var before := Filled(start, order, stats, classify);
            if classify(name).Bucket? then before[classify(name).bound := stats[name]] else before
  {
    assert (order + [name])[..|order|] == order;
  }

  /** The histogram of one complete visit. */
  ghost predicate IsHistogram(count: Uint64, buckets: Buckets, start: Buckets, order: seq<string>, stats: Stats,
                              classify: Classifier)
    requires forall name :: name in order ==> name in stats
  {
    var raw := Filled(start, order, stats, classify);
    buckets == Cumulative(raw) && count == Total(raw) % WORD
  }

  method QryRTTHistogram(stats: Stats, parseFloat: FloatParser)
    returns (count: Uint64, buckets: Buckets, failed: bool, ghost order: seq<string>)
    ensures failed == IsMalformed(stats, RttNames(parseFloat))
    ensures failed ==> count == 0
    ensures !failed ==> Visits(order, stats) && forall name :: name in order ==> name in stats
    ensures !failed ==> IsHistogram(count, buckets, map[], order, stats, RttNames(parseFloat))
  {
    hide RttStat, Cumulative, Total;
    ghost var classify := RttNames(parseFloat);
    buckets := map[];
    order := [];
    var rest := stats.Keys;
    while rest != {}
      invariant rest <= stats.Keys && multiset(order) + multiset(rest) == multiset(stats.Keys)
      invariant forall name :: name in order ==> name in stats
      invariant buckets == Filled(map[], order, stats, classify)
      invariant forall name :: name in stats && name !in rest ==> !classify(name).Malformed?
    {
      var name :| name in rest;
      rest := rest - {name};
      FilledNext(map[], order, name, stats, classify);
      match RttStat(parseFloat, name) {
        case Malformed =>
          assert classify(name).Malformed?;
          return 0, buckets, true, order;
        case Bucket(bucket) =>
          buckets := buckets[bucket := stats[name]];
        case Ignored =>
      }
      order := order + [name];
    }
    count, buckets := Accumulate(buckets);
    failed := false;
  }

  method TrafficSizesHistogram(stats: Stats, parseFloat: FloatParser)
    returns (count: Uint64, buckets: Buckets, failed: bool, ghost order: seq<string>)
    ensures failed == IsMalformed(stats, TrafficNames(parseFloat))
    ensures failed ==> count == 0
    ensures !failed ==> Visits(order, stats) && forall name :: name in order ==> name in stats
    ensures !failed ==>
      IsHistogram(count, buckets, map[Infinite := 0], order, stats, TrafficNames(parseFloat))
  {
    hide TrafficStat, Cumulative, Total;
    ghost var classify := TrafficNames(parseFloat);
    buckets := map[Infinite := 0];
    order := [];
    var rest := stats.Keys;
    while rest != {}
      invariant rest <= stats.Keys && multiset(order) + multiset(rest) == multiset(stats.Keys)
      invariant forall name :: name in order ==> name in stats
      invariant buckets == Filled(map[Infinite := 0], order, stats, classify)
      invariant forall name :: name in stats && name !in rest ==> !classify(name).Malformed?
    {
      var name :| name in rest;
      rest := rest - {name};
      FilledNext(map[Infinite := 0], order, name, stats, classify);
      match TrafficStat(parseFloat, name) {
        case Malformed =>
          assert classify(name).Malformed?;
          return 0, buckets, true, order;
        case Bucket(bucket) =>
          buckets := buckets[bucket := stats[name]];
        case Ignored =>
      }
      order := order + [name];
    }
    count, buckets := Accumulate(buckets);
    failed := false;
  }

  // The count and the open-ended bucket

  lemma {:induction false} FilledKeys(start: Buckets, order: seq<string>, stats: Stats, classify: Classifier, b: Bound)
    requires forall name :: name in order ==> name in stats
    ensures b in Filled(start, order, stats, classify)
       <==> b in start || exists name :: name in order && classify(name) == Bucket(b)
    decreases |order|
  {
    if order != [] {
      var last := order[|order| - 1];
      FilledKeys(start, order[..|order| - 1], stats, classify, b);
      assert order == order[..|order| - 1] + [last];
    }
  }

  lemma InfiniteIsTotal(raw: Buckets)
    requires Infinite in raw
    ensures Cumulative(raw)[Infinite] == Total(raw) % WORD
  {
    hide SumOf;
    assert UpTo(raw, Infinite) == raw.Keys;
  }

  /** The open-ended bucket of a histogram equals its count exactly if the histogram has such a
      bucket from the start or there is an open-ended statistic. */
  lemma CountIsInfiniteBucket(count: Uint64, buckets: Buckets, start: Buckets, order: seq<string>, stats: Stats,
                              classify: Classifier)
    requires Visits(order, stats) && forall name :: name in order ==> name in stats
    requires IsHistogram(count, buckets, start, order, stats, classify)
    ensures (Infinite in buckets && buckets[Infinite] == count)
       <==> Infinite in start || exists name :: name in stats && classify(name) == Bucket(Infinite)
  {
    hide Cumulative, Total;
    VisitedAll(order, stats);
    FilledKeys(start, order, stats, classify, Infinite);
    var raw := Filled(start, order, stats, classify);
    if Infinite in raw {
      InfiniteIsTotal(raw);
    }
  }

  // Growth

  ghost predicate Growing(buckets: Buckets) {
    forall b, c :: b in buckets && c in buckets && AtMost(b, c) ==> buckets[b] <= buckets[c]
  }

  lemma UpToSelf(raw: Buckets, b: Bound)
    requires b in raw
    ensures b in UpTo(raw, b) && UpTo(raw, b) <= raw.Keys
    ensures SumOf(raw, UpTo(raw, b)) == raw[b] + SumOf(raw, UpTo(raw, b) - {b})
  {
    SumWithout(raw, UpTo(raw, b), b);
  }

  /** The bounds below one are the bounds up to the next lower one. */
  lemma Predecessor(raw: Buckets, b: Bound) returns (c: Bound)
    requires b in raw && UpTo(raw, b) != {b}
    ensures c in raw && c != b && AtMost(c, b) && UpTo(raw, c) == UpTo(raw, b) - {b}
  {
    BoundOrderIsTotal();
    assert b in UpTo(raw, b);
    c := Greatest(UpTo(raw, b) - {b});
    hide BoundOrder;
    forall d ensures d in UpTo(raw, c) <==> d in UpTo(raw, b) - {b} {
      if d in UpTo(raw, c) {
        assert AtMost(d, c) && AtMost(c, b);
      }
    }
  }

  lemma CumulativeAt(raw: Buckets, b: Bound)
    requires b in raw
    ensures Cumulative(raw)[b] == SumOf(raw, UpTo(raw, b)) % WORD
  {
    hide SumOf, UpTo;
  }

  lemma {:induction false} GrowingSumsFit(raw: Buckets, b: Bound)
    requires b in raw && Growing(Cumulative(raw))
    ensures SumOf(raw, UpTo(raw, b)) < WORD
    decreases |UpTo(raw, b)|
  {
    hide SumOf, UpTo, AtMost, Cumulative;
    UpToSelf(raw, b);
    if UpTo(raw, b) == {b} {
      assert UpTo(raw, b) - {b} == {};
      EmptySum(raw);
    } else {
      var c := Predecessor(raw, b);
      assert |UpTo(raw, c)| < |UpTo(raw, b)|;
      GrowingSumsFit(raw, c);
      CumulativeAt(raw, b);
      CumulativeAt(raw, c);
      assert Cumulative(raw)[c] <= Cumulative(raw)[b];
    }
  }

  lemma UpToGreatest(raw: Buckets) returns (b: Bound)
    requires raw != map[]
    ensures b in raw && UpTo(raw, b) == raw.Keys
  {
    assert raw.Keys != {};
    b := Greatest(raw.Keys);
  }

  /** Cumulative buckets never decrease from bound to bound exactly if the total of all counts
      fits a machine word. Then every bucket is the true sum. */
  lemma GrowsUnlessWrapped(raw: Buckets)
    ensures Growing(Cumulative(raw)) <==> Total(raw) < 0x1_0000_0000_0000_0000
    ensures Total(raw) < WORD ==> forall b :: b in raw ==> Cumulative(raw)[b] == SumOf(raw, UpTo(raw, b))
  {
    hide SumOf, UpTo, AtMost;
    if Total(raw) < WORD {
      forall b | b in raw ensures Cumulative(raw)[b] == SumOf(raw, UpTo(raw, b)) {
        UpToSelf(raw, b);
        SumOfPart(raw, UpTo(raw, b), raw.Keys);
      }
      forall b, c | b in raw && c in raw && AtMost(b, c) ensures Cumulative(raw)[b] <= Cumulative(raw)[c] {
        UpToSelf(raw, c);
        UpToWithin(raw, b, c);
        SumOfPart(raw, UpTo(raw, b), UpTo(raw, c));
      }
    }
    if Growing(Cumulative(raw)) {
      if raw == map[] {
        assert raw.Keys == {};
        EmptySum(raw);
      } else {
        var b := UpToGreatest(raw);
        GrowingSumsFit(raw, b);
      }
    }
  }

  lemma UpToWithin(raw: Buckets, b: Bound, c: Bound)
    requires AtMost(b, c)
    ensures UpTo(raw, b) <= UpTo(raw, c)
  {
    BoundOrderIsTotal();
    hide BoundOrder;
  }

  // Dependence on the order of the visit

  /** Statistics of the same bucket have the same count. */
  ghost predicate Unambiguous(stats: Stats, classify: Classifier) {
    forall m, n :: m in stats && n in stats && classify(m).Bucket? && classify(m) == classify(n) ==> stats[m] == stats[n]
  }

  ghost predicate OrderIndependent(start: Buckets, stats: Stats, classify: Classifier) {
    forall p, q |
      Visits(p, stats) && Visits(q, stats)
      && (forall name :: name in p ==> name in stats) && (forall name :: name in q ==> name in stats)
      :: Cumulative(Filled(start, p, stats, classify)) == Cumulative(Filled(start, q, stats, classify))
  }

  /** What a bucket holds comes from one of its statistics. */
  lemma {:induction false} FilledValue(start: Buckets, order: seq<string>, stats: Stats, classify: Classifier, b: Bound)
    requires forall name :: name in order ==> name in stats
    requires b in Filled(start, order, stats, classify)
    ensures var count := Filled(start, order, stats, classify)[b];
      if exists name :: name in order && classify(name) == Bucket(b)
      then exists name :: name in order && classify(name) == Bucket(b) && stats[name] == count
      else b in start && start[b] == count
    decreases |order|
  {
    if order != [] {
      var last := order[|order| - 1];
      var front := order[..|order| - 1];
      assert order == front + [last];
      assert last in order;
      if classify(last) != Bucket(b) {
        FilledValue(start, front, stats, classify, b);
      }
    }
  }

  lemma UnambiguousFills(start: Buckets, p: seq<string>, q: seq<string>, stats: Stats, classify: Classifier)
    requires Visits(p, stats) && Visits(q, stats)
    requires (forall name :: name in p ==> name in stats) && (forall name :: name in q ==> name in stats)
    requires Unambiguous(stats, classify)
    ensures Filled(start, p, stats, classify) == Filled(start, q, stats, classify)
  {
    hide Filled, Visits;
    VisitedAll(p, stats);
    VisitedAll(q, stats);
    var f, g := Filled(start, p, stats, classify), Filled(start, q, stats, classify);
    forall b ensures b in f <==> b in g {
      FilledKeys(start, p, stats, classify, b);
      FilledKeys(start, q, stats, classify, b);
    }
    forall b | b in f && b in g ensures f[b] == g[b] {
      FilledValue(start, p, stats, classify, b);
      FilledValue(start, q, stats, classify, b);
    }
  }

  lemma {:induction false} SomeVisit(names: set<string>) returns (order: seq<string>)
    ensures multiset(order) == multiset(names)
    decreases |names|
  {
    if names == {} {
      order := [];
    } else {
      var name :| name in names;
      var others := SomeVisit(names - {name});
      order := others + [name];
    }
  }

  /** Some visit ends with a given statistic, whose bucket then has its count. */
  lemma VisitEndingWith(start: Buckets, name: string, stats: Stats, classify: Classifier)
    returns (order: seq<string>)
    requires name in stats && classify(name).Bucket?
    ensures Visits(order, stats) && forall n :: n in order ==> n in stats
    ensures var raw := Filled(start, order, stats, classify);
      classify(name).bound in raw && raw[classify(name).bound] == stats[name]
  {
    var others := SomeVisit(stats.Keys - {name});
    order := others + [name];
    VisitedAll(order, stats);
    FilledNext(start, others, name, stats, classify);
  }

  /** Running sums determine what was summed. */
  lemma {:induction false} CumulativeDetermines(f: Buckets, g: Buckets, b: Bound)
    requires f.Keys == g.Keys && Cumulative(f) == Cumulative(g) && b in f
    ensures f[b] == g[b]
    decreases |UpTo(f, b)|
  {
    hide SumOf, AtMost;
    UpToSelf(f, b);
    UpToSelf(g, b);
    assert UpTo(f, b) == UpTo(g, b);
    var below := UpTo(f, b) - {b};
    forall c | c in below ensures f[c] == g[c] {
      BoundOrderIsTotal();
      UpToBelow(f, c, b);
      CumulativeDetermines(f, g, c);
    }
    SumsAgree(f, g, below);
    assert Cumulative(f)[b] == (f[b] + SumOf(f, below)) % WORD;
    assert Cumulative(g)[b] == (g[b] + SumOf(f, below)) % WORD;
  }

  lemma UpToBelow(raw: Buckets, c: Bound, b: Bound)
    requires b in raw && c in raw && c != b && AtMost(c, b)
    ensures |UpTo(raw, c)| < |UpTo(raw, b)|
  {
    UpToWithin(raw, c, b);
    assert b in UpTo(raw, b) && b !in UpTo(raw, c);
    StrictlyFewer(UpTo(raw, c), UpTo(raw, b), b);
  }

  lemma {:induction false} Fewer(part: set<Bound>, whole: set<Bound>)
    requires part <= whole
    ensures |part| <= |whole|
  {
    if part != {} {
      var x :| x in part;
      Fewer(part - {x}, whole - {x});
    }
  }

  lemma StrictlyFewer(part: set<Bound>, whole: set<Bound>, x: Bound)
    requires part <= whole && x in whole && x !in part
    ensures |part| < |whole|
  {
    Fewer(part, whole - {x});
  }

  /** A histogram does not depend on the order in which its statistics are visited exactly if
      statistics of the same bucket have the same count. */
  lemma OrderMattersUnlessUnambiguous(start: Buckets, stats: Stats, classify: Classifier)
    ensures OrderIndependent(start, stats, classify) <==> Unambiguous(stats, classify)
  {
    hide Filled, Cumulative, Visits;
    if Unambiguous(stats, classify) {
      forall p, q |
        Visits(p, stats) && Visits(q, stats)
        && (forall name :: name in p ==> name in stats) && (forall name :: name in q ==> name in stats)
        ensures Cumulative(Filled(start, p, stats, classify)) == Cumulative(Filled(start, q, stats, classify))
      {
        UnambiguousFills(start, p, q, stats, classify);
      }
    }
    if OrderIndependent(start, stats, classify) {
      forall m, n | m in stats && n in stats && classify(m).Bucket? && classify(m) == classify(n)
        ensures stats[m] == stats[n]
      {
        var p := VisitEndingWith(start, m, stats, classify);
        var q := VisitEndingWith(start, n, stats, classify);
        var f, g := Filled(start, p, stats, classify), Filled(start, q, stats, classify);
        assert Cumulative(f) == Cumulative(g);
        CumulativeDetermines(f, g, classify(m).bound);
      }
    }
  }

  // Buckets as sums over the statistics

  ghost predicate DistinctBuckets(stats: Stats, classify: Classifier) {
    forall m, n :: m in stats && n in stats && classify(m).Bucket? && classify(m) == classify(n) ==> m == n
  }

  /** The statistics whose buckets are among the given ones. */
  ghost function NamesOf(stats: Stats, classify: Classifier, bounds: set<Bound>): set<string> {
    set name | name in stats && classify(name).Bucket? && classify(name).bound in bounds
  }

  lemma {:induction false} SumByName(start: Buckets, order: seq<string>, stats: Stats, classify: Classifier,
                                     bounds: set<Bound>)
    requires Visits(order, stats) && forall name :: name in order ==> name in stats
    requires DistinctBuckets(stats, classify) && forall b :: b in start ==> start[b] == 0
    requires bounds <= Filled(start, order, stats, classify).Keys
    ensures SumOf(Filled(start, order, stats, classify), bounds) == SumOf(stats, NamesOf(stats, classify, bounds))
    decreases |bounds|
  {
    hide Filled, SumOf, Visits, DistinctBuckets, NamesOf;
    var raw := Filled(start, order, stats, classify);
    if bounds == {} {
      NoNames(stats, classify);
      EmptySum(raw);
      EmptySum(stats);
    } else {
      var b :| b in bounds;
      SumWithout(raw, bounds, b);
      SumByName(start, order, stats, classify, bounds - {b});
      VisitedAll(order, stats);
      FilledValue(start, order, stats, classify, b);
      if name :| name in stats && classify(name) == Bucket(b) {
        OneName(stats, classify, bounds, name);
        CountOfOnly(raw, stats, classify, name);
      } else {
        NoName(stats, classify, bounds, b);
      }
    }
  }

  lemma NoNames(stats: Stats, classify: Classifier)
    ensures NamesOf(stats, classify, {}) == {}
  {
  }

  lemma OneName(stats: Stats, classify: Classifier, bounds: set<Bound>, name: string)
    requires DistinctBuckets(stats, classify)
    requires name in stats && classify(name).Bucket? && classify(name).bound in bounds
    ensures SumOf(stats, NamesOf(stats, classify, bounds))
         == stats[name] + SumOf(stats, NamesOf(stats, classify, bounds - {classify(name).bound}))
  {
    hide SumOf;
    var names := NamesOf(stats, classify, bounds);
    SumWithout(stats, names, name);
    assert NamesOf(stats, classify, bounds - {classify(name).bound}) == names - {name};
  }

  lemma NoName(stats: Stats, classify: Classifier, bounds: set<Bound>, b: Bound)
    requires forall name :: name in stats ==> classify(name) != Bucket(b)
    ensures NamesOf(stats, classify, bounds - {b}) == NamesOf(stats, classify, bounds)
  {
  }

  lemma CountOfOnly(raw: Buckets, stats: Stats, classify: Classifier, name: string)
    requires DistinctBuckets(stats, classify) && name in stats && classify(name).Bucket?
    requires var b := classify(name).bound;
      b in raw && exists n :: n in stats && classify(n) == Bucket(b) && stats[n] == raw[b]
    ensures raw[classify(name).bound] == stats[name]
  {
  }

  /** With distinct buckets and no overflow, each bucket is the sum of the counts of all statistics
      up to its bound, whatever the order of the visit. */
  lemma BucketsAreSums(count: Uint64, buckets: Buckets, start: Buckets, order: seq<string>, stats: Stats,
                       classify: Classifier)
    requires Visits(order, stats) && forall name :: name in order ==> name in stats
    requires IsHistogram(count, buckets, start, order, stats, classify)
    requires DistinctBuckets(stats, classify) && forall b :: b in start ==> start[b] == 0
    requires SumOf(stats, NamesOf(stats, classify, buckets.Keys)) < WORD
    ensures count == SumOf(stats, NamesOf(stats, classify, buckets.Keys))
    ensures forall b :: b in buckets ==> buckets[b] == SumOf(stats, NamesOf(stats, classify, UpTo(buckets, b)))
    ensures Growing(buckets)
  {
    hide Filled, SumOf, Visits, DistinctBuckets, Growing;
    var raw := Filled(start, order, stats, classify);
    SumByName(start, order, stats, classify, raw.Keys);
    GrowsUnlessWrapped(raw);
    forall b | b in buckets ensures buckets[b] == SumOf(stats, NamesOf(stats, classify, UpTo(buckets, b))) {
      SumByName(start, order, stats, classify, UpTo(raw, b));
      assert UpTo(raw, b) == UpTo(buckets, b);
    }
  }

  // Buckets in terms of the names of statistics

  /** The name is that of packets of at most a size. */
  ghost predicate CountsSizesUpTo(parseFloat: FloatParser, name: string, size: real) {
    exists lo, hi, max ::
      && '-' !in lo && '-' !in hi && !IsOpenEnded(hi) && name == lo + "-" + hi
      && parseFloat(hi) == Some(Finite(max)) && max <= size
  }

  /** The name is that of round trips of at most a time in seconds. */
  ghost predicate CountsTimesUpTo(parseFloat: FloatParser, name: string, time: real) {
    exists rtt, ms ::
      && !IsOpenEnded(rtt) && name == "QryRTT" + rtt
      && parseFloat(rtt) == Some(Finite(ms)) && ms <= time * 1000.0
  }

  lemma SizesUpTo(parseFloat: FloatParser, name: string, size: real)
    ensures CountsSizesUpTo(parseFloat, name, size)
       <==> TrafficStat(parseFloat, name).Bucket? && AtMost(TrafficStat(parseFloat, name).bound, Finite(size))
  {
    if CountsSizesUpTo(parseFloat, name, size) {
      var lo, hi, max :|
        && '-' !in lo && '-' !in hi && !IsOpenEnded(hi) && name == lo + "-" + hi
        && parseFloat(hi) == Some(Finite(max)) && max <= size;
      RangeStat(parseFloat, lo, hi);
    }
    if TrafficStat(parseFloat, name).Bucket? && AtMost(TrafficStat(parseFloat, name).bound, Finite(size)) {
      var parts := Split(name, '-');
      TwoParts(name);
      var lo, hi := parts[0], parts[1];
      assert name == lo + "-" + hi;
      assert IsOpenEnded(hi) ==> IsOpenEnded(name);
      var max := parseFloat(hi).value.value;
      assert parseFloat(hi) == Some(Finite(max)) && max <= size;
    }
  }

  lemma TimesUpTo(parseFloat: FloatParser, name: string, time: real)
    ensures CountsTimesUpTo(parseFloat, name, time)
       <==> RttStat(parseFloat, name).Bucket? && AtMost(RttStat(parseFloat, name).bound, Finite(time))
  {
    if CountsTimesUpTo(parseFloat, name, time) {
      var rtt, ms :|
        && !IsOpenEnded(rtt) && name == "QryRTT" + rtt
        && parseFloat(rtt) == Some(Finite(ms)) && ms <= time * 1000.0;
      TimeStat(parseFloat, rtt, name);
    }
    if RttStat(parseFloat, name).Bucket? && AtMost(RttStat(parseFloat, name).bound, Finite(time)) {
      var rtt := name[|QRY_RTT|..];
      assert name == "QryRTT" + rtt;
      assert IsOpenEnded(rtt) ==> IsOpenEnded(name);
      var ms := parseFloat(rtt).value.value;
      assert parseFloat(rtt) == Some(Finite(ms)) && ms <= time * 1000.0;
    }
  }

  /** The names whose buckets are up to a bound are those classified up to it. */
  lemma NamesUpTo(start: Buckets, order: seq<string>, stats: Stats, classify: Classifier, b: Bound)
    requires Visits(order, stats) && forall name :: name in order ==> name in stats
    ensures NamesOf(stats, classify, UpTo(Filled(start, order, stats, classify), b))
         == set name | name in stats && classify(name).Bucket? && AtMost(classify(name).bound, b)
  {
    hide Filled, AtMost, Visits;
    VisitedAll(order, stats);
    forall name | name in stats && classify(name).Bucket?
      ensures classify(name).bound in Filled(start, order, stats, classify)
    {
      FilledKeys(start, order, stats, classify, classify(name).bound);
    }
  }

  /** In a histogram of packet sizes, each bucket is the sum of the statistics of packets up to its
      size, and the open-ended one is the count. */
  lemma SizeBuckets(count: Uint64, buckets: Buckets, order: seq<string>, stats: Stats, parseFloat: FloatParser)
    requires Visits(order, stats) && forall name :: name in order ==> name in stats
    requires IsHistogram(count, buckets, map[Infinite := 0], order, stats, TrafficNames(parseFloat))
    requires DistinctBuckets(stats, TrafficNames(parseFloat))
    requires SumOf(stats, NamesOf(stats, TrafficNames(parseFloat), buckets.Keys)) < WORD
    ensures forall size :: Finite(size) in buckets ==>
      buckets[Finite(size)] == SumOf(stats, set name | name in stats && CountsSizesUpTo(parseFloat, name, size))
    ensures Infinite in buckets && buckets[Infinite] == count
  {
    hide Filled, SumOf, Visits, DistinctBuckets, Cumulative, Total, NamesOf, AtMost, UpTo, TrafficStat, CountsSizesUpTo;
    var classify, start := TrafficNames(parseFloat), map[Infinite := 0];
    BucketsAreSums(count, buckets, start, order, stats, classify);
    CountIsInfiniteBucket(count, buckets, start, order, stats, classify);
    forall size | Finite(size) in buckets
      ensures buckets[Finite(size)] == SumOf(stats, set name | name in stats && CountsSizesUpTo(parseFloat, name, size))
    {
      NamesUpTo(start, order, stats, classify, Finite(size));
      SameUpTo(Filled(start, order, stats, classify), buckets, Finite(size));
      forall name ensures CountsSizesUpTo(parseFloat, name, size)
         <==> classify(name).Bucket? && AtMost(classify(name).bound, Finite(size)) {
        SizesUpTo(parseFloat, name, size);
      }
      assert (set name | name in stats && CountsSizesUpTo(parseFloat, name, size))
          == set name | name in stats && classify(name).Bucket? && AtMost(classify(name).bound, Finite(size));
    }
  }

  /** In a histogram of round trip times, each bucket is the sum of the statistics of round trips up
      to its time. */
  lemma TimeBuckets(count: Uint64, buckets: Buckets, order: seq<string>, stats: Stats, parseFloat: FloatParser)
    requires Visits(order, stats) && forall name :: name in order ==> name in stats
    requires IsHistogram(count, buckets, map[], order, stats, RttNames(parseFloat))
    requires DistinctBuckets(stats, RttNames(parseFloat))
    requires SumOf(stats, NamesOf(stats, RttNames(parseFloat), buckets.Keys)) < WORD
    ensures forall time :: Finite(time) in buckets ==>
      buckets[Finite(time)] == SumOf(stats, set name | name in stats && CountsTimesUpTo(parseFloat, name, time))
  {
    hide Filled, SumOf, Visits, DistinctBuckets, Cumulative, Total, NamesOf, AtMost, UpTo, RttStat, CountsTimesUpTo;
    var classify, start := RttNames(parseFloat), map[];
    BucketsAreSums(count, buckets, start, order, stats, classify);
    forall time | Finite(time) in buckets
      ensures buckets[Finite(time)] == SumOf(stats, set name | name in stats && CountsTimesUpTo(parseFloat, name, time))
    {
      NamesUpTo(start, order, stats, classify, Finite(time));
      SameUpTo(Filled(start, order, stats, classify), buckets, Finite(time));
      forall name ensures CountsTimesUpTo(parseFloat, name, time)
         <==> classify(name).Bucket? && AtMost(classify(name).bound, Finite(time)) {
        TimesUpTo(parseFloat, name, time);
      }
      assert (set name | name in stats && CountsTimesUpTo(parseFloat, name, time))
          == set name | name in stats && classify(name).Bucket? && AtMost(classify(name).bound, Finite(time));
    }
  }

  lemma SameUpTo(a: Buckets, b: Buckets, bound: Bound)
    requires a.Keys == b.Keys
    ensures UpTo(a, bound) == UpTo(b, bound)
  {
  }
}
