/** A counter that switches to an unbounded representation on demand (util/bigcounter.go). */
module BigCounters {
  import opened Wrappers

  const MAX_UINT64 := 0xFFFF_FFFF_FFFF_FFFF
  const MAX_INT64 := 0x7FFF_FFFF_FFFF_FFFF

  type Uint64 = n: int | 0 <= n <= MAX_UINT64

  /** Addition of machine words wraps around. */
  function WrappedSum(a: Uint64, b: Uint64): Uint64 {
    (a + b) % (MAX_UINT64 + 1)
  }

  predicate IsUint64(n: int) {
    0 <= n <= MAX_UINT64
  }

  class BigCounter {
    var base: Uint64
    var extended: Option<int>

    /** The extended form is in use exactly for values that do not fit the base, which is then
        saturated. */
    ghost predicate Valid()
      reads this
    {
      extended.Some? ==> base == MAX_UINT64 && extended.value > MAX_UINT64
    }

    ghost function Value(): int
      reads this
    {
      if extended.Some? then extended.value else base
    }

    constructor (val: Uint64)
      ensures Valid() && Value() == val
    {
      base, extended := val, None;
    }

    constructor Extended(val: int)
      ensures base == MAX_UINT64 && extended == Some(val)
    {
      base, extended := MAX_UINT64, Some(val);
    }

    predicate CanAddToBase(val: Uint64)
      reads this
    {
      base <= MAX_UINT64 - val
    }

    predicate CanAdd(other: BigCounter)
      reads this, other
    {
      if extended.Some? then true
      else if other.extended.Some? then false
      else CanAddToBase(other.base)
    }

    method InitExtended()
      modifies this
      ensures extended == Some(old(base)) && base == MAX_UINT64
    {
      extended := Some(base);
      base := MAX_UINT64;
    }

    /** The other counter may be this one. */
    method Add(other: BigCounter)
      requires Valid() && other.Valid()
      modifies this
      ensures Valid() && Value() == old(Value()) + old(other.Value())
    {
      if !CanAdd(other) {
        InitExtended();
      }
      if extended.Some? {
        var n := other.ToBigInt();
        extended := Some(extended.value + n);
      } else {
        base := WrappedSum(base, other.base);
      }
    }

    method AddUint64(val: Uint64)
      requires Valid()
      modifies this
      ensures Valid() && Value() == old(Value()) + val
    {
      if extended.None? && !CanAddToBase(val) {
        InitExtended();
      }
      if extended.Some? {
        extended := Some(extended.value + val);
      } else {
        base := WrappedSum(base, val);
      }
    }

    /** Negative numbers are refused and change nothing. */
    method AddBigInt(val: int) returns (ok: bool)
      requires Valid()
      modifies this
      ensures Valid() && ok == (val >= 0)
      ensures Value() == old(Value()) + if val >= 0 then val else 0
      ensures !ok ==> base == old(base) && extended == old(extended)
    {
      if IsUint64(val) {
        AddUint64(val);
        return true;
      }
      if val < 0 {
        return false;
      }
      if extended.None? {
        InitExtended();
      }
      extended := Some(extended.value + val);
      return true;
    }

    /** The value, or the greatest signed number if the value exceeds it. */
    method ToInt64() returns (n: int)
      requires Valid()
      ensures n == if Value() < 0x8000_0000_0000_0000 then Value() else 0x7FFF_FFFF_FFFF_FFFF
    {
      if base >= MAX_INT64 {
        return MAX_INT64;
      }
      return base;
    }

    /** The value clamped to the range of machine words, and whether that is exact. This holds
        of every counter, valid or not. */
    method ToUint64() returns (n: Uint64, exact: bool)
      ensures exact <==> IsUint64(Value())
      ensures n == if Value() < 0 then 0 else if Value() > MAX_UINT64 then MAX_UINT64 else Value()
    {
      if extended.Some? {
        if IsUint64(extended.value) {
          return extended.value, true;
        }
        if extended.value < 0 {
          return 0, false;
        }
        return MAX_UINT64, false;
      }
      return base, true;
    }

    method ToBigInt() returns (n: int)
      ensures n == Value()
    {
      return if extended.Some? then extended.value else base;
    }
  }

  method NewBigCounterFromInt64(val: int) returns (c: BigCounter?)
    requires -MAX_INT64 - 1 <= val <= MAX_INT64
    ensures c == null <==> val < 0
    ensures c != null ==> fresh(c) && c.Valid() && c.Value() == val
  {
    if val < 0 {
      return null;
    }
    c := new BigCounter(val);
  }

  method NewBigCounterFromBigInt(val: int) returns (c: BigCounter?)
    ensures c == null <==> val < 0
    ensures c != null ==> fresh(c) && c.Valid() && c.Value() == val
  {
    if IsUint64(val) {
      c := new BigCounter(val);
      return;
    }
    if val < 0 {
      return null;
    }
    c := new BigCounter.Extended(val);
  }

  // Any sequence of additions among any number of counters

  datatype Addition =
    | OfCounter(target: nat, source: nat)
    | OfUint64(target: nat, n: Uint64)
    | OfBigInt(target: nat, i: int)
  {
    predicate Within(count: nat) {
      target < count && (OfCounter? ==> source < count)
    }

    /** What is added, given the values of all counters. */
    function Amount(values: seq<int>): int
      requires Within(|values|)
    {
      match this
      case OfCounter(_, source) => values[source]
      case OfUint64(_, n) => n
      case OfBigInt(_, i) => if i >= 0 then i else 0
    }
  }

  function Added(values: seq<int>, addition: Addition): (sums: seq<int>)
    requires addition.Within(|values|)
  {
    values[addition.target := values[addition.target] + addition.Amount(values)]
  }

  function Sums(values: seq<int>, additions: seq<Addition>): (sums: seq<int>)
    requires AllWithin(additions, |values|)
    ensures |sums| == |values|
    decreases |additions|
  {
    if additions == [] then values
    else Added(Sums(values, additions[..|additions| - 1]), additions[|additions| - 1])
  }

  predicate AllWithin(additions: seq<Addition>, count: nat) {
    forall i :: 0 <= i < |additions| ==> additions[i].Within(count)
  }

  ghost function Values(counters: seq<BigCounter>): (values: seq<int>)
    reads set c | c in counters
    ensures |values| == |counters| && forall i :: 0 <= i < |counters| ==> values[i] == counters[i].Value()
  {
    seq(|counters|, i requires 0 <= i < |counters| reads set c | c in counters => counters[i].Value())
  }

  ghost predicate Sound(counters: seq<BigCounter>)
    reads set c | c in counters
  {
    forall i :: 0 <= i < |counters| ==> counters[i].Valid()
  }

  /** Adds to the counter at the target, which may be the one that is added. */
  method AddTo(c: BigCounter, addition: Addition, counters: seq<BigCounter>)
    requires Sound(counters) && addition.Within(|counters|) && c == counters[addition.target]
    modifies c
    ensures c.Valid() && c.Value() == old(c.Value() + addition.Amount(Values(counters)))
  {
    hide BigCounter.Valid, BigCounter.Value;
    ghost var values := Values(counters);
    match addition {
      case OfCounter(_, source) => c.Add(counters[source]);
      case OfUint64(_, n) => c.AddUint64(n);
      case OfBigInt(_, i) => var _ := c.AddBigInt(i);
    }
  }

  /** Adding to one counter leaves the values of the others alone. */
  method Perform(counters: seq<BigCounter>, addition: Addition)
    requires forall i, j :: 0 <= i < j < |counters| ==> counters[i] != counters[j]
    requires Sound(counters) && addition.Within(|counters|)
    modifies set c | c in counters
    ensures Sound(counters)
    ensures Values(counters) == Added(old(Values(counters)), addition)
  {
    hide BigCounter.Valid, BigCounter.Value, Addition.Amount;
    var c := counters[addition.target];
    AddTo(c, addition, counters);
    forall i | 0 <= i < |counters| && i != addition.target
      ensures counters[i].Valid() && counters[i].Value() == old(counters[i].Value())
    {
      assert counters[i] != c;
    }
  }

  /** After any additions, counters added to themselves included, every counter holds the
      mathematical sum, in the form that its size calls for. */
  method Accumulate(counters: seq<BigCounter>, additions: seq<Addition>)
    requires forall i, j :: 0 <= i < j < |counters| ==> counters[i] != counters[j]
    requires Sound(counters) && AllWithin(additions, |counters|)
    modifies set c | c in counters
    ensures Sound(counters)
    ensures Values(counters) == Sums(old(Values(counters)), additions)
  {
    ghost var start := Values(counters);
    for k := 0 to |additions|
      invariant Sound(counters)
      invariant Values(counters) == Sums(start, additions[..k])
    {
      hide Values, Sound, Added;
      Perform(counters, additions[k]);
      assert additions[..k + 1][..k] == additions[..k];
    }
    assert additions[..|additions|] == additions;
  }

  // What becomes of single contributions

  /** What comes from outside in one addition, negative numbers ignored. */
  function Input(addition: Addition): int {
    match addition
    case OfUint64(_, n) => n
    case OfBigInt(_, i) => if i >= 0 then i else 0
    case OfCounter(_, _) => 0
  }

  /** How many times what one counter holds is contained in another after the additions: once
      for each chain of additions that leads from one to the other. */
  function Flow(additions: seq<Addition>, from: nat, to: nat): nat {
    if additions == [] then (if from == to then 1 else 0)
    else
      Flow(additions[1..], from, to)
      + if additions[0].OfCounter? && additions[0].source == from
        then Flow(additions[1..], additions[0].target, to) else 0
  }

  function Flows(additions: seq<Addition>, count: nat, to: nat): (flows: seq<int>)
    ensures |flows| == count && forall i :: 0 <= i < count ==> flows[i] == Flow(additions, i, to)
  {
    seq(count, i requires 0 <= i < count => Flow(additions, i, to))
  }

  function Dot(v: seq<int>, w: seq<int>): int
    requires |v| == |w|
  {
    if v == [] then 0 else v[0] * w[0] + Dot(v[1..], w[1..])
  }

  /** Each input, as often as it is contained in the counter. */
  function InputShare(additions: seq<Addition>, to: nat): int {
    if additions == [] then 0
    else Input(additions[0]) * Flow(additions[1..], additions[0].target, to) + InputShare(additions[1..], to)
  }

  lemma Distribute(a: int, b: int, c: int)
    ensures (a + b) * c == a * c + b * c && c * (a + b) == c * a + c * b
  {
  }

  lemma {:induction false} DotUpdate(v: seq<int>, w: seq<int>, t: nat, x: int)
    requires t < |v| == |w|
    ensures Dot(v[t := v[t] + x], w) == Dot(v, w) + x * w[t]
    ensures Dot(v, w[t := w[t] + x]) == Dot(v, w) + v[t] * x
  {
    var v', w' := v[t := v[t] + x], w[t := w[t] + x];
    if t == 0 {
      assert v'[1..] == v[1..] && w'[1..] == w[1..];
      Distribute(v[0], x, w[0]);
      Distribute(w[0], x, v[0]);
    } else {
      DotUpdate(v[1..], w[1..], t - 1, x);
      assert v'[1..] == v[1..][t - 1 := v[t] + x] && w'[1..] == w[1..][t - 1 := w[t] + x];
    }
  }

  lemma FlowsStep(additions: seq<Addition>, count: nat, to: nat)
    requires additions != [] && additions[0].Within(count)
    ensures var a, rest := additions[0], Flows(additions[1..], count, to);
      Flows(additions, count, to)
      == if a.OfCounter? then rest[a.source := rest[a.source] + rest[a.target]] else rest
  {
  }

  lemma {:induction false} SumsFromFirst(values: seq<int>, additions: seq<Addition>)
    requires additions != [] && AllWithin(additions, |values|)
    ensures Sums(values, additions) == Sums(Added(values, additions[0]), additions[1..])
    decreases |additions|
  {
    hide Added;
    if |additions| == 1 {
      assert additions[..0] == [] && additions[1..] == [];
      assert Sums(values, []) == values;
    } else {
      var front := additions[..|additions| - 1];
      SumsFromFirst(values, front);
      assert additions[1..][..|additions| - 2] == front[1..];
    }
  }

  /** The first addition moves what is added to where it is added. */
  lemma FirstAddition(values: seq<int>, additions: seq<Addition>, to: nat)
    requires additions != [] && additions[0].Within(|values|)
    ensures var a, rest := additions[0], additions[1..];
      Dot(Added(values, a), Flows(rest, |values|, to))
      == Dot(values, Flows(additions, |values|, to)) + Input(a) * Flow(rest, a.target, to)
  {
    hide Flow, Dot;
    var a, flows := additions[0], Flows(additions[1..], |values|, to);
    FlowsStep(additions, |values|, to);
    DotUpdate(values, flows, a.target, a.Amount(values));
    if a.OfCounter? {
      DotUpdate(values, flows, a.source, flows[a.target]);
    }
  }

  /** After any additions each counter holds the linear combination of what the counters held
      and of the inputs in which everything counts once for each chain of additions that brings
      it there; adding a counter to itself doubles the chains. */
  lemma {:induction false} LinearCombination(values: seq<int>, additions: seq<Addition>, to: nat)
    requires to < |values| && AllWithin(additions, |values|)
    ensures Sums(values, additions)[to] == Dot(values, Flows(additions, |values|, to)) + InputShare(additions, to)
    decreases |additions|
  {
    hide Dot, Flow, Flows, Added;
    if additions == [] {
      UnitDot(values, to);
    } else {
      SumsFromFirst(values, additions);
      LinearCombination(Added(values, additions[0]), additions[1..], to);
      FirstAddition(values, additions, to);
    }
  }

  lemma UnitDot(values: seq<int>, to: nat)
    requires to < |values|
    ensures Dot(values, Flows([], |values|, to)) == values[to]
  {
    var zeros := seq(|values|, i => 0);
    ZeroDot(values, zeros);
    DotUpdate(values, zeros, to, 1);
    assert Flows([], |values|, to) == zeros[to := 1];
  }

  lemma {:induction false} ZeroDot(v: seq<int>, w: seq<int>)
    requires |v| == |w| && forall i :: 0 <= i < |w| ==> w[i] == 0
    ensures Dot(v, w) == 0
  {
    if v != [] {
      ZeroDot(v[1..], w[1..]);
    }
  }

  /** Adding a counter to itself any number of times multiplies it by a power of two. */
  lemma {:induction false} SelfAdditionsDouble(c: nat, times: nat)
    ensures Flow(seq(times, i => OfCounter(c, c)), c, c) == PowerOfTwo(times)
  {
    var additions := seq(times, i => OfCounter(c, c));
    if times > 0 {
      SelfAdditionsDouble(c, times - 1);
      assert additions[1..] == seq(times - 1, i => OfCounter(c, c));
    }
  }

  function PowerOfTwo(n: nat): nat {
    if n == 0 then 1 else 2 * PowerOfTwo(n - 1)
  }

  /** The value decides the form: the counter cannot tell by which additions it came about. */
  lemma FormIsCanonical(a: BigCounter, b: BigCounter)
    requires a.Valid() && b.Valid() && a.Value() == b.Value()
    ensures a.base == b.base && a.extended == b.extended
    ensures a.extended.Some? <==> a.Value() >= 0x1_0000_0000_0000_0000
  {
  }
}
