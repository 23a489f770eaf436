/** Addresses, prefixes and the blocks of addresses they stand for (util/cidr.go). */
module IpPrefixes {

  /** Addresses are sequences of bits, the most significant first. */
  type Bits = seq<bool>

  function Repeat(b: bool, n: nat): (r: Bits)
    ensures |r| == n && forall i :: 0 <= i < n ==> r[i] == b
  {
    seq(n, i => b)
  }

  function Mask(a: Bits, n: nat): (r: Bits)
    requires n <= |a|
    ensures |r| == |a| && r[..n] == a[..n]
    ensures forall i :: n <= i < |a| ==> !r[i]
  {
    a[..n] + Repeat(false, |a| - n)
  }

  // The first 96 bits of an IPv4 address written as an IPv6 address.
  function MappedPrefix(): (r: Bits)
    ensures |r| == 96 && forall i :: 0 <= i < 96 ==> (r[i] <==> i >= 80)
  {
    Repeat(false, 80) + Repeat(true, 16)
  }

  predicate IsMapped(ip: Bits) {
    |ip| == 128 && ip[..96] == MappedPrefix()
  }

  /** How an address or a prefix is written. */
  datatype Notation =
    | Address4(bits: Bits)
    | Address6(bits: Bits)
    | Prefix4(bits: Bits, length: nat)
    | Prefix6(bits: Bits, length: nat)
  {
    predicate Valid() {
      match this
      case Address4(b) => |b| == 32
      case Address6(b) => |b| == 128
      case Prefix4(b, n) => |b| == 32 && n <= 32
      case Prefix6(b, n) => |b| == 128 && n <= 128
    }
  }

  datatype Protocol = IPv4 | IPv6

  /** Parsed information; addresses are in their 128 bit form. */
  datatype ParsedIP = ParsedIP(
    protocol: Protocol, ip: Bits, networkPrefix: Bits, prefixLength: nat, prefix: bool, cidr: bool)

  function To16(bits: Bits): Bits {
    if |bits| == 32 then MappedPrefix() + bits else bits
  }

  function IsPrefixNotation(n: Notation): bool {
    n.Prefix4? || n.Prefix6?
  }

  /** What parsing gives. A prefix of full length counts as an address, and a prefix length
      of zero becomes the full length of the detected protocol. */
  function Parsed(n: Notation): (p: ParsedIP)
    requires n.Valid()
    ensures |p.ip| == |p.networkPrefix| == 128 && p.prefixLength <= 128
  {
    var ip := To16(n.bits);
    var protocol := if IsMapped(ip) then IPv4 else IPv6;
    var full := if protocol.IPv4? then 32 else 128;
    if IsPrefixNotation(n) && n.length != |n.bits|
    then ParsedIP(protocol, ip, To16(Mask(n.bits, n.length)), if n.length == 0 then full else n.length, true, true)
    else ParsedIP(protocol, ip, ip, full, false, IsPrefixNotation(n))
  }

  method ParseIP(n: Notation) returns (parsed: ParsedIP)
    requires n.Valid()
    ensures parsed == Parsed(n)
  {
    parsed := ParsedIP(IPv6, To16(n.bits), [], 0, false, false);
    if IsPrefixNotation(n) {
      if n.length != |n.bits| {
        parsed := parsed.(networkPrefix := To16(Mask(n.bits, n.length)), prefixLength := n.length, prefix := true);
      }
      parsed := parsed.(cidr := true);
    }
    if !parsed.prefix {
      parsed := parsed.(networkPrefix := parsed.ip);
    }
    if IsMapped(parsed.ip) {
      if parsed.prefixLength == 0 {
        parsed := parsed.(prefixLength := 32);
      }
      parsed := parsed.(protocol := IPv4);
    } else {
      if parsed.prefixLength == 0 {
        parsed := parsed.(prefixLength := 128);
      }
      parsed := parsed.(protocol := IPv6);
    }
  }

  /** The network prefix as a string of binary digits; empty if the length is invalid. */
  function PrefixBinary(p: ParsedIP): Bits
    requires |p.networkPrefix| == 128
  {
    var length := p.prefixLength + if p.protocol.IPv4? then 96 else 0;
    if p.prefixLength == 0 || 128 < length then [] else p.networkPrefix[..length]
  }

  /** Joins the digits of the sixteen bytes and cuts them off at the prefix length. */
  method GetNetworkPrefixAsBinary(p: ParsedIP) returns (binary: Bits)
    requires |p.networkPrefix| == 128
    ensures binary == PrefixBinary(p)
  {
    var length := p.prefixLength;
    if length == 0 {
      return [];
    }
    if p.protocol.IPv4? {
      length := length + 12 * 8;
    }
    var digits: Bits := [];
    for i := 0 to 16
      invariant digits == p.networkPrefix[..8 * i]
    {
      digits := digits + p.networkPrefix[8 * i..8 * i + 8];
    }
    assert digits == p.networkPrefix;
    if |digits| < length {
      return [];
    }
    return digits[..length];
  }

  // Blocks of addresses

  /** The leading bits shared by the addresses that are written; an IPv4 address stands for
      its 128 bit form. */
  function BlockBits(n: Notation): Bits
    requires n.Valid()
  {
    match n
    case Address4(b) => MappedPrefix() + b
    case Address6(b) => b
    case Prefix4(b, len) => MappedPrefix() + b[..len]
    case Prefix6(b, len) => b[..len]
  }

  predicate InBlock(a: Bits, n: Notation)
    requires n.Valid()
  {
    |a| == 128 && BlockBits(n) <= a
  }

  /** A length of at least one, and no proper prefix of mapped IPv4 addresses written as IPv6. */
  predicate Faithful(n: Notation)
    requires n.Valid()
  {
    && (IsPrefixNotation(n) ==> n.length > 0)
    && (n.Prefix6? && n.length < 128 ==> !IsMapped(n.bits))
  }

  /** The binary string is that of the block exactly for those notations. */
  lemma BinaryIsBlock(n: Notation)
    requires n.Valid()
    ensures PrefixBinary(Parsed(n)) == BlockBits(n) <==> Faithful(n)
  {
    var p := Parsed(n);
    if n.Address4? || n.Prefix4? {
      assert To16(n.bits)[..96] == MappedPrefix();
      assert n.Prefix4? ==> p.networkPrefix[..96 + n.length] == MappedPrefix() + n.bits[..n.length] by {
        if n.Prefix4? && n.length < 32 {
          assert Mask(n.bits, n.length)[..n.length] == n.bits[..n.length];
        }
      }
      assert (MappedPrefix() + n.bits)[..128] == MappedPrefix() + n.bits;
    } else {
      assert n.bits[..128] == n.bits;
    }
  }

  /** One block contains another exactly when its binary string begins the other's. */
  lemma CoverIsPrefix(n: Notation, m: Notation)
    requires n.Valid() && m.Valid() && Faithful(n) && Faithful(m)
    ensures (forall a :: InBlock(a, m) ==> InBlock(a, n))
       <==> PrefixBinary(Parsed(n)) <= PrefixBinary(Parsed(m))
  {
    hide Parsed, PrefixBinary;
    BinaryIsBlock(n);
    BinaryIsBlock(m);
    var x, y := BlockBits(n), BlockBits(m);
    if forall a :: InBlock(a, m) ==> InBlock(a, n) {
      var low := y + Repeat(false, 128 - |y|);
      var high := y + Repeat(true, 128 - |y|);
      assert InBlock(low, m) && InBlock(high, m);
      assert InBlock(low, n) && InBlock(high, n);
      assert |y| < 128 ==> low[|y|] != high[|y|];
      assert |x| <= |y|;
      assert x == low[..|x|] == y[..|x|];
    }
  }

  /** Different blocks have different binary strings. */
  lemma BinaryIsInjective(n: Notation, m: Notation)
    requires n.Valid() && m.Valid() && Faithful(n) && Faithful(m)
    ensures PrefixBinary(Parsed(n)) == PrefixBinary(Parsed(m))
       <==> forall a :: InBlock(a, n) <==> InBlock(a, m)
  {
    hide Parsed, PrefixBinary, InBlock;
    CoverIsPrefix(n, m);
    CoverIsPrefix(m, n);
  }

  /** A short prefix of mapped addresses shares its binary string with another block. */
  lemma MappedPrefixCollides(b: Bits, length: nat)
    requires IsMapped(b) && 1 <= length <= 32
    ensures var n, m := Prefix6(b, length), Prefix6(Repeat(false, 128), 96 + length);
      Faithful(m) && PrefixBinary(Parsed(n)) == PrefixBinary(Parsed(m)) && BlockBits(n) != BlockBits(m)
  {
    var zeros := Repeat(false, 128);
    assert !IsMapped(zeros) by {
      assert MappedPrefix()[90] && !zeros[..96][90];
    }
    assert b[..length] == MappedPrefix()[..length] == Repeat(false, length);
    assert Mask(b, length) == zeros == Mask(zeros, 96 + length);
  }

  // Delegated prefixes

  /** Whether a parsed prefix belongs to the prefixes of length `delegatedLen` delegated from
      the given prefix. A prefix length above 128 is not valid and has no members. */
  predicate IsInPrefixRange(p: ParsedIP, prefix: Bits, prefixLen: nat, delegatedLen: nat)
    requires |p.ip| == |prefix| == 128
  {
    && p.prefix && prefixLen <= p.prefixLength && delegatedLen == p.prefixLength
    && prefixLen <= 128
    && Mask(p.ip, prefixLen) == Mask(prefix, prefixLen)
  }

  function Pow2(n: nat): nat {
    if n == 0 then 1 else 2 * Pow2(n - 1)
  }

  function CalculateDelegatedPrefixRangeSize(prefixLen: nat, delegatedLen: nat): nat {
    if delegatedLen < prefixLen then 0 else Pow2(delegatedLen - prefixLen)
  }

  /** All bit strings of a given length. */
  ghost function AllBits(n: nat): set<Bits> {
    if n == 0 then {[]}
    else Surround([false], AllBits(n - 1), []) + Surround([true], AllBits(n - 1), [])
  }

  /** The bit strings of a set, each between the same two. */
  ghost function Surround(before: Bits, s: set<Bits>, after: Bits): set<Bits> {
    set x | x in s :: before + x + after
  }

  lemma InSurround(before: Bits, s: set<Bits>, after: Bits, a: Bits)
    requires |a| >= |before| + |after|
    ensures a in Surround(before, s, after)
       <==> a == before + a[|before|..|a| - |after|] + after && a[|before|..|a| - |after|] in s
  {
    forall x | x in s && a == before + x + after ensures a[|before|..|a| - |after|] == x {
    }
  }

  lemma {:induction false} AllBitsMeaning(n: nat, a: Bits)
    ensures a in AllBits(n) <==> |a| == n
  {
    if n > 0 {
      if a in AllBits(n) {
        var d := a in Surround([true], AllBits(n - 1), []);
        var x :| x in AllBits(n - 1) && a == [d] + x + [];
        AllBitsMeaning(n - 1, x);
      }
      if |a| == n {
        AllBitsMeaning(n - 1, a[1..]);
        InSurround([a[0]], AllBits(n - 1), [], a);
        assert a[1..n] == a[1..] && a == [a[0]] + a[1..] + [];
        assert [a[0]] == if a[0] then [true] else [false];
      }
    }
  }

  lemma {:induction false} SurroundSize(before: Bits, s: set<Bits>, after: Bits)
    ensures |Surround(before, s, after)| == |s|
    decreases s
  {
    if s != {} {
      var x :| x in s;
      var a := before + x + after;
      SurroundSize(before, s - {x}, after);
      InSurround(before, s - {x}, after, a);
      assert a[|before|..|a| - |after|] == x;
      assert Surround(before, s, after) == Surround(before, s - {x}, after) + {a};
    }
  }

  lemma FirstBitApart(s: set<Bits>)
    ensures Surround([false], s, []) !! Surround([true], s, [])
  {
    forall a | a in Surround([false], s, []) ensures a !in Surround([true], s, []) {
      assert !a[0];
      assert forall b :: b in Surround([true], s, []) ==> b[0];
    }
  }

  lemma {:induction false} AllBitsSize(n: nat)
    ensures |AllBits(n)| == Pow2(n)
  {
    hide Surround;
    if n > 0 {
      AllBitsSize(n - 1);
      SurroundSize([false], AllBits(n - 1), []);
      SurroundSize([true], AllBits(n - 1), []);
      FirstBitApart(AllBits(n - 1));
    }
  }

  /** The canonical IPv6 prefixes of length `delegatedLen`, their host bits zero, that belong
      to the range. */
  ghost function Delegated(prefix: Bits, prefixLen: nat, delegatedLen: nat): set<Bits>
    requires |prefix| == 128 && delegatedLen <= 128
  {
    set b | b in AllBits(|prefix|) && IsDelegated(b, prefix, prefixLen, delegatedLen)
  }

  predicate IsDelegated(b: Bits, prefix: Bits, prefixLen: nat, delegatedLen: nat)
    requires |prefix| == 128 && delegatedLen <= 128
  {
    && |b| == 128 && Mask(b, delegatedLen) == b
    && IsInPrefixRange(Parsed(Prefix6(b, delegatedLen)), prefix, prefixLen, delegatedLen)
  }

  lemma MaskedParts(b: Bits, d: nat)
    requires d <= |b|
    ensures Mask(b, d) == b <==> b[d..] == Repeat(false, |b| - d)
  {
    assert b == b[..d] + b[d..];
  }

  lemma SameMask(a: Bits, b: Bits, p: nat)
    requires |a| == |b| && p <= |a|
    ensures Mask(a, p) == Mask(b, p) <==> a[..p] == b[..p]
  {
  }

  lemma DelegatedParts(b: Bits, prefix: Bits, p: nat, d: nat)
    requires |b| == |prefix| == 128 && p <= d && 1 <= d <= 127
    ensures IsDelegated(b, prefix, p, d) <==> b[..p] == prefix[..p] && b[d..] == Repeat(false, 128 - d)
  {
    MaskedParts(b, d);
    SameMask(b, prefix, p);
  }

  lemma NotDelegated(b: Bits, prefix: Bits, p: nat, d: nat)
    requires |b| == |prefix| == 128 && d <= 128 && (d < p || d == 0 || d == 128)
    ensures !IsDelegated(b, prefix, p, d)
  {
  }

  lemma DelegatedFormula(prefix: Bits, p: nat, d: nat)
    requires |prefix| == 128 && p <= d && 1 <= d <= 127
    ensures Delegated(prefix, p, d) == Surround(prefix[..p], AllBits(d - p), Repeat(false, |prefix| - d))
  {
    hide IsDelegated, AllBits, Surround;
    var before, after := prefix[..p], Repeat(false, |prefix| - d);
    var r := Surround(before, AllBits(d - p), after);
    forall b ensures b in Delegated(prefix, p, d) <==> b in r {
      AllBitsMeaning(|prefix|, b);
      if |b| == |prefix| {
        DelegatedParts(b, prefix, p, d);
        AllBitsMeaning(d - p, b[p..d]);
        InSurround(before, AllBits(d - p), after, b);
        assert b == b[..p] + b[p..d] + b[d..];
        assert (before + b[p..d] + after)[d..] == after;
        assert (before + b[p..d] + after)[..p] == before;
      } else if b in r {
        SurroundLength(before, d - p, after, b);
      }
    }
  }

  lemma SurroundLength(before: Bits, n: nat, after: Bits, a: Bits)
    requires a in Surround(before, AllBits(n), after)
    ensures |a| == |before| + n + |after|
  {
    var x :| x in AllBits(n) && a == before + x + after;
    AllBitsMeaning(n, x);
  }

  /** The calculated size is the number of prefixes that are accepted, exactly when the
      delegated length is below the prefix length or neither zero nor full. */
  lemma DelegatedSize(prefix: Bits, prefixLen: nat, delegatedLen: nat)
    requires |prefix| == 128 && prefixLen <= 128 && delegatedLen <= 128
    ensures |Delegated(prefix, prefixLen, delegatedLen)| == CalculateDelegatedPrefixRangeSize(prefixLen, delegatedLen)
       <==> delegatedLen < prefixLen || 1 <= delegatedLen <= 127
  {
    hide IsDelegated, AllBits, Surround, Delegated;
    if prefixLen <= delegatedLen && 1 <= delegatedLen <= 127 {
      DelegatedFormula(prefix, prefixLen, delegatedLen);
      SurroundSize(prefix[..prefixLen], AllBits(delegatedLen - prefixLen), Repeat(false, |prefix| - delegatedLen));
      AllBitsSize(delegatedLen - prefixLen);
    } else {
      NoneDelegated(prefix, prefixLen, delegatedLen);
      if prefixLen <= delegatedLen {
        Pow2Positive(delegatedLen - prefixLen);
      }
    }
  }

  /** The length that parsing gives to a prefix. */
  function EffectiveLength(n: Notation): nat
    requires n.Valid() && IsPrefixNotation(n)
  {
    if n.length > 0 then n.length
    else if n.Prefix4? || IsMapped(n.bits) then 32
    else 128
  }

  /** Which notations belong to a range: prefixes that are not of full length, whose length after
      parsing is the delegated one, and that share the leading bits of the range. */
  lemma AcceptedNotations(n: Notation, prefix: Bits, prefixLen: nat, delegatedLen: nat)
    requires n.Valid() && |prefix| == 128
    ensures IsInPrefixRange(Parsed(n), prefix, prefixLen, delegatedLen)
       <==> && IsPrefixNotation(n) && n.length < |n.bits|
            && prefixLen <= delegatedLen == EffectiveLength(n) && To16(n.bits)[..prefixLen] == prefix[..prefixLen]
  {
    if IsPrefixNotation(n) {
      assert n.Prefix4? ==> To16(n.bits)[..96] == MappedPrefix();
      if prefixLen <= 128 {
        SameMask(To16(n.bits), prefix, prefixLen);
      }
    }
  }

  /** At the full delegated length exactly IPv6 notations with length zero are accepted, for which
      parsing makes up the full length; prefixes that are written with it are addresses. */
  lemma AcceptedAtFullLength(n: Notation, prefix: Bits, prefixLen: nat)
    requires n.Valid() && |prefix| == 128
    ensures IsInPrefixRange(Parsed(n), prefix, prefixLen, 128)
       <==> && n.Prefix6? && n.length == 0 && !IsMapped(n.bits)
            && prefixLen <= 128 && n.bits[..prefixLen] == prefix[..prefixLen]
  {
    hide Parsed, IsInPrefixRange, IsMapped;
    AcceptedNotations(n, prefix, prefixLen, 128);
  }

  lemma NoneDelegated(prefix: Bits, p: nat, d: nat)
    requires |prefix| == 128 && d <= 128 && (d < p || d == 0 || d == 128)
    ensures Delegated(prefix, p, d) == {}
  {
    hide IsDelegated, AllBits;
    forall b | b in AllBits(|prefix|) ensures |b| == 128 && !IsDelegated(b, prefix, p, d) {
      AllBitsMeaning(|prefix|, b);
      NotDelegated(b, prefix, p, d);
    }
  }

  lemma Pow2Positive(n: nat)
    ensures Pow2(n) >= 1
  {
  }

  // Address ranges

  /** The number whose binary digits are given. */
  function Number(a: Bits): (v: nat)
    ensures v < Pow2(|a|)
  {
    if a == [] then 0 else (if a[0] then Pow2(|a| - 1) else 0) + Number(a[1..])
  }

  /** Byte-wise comparison of addresses of the same length. */
  predicate NotAfter(a: Bits, b: Bits)
    requires |a| == |b|
  {
    a == [] || (!a[0] && b[0]) || (a[0] == b[0] && NotAfter(a[1..], b[1..]))
  }

  lemma {:induction false} NotAfterIsNumeric(a: Bits, b: Bits)
    requires |a| == |b|
    ensures NotAfter(a, b) <==> Number(a) <= Number(b)
    ensures Number(a) == Number(b) ==> a == b
  {
    if a != [] {
      NotAfterIsNumeric(a[1..], b[1..]);
      assert a == [a[0]] + a[1..] && b == [b[0]] + b[1..];
    }
  }

  predicate IsInRange(p: ParsedIP, lb: Bits, ub: Bits)
    requires |p.ip| == |lb| == |ub| == 128
  {
    !p.prefix && NotAfter(lb, p.ip) && NotAfter(p.ip, ub)
  }

  function CalculateRangeSize(lb: Bits, ub: Bits): int {
    Number(ub) - Number(lb) + 1
  }

  lemma {:induction false} NumberOnto(n: nat, v: nat) returns (a: Bits)
    requires v < Pow2(n)
    ensures |a| == n && Number(a) == v
  {
    if n == 0 {
      a := [];
    } else if v < Pow2(n - 1) {
      var rest := NumberOnto(n - 1, v);
      a := [false] + rest;
    } else {
      var rest := NumberOnto(n - 1, v - Pow2(n - 1));
      a := [true] + rest;
    }
  }

  ghost function Between(n: nat, lo: int, hi: int): set<Bits> {
    set a | a in AllBits(n) && lo <= Number(a) <= hi
  }

  lemma {:induction false} BetweenSize(n: nat, lo: nat, hi: int)
    requires lo - 1 <= hi < Pow2(n)
    ensures |Between(n, lo, hi)| == hi - lo + 1
    decreases hi - lo + 1
  {
    hide AllBits, Number;
    if hi < lo {
      assert Between(n, lo, hi) == {};
    } else {
      var a := NumberOnto(n, hi);
      BetweenSize(n, lo, hi - 1);
      AllBitsMeaning(n, a);
      forall b | b in AllBits(n) && Number(b) == hi ensures b == a {
        AllBitsMeaning(n, b);
        NotAfterIsNumeric(a, b);
      }
      assert Between(n, lo, hi) == Between(n, lo, hi - 1) + {a};
    }
  }

  /** The addresses that lie in a range. */
  ghost function InRange(lb: Bits, ub: Bits): set<Bits>
    requires |lb| == |ub| == 128
  {
    set a | a in AllBits(|lb|) && |a| == 128 && IsInRange(Parsed(Address6(a)), lb, ub)
  }

  lemma InRangeIsNumeric(a: Bits, lb: Bits, ub: Bits)
    requires |a| == |lb| == |ub| == 128
    ensures IsInRange(Parsed(Address6(a)), lb, ub) <==> Number(lb) <= Number(a) <= Number(ub)
  {
    hide NotAfter, Number;
    NotAfterIsNumeric(lb, a);
    NotAfterIsNumeric(a, ub);
  }

  lemma NumberBound(a: Bits)
    ensures Number(a) < Pow2(|a|)
  {
  }

  /** The calculated size of a range is the number of addresses in it, unless the lower bound
      lies more than one above the upper bound. */
  lemma RangeSize(lb: Bits, ub: Bits)
    requires |lb| == |ub| == 128
    ensures |InRange(lb, ub)| == CalculateRangeSize(lb, ub) <==> Number(lb) <= Number(ub) + 1
  {
    hide AllBits, Number, IsInRange, Parsed, Pow2;
    forall a | a in AllBits(|lb|)
      ensures |a| == 128 && (IsInRange(Parsed(Address6(a)), lb, ub) <==> Number(lb) <= Number(a) <= Number(ub))
    {
      AllBitsMeaning(|lb|, a);
      InRangeIsNumeric(a, lb, ub);
    }
    assert InRange(lb, ub) == Between(|lb|, Number(lb), Number(ub));
    if Number(lb) <= Number(ub) + 1 {
      NumberBound(ub);
      BetweenSize(|lb|, Number(lb), Number(ub));
    }
  }
}
