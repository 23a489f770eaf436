/** Addresses and prefixes as text (util/cidr.go). */
module IpText {
  import opened Wrappers
  import opened Texts
  import opened IpPrefixes

  type Address = b: Bits | |b| == 32 || |b| == 128 witness Repeat(false, 32)

  /** How single addresses are read and written is a parameter: dotted decimal notation stands
      for 32 bits, notation with colons for 128. */
  datatype AddressText = AddressText(read: string -> Option<Address>, write: Bits -> string)

  /** Addresses have neither separators nor outer white space, and what is written for an IPv6
      address is read back. */
  ghost predicate IsSound(ip: AddressText) {
    && (forall s :: ip.read(s).Some? ==> s != "" && Trimmed(s) && ',' !in s && '/' !in s)
    && (forall b: Bits :: |b| == 128 && !IsMapped(b) ==> ip.read(ip.write(b)) == Some(b))
  }

  /** An address, or an address and a length with a slash between them. */
  function Read(ip: AddressText, s: string): (n: Option<Notation>)
    ensures n.Some? ==> n.value.Valid()
  {
    var parts := Split(s, '/');
    var bits := ip.read(parts[0]);
    if bits.None? || |parts| > 2 then None
    else if |parts| == 1 then Some(if |bits.value| == 32 then Address4(bits.value) else Address6(bits.value))
    else if !AllDigits(parts[1]) || DigitsValue(parts[1]) > |bits.value| then None
    else
      var length := DigitsValue(parts[1]);
      Some(if |bits.value| == 32 then Prefix4(bits.value, length) else Prefix6(bits.value, length))
  }

  function Parse(ip: AddressText, s: string): (p: Option<ParsedIP>)
    ensures p.Some? ==> |p.value.ip| == |p.value.networkPrefix| == 128 && p.value.prefixLength <= 128
  {
    var n := Read(ip, s);
    if n.None? then None else Some(Parsed(n.value))
  }

  method ParseText(ip: AddressText, s: string) returns (p: Option<ParsedIP>)
    ensures p == Parse(ip, s)
  {
    var n := Read(ip, s);
    if n.None? {
      return None;
    }
    var parsed := ParseIP(n.value);
    return Some(parsed);
  }

  lemma DigitsArePlain(s: string)
    requires AllDigits(s)
    ensures ',' !in s && '/' !in s && Trimmed(s)
  {
    assert IsDigit(s[0]) && IsDigit(s[|s| - 1]);
  }

  /** Whatever is parsed is free of commas and outer white space. */
  lemma ParsedIsPlain(ip: AddressText, s: string)
    requires IsSound(ip) && Parse(ip, s).Some?
    ensures s != "" && Trimmed(s) && ',' !in s
  {
    hide Parsed, IsSpace;
    var parts := Split(s, '/');
    JoinSplit(s, '/');
    var address := parts[0];
    assert ip.read(address).Some?;
    if |parts| == 1 {
      assert parts == [address];
    } else {
      assert parts == [address, parts[1]];
      DigitsArePlain(parts[1]);
      assert s == address + ['/'] + parts[1];
    }
  }

  /** A prefix is read from an address and a printed length, unless the address has a slash. */
  lemma ReadPrefix(ip: AddressText, s: string, length: string)
    requires IsSound(ip) && AllDigits(length)
    ensures var b, n := ip.read(s), DigitsValue(length);
      Read(ip, s + "/" + length)
      == if b.None? || n > |b.value| then None
         else Some(if |b.value| == 32 then Prefix4(b.value, n) else Prefix6(b.value, n))
  {
    hide AllDigits, DigitsValue, Trimmed;
    DigitsArePlain(length);
    if '/' in s {
      SlashTwice(s, length);
    } else {
      SplitFirst(s, length, '/');
      SplitWhole(length, '/');
      assert s + ['/'] + length == s + "/" + length;
    }
  }

  lemma {:induction false} SlashTwice(s: string, t: string)
    requires '/' in s
    ensures |Split(s + "/" + t, '/')| > 2
  {
    assert (s + "/" + t)[1..] == s[1..] + "/" + t;
    if s[0] == '/' {
      SlashOnce(s[1..], t);
    } else {
      SlashTwice(s[1..], t);
    }
  }

  lemma {:induction false} SlashOnce(s: string, t: string)
    ensures |Split(s + "/" + t, '/')| >= 2
  {
    if s == "" {
      assert "" + "/" + t == "/" + t && ("/" + t)[1..] == t;
    } else {
      assert (s + "/" + t)[1..] == s[1..] + "/" + t;
      SlashOnce(s[1..], t);
    }
  }

  /** An address text alone is read by itself. */
  lemma ReadAddress(ip: AddressText, s: string)
    requires IsSound(ip) && ip.read(s).Some?
    ensures var b := ip.read(s).value;
      Read(ip, s) == Some(if |b| == 32 then Address4(b) else Address6(b))
  {
    SplitWhole(s, '/');
  }
}
