/** DHCP options without a definition, as strings of hexadecimal digits (appcfg/kea/option.go,
    optionfield.go, util/util.go). */
module HexOptions {
  import opened Wrappers
  import opened Texts
  import opened IpText
  import opened OptionFields
  import IpPrefixes
  import Fqdn
  import Options

  type Byte = b: int | 0 <= b < 256

  const NO_BYTES: seq<Byte> := []

  /** How text becomes bytes is a parameter. */
  type Encoder = string -> seq<Byte>

  // Hexadecimal digits

  function HexDigit(d: nat): (c: char)
    requires d < 16
  {
    if d < 10 then ('0' as int + d) as char else ('A' as int + d - 10) as char
  }

  function DigitOf(c: char): Option<nat> {
    if IsDigit(c) then Some(c as int - '0' as int)
    else if 'a' <= c <= 'f' then Some(c as int - 'a' as int + 10)
    else if 'A' <= c <= 'F' then Some(c as int - 'A' as int + 10)
    else None
  }

  /** Two digits for each byte. */
  function Hex(bytes: seq<Byte>): string {
    if bytes == [] then "" else [HexDigit(bytes[0] / 16), HexDigit(bytes[0] % 16)] + Hex(bytes[1..])
  }

  /** The bytes that pairs of digits denote, up to the first pair that is none. */
  function Unhex(s: string): seq<Byte> {
    if |s| < 2 || DigitOf(s[0]).None? || DigitOf(s[1]).None? then []
    else
      DigitOfBound(s[0]);
      DigitOfBound(s[1]);
      [16 * DigitOf(s[0]).value + DigitOf(s[1]).value] + Unhex(s[2..])
  }

  lemma DigitOfBound(c: char)
    ensures DigitOf(c).Some? ==> DigitOf(c).value < 16
  {
  }

  lemma DigitOfHex(d: nat)
    requires d < 16
    ensures DigitOf(HexDigit(d)) == Some(d)
  {
  }

  lemma DigitIsListed(d: nat)
    requires d < 16
    ensures HexDigit(d) in "0123456789ABCDEF"
  {
    assert HexDigit(d) == "0123456789ABCDEF"[d];
  }

  method BytesToHex(bytes: seq<Byte>) returns (s: string)
    ensures s == Hex(bytes)
    ensures |s| == 2 * |bytes| && forall c :: c in s ==> c in "0123456789ABCDEF"
  {
    s := "";
    for i := 0 to |bytes|
      invariant s + Hex(bytes[i..]) == Hex(bytes)
      invariant |s| == 2 * i && forall c :: c in s ==> c in "0123456789ABCDEF"
    {
      assert bytes[i..][1..] == bytes[i + 1..];
      DigitIsListed(bytes[i] / 16);
      DigitIsListed(bytes[i] % 16);
      s := s + [HexDigit(bytes[i] / 16), HexDigit(bytes[i] % 16)];
    }
    assert bytes[|bytes|..] == [];
  }

  /** Any string of pairs of digits is decoded piece by piece. */
  lemma {:induction false} UnhexAppend(s: string, t: string)
    requires IsHex(s)
    ensures Unhex(s + t) == Unhex(s) + Unhex(t)
  {
    if s == "" {
      assert s + t == t;
    } else {
      assert |s| >= 2 && s[0] in s && s[1] in s;
      assert (s + t)[2..] == s[2..] + t;
      forall c | c in s[2..] ensures c in s {
      }
      UnhexAppend(s[2..], t);
    }
  }

  lemma HexOfByte(b: Byte, rest: string)
    requires IsHex(rest)
    ensures IsHex([HexDigit(b / 16), HexDigit(b % 16)] + rest)
    ensures Unhex([HexDigit(b / 16), HexDigit(b % 16)] + rest) == [b] + Unhex(rest)
  {
    DigitOfHex(b / 16);
    DigitOfHex(b % 16);
    var s := [HexDigit(b / 16), HexDigit(b % 16)] + rest;
    assert s[2..] == rest;
    assert 16 * (b / 16) + b % 16 == b;
    forall c | c in s ensures DigitOf(c).Some? {
      assert c == s[0] || c == s[1] || c in rest;
    }
  }

  /** Hexadecimal digits decode to the bytes they were made from. */
  lemma {:induction false} HexRoundTrip(bytes: seq<Byte>)
    ensures IsHex(Hex(bytes)) && Unhex(Hex(bytes)) == bytes
  {
    hide IsHex, Unhex, HexDigit;
    if bytes == [] {
      NoDigits();
    } else {
      HexRoundTrip(bytes[1..]);
      HexOfByte(bytes[0], Hex(bytes[1..]));
    }
  }

  lemma NoDigits()
    ensures IsHex("") && Unhex("") == []
  {
  }

  /** Decoding ignores the usual separators. */
  function HexToBytes(s: string): seq<Byte> {
    Unhex(Without(s, " :-"))
  }

  lemma DigitsAreNoSeparators(s: string)
    requires IsHex(s)
    ensures forall c :: c in s ==> c !in " :-"
  {
    forall c | c in s ensures c !in " :-" {
      assert IsDigit(c) || 'a' <= c <= 'f' || 'A' <= c <= 'F';
    }
  }

  lemma HexToBytesRoundTrip(bytes: seq<Byte>)
    ensures HexToBytes(Hex(bytes)) == bytes
  {
    hide IsHex, Unhex, Hex;
    HexRoundTrip(bytes);
    DigitsAreNoSeparators(Hex(bytes));
    WithoutMeaning(Hex(bytes), " :-");
  }

  // Numbers of fixed width

  function HexNumber(n: nat): string {
    if n < 16 then [HexDigit(n)] else HexNumber(n / 16) + [HexDigit(n % 16)]
  }

  function Zeros(n: int): string {
    seq(if n < 0 then 0 else n, i => '0')
  }

  /** At least `width` digits, with leading zeros. */
  function PaddedHex(n: nat, width: nat): string {
    Zeros(width - |HexNumber(n)|) + HexNumber(n)
  }

  /** The bytes of a number, the most significant first. */
  function BigEndian(n: nat, count: nat): (bytes: seq<Byte>)
    ensures |bytes| == count
  {
    if count == 0 then [] else BigEndian(n / 256, count - 1) + [n % 256]
  }

  function FromBigEndian(bytes: seq<Byte>): nat {
    if bytes == [] then 0 else FromBigEndian(bytes[..|bytes| - 1]) * 256 + bytes[|bytes| - 1]
  }

  function Power256(n: nat): (p: nat)
    ensures p >= 1
  {
    if n == 0 then 1 else 256 * Power256(n - 1)
  }

  lemma {:induction false} BigEndianValue(n: nat, count: nat)
    ensures FromBigEndian(BigEndian(n, count)) == n <==> n < Power256(count)
  {
    if count > 0 {
      BigEndianValue(n / 256, count - 1);
      assert BigEndian(n, count)[..count - 1] == BigEndian(n / 256, count - 1);
      assert n / 256 < Power256(count - 1) <==> n < 256 * Power256(count - 1);
    }
  }

  lemma {:induction false} HexAppend(a: seq<Byte>, b: seq<Byte>)
    ensures Hex(a + b) == Hex(a) + Hex(b)
  {
    if a == [] {
      assert a + b == b;
    } else {
      assert (a + b)[1..] == a[1..] + b;
      HexAppend(a[1..], b);
    }
  }

  /** One digit more in front of which there are two or more. */
  lemma PaddedNext(n: nat, width: nat)
    requires width >= 1
    ensures PaddedHex(n, width + 1) == PaddedHex(n / 16, width) + [HexDigit(n % 16)]
  {
    if n < 16 {
      assert HexNumber(n / 16) == "0";
      assert Zeros(width) == Zeros(width - 1) + "0";
    } else {
      assert width + 1 - |HexNumber(n)| == width - |HexNumber(n / 16)|;
    }
  }

  lemma LastByte(n: nat)
    ensures n / 16 / 16 == n / 256 && n / 16 % 16 == n % 256 / 16 && n % 256 % 16 == n % 16
    ensures Hex([n % 256]) == [HexDigit(n / 16 % 16), HexDigit(n % 16)]
  {
    assert [n % 256][1..] == [];
    assert Hex([]) == "";
  }

  lemma OneDigit(d: nat)
    requires d < 16
    ensures PaddedHex(d, 1) == [HexDigit(d)]
  {
    assert Zeros(0) == "";
  }

  lemma OneByte(n: nat)
    requires n < 256
    ensures PaddedHex(n, 2) == [HexDigit(n / 16 % 16), HexDigit(n % 16)] && BigEndian(n, 1) == [n]
  {
    hide PaddedHex, HexDigit;
    PaddedNext(n, 1);
    OneDigit(n / 16);
    assert BigEndian(n / 256, 0) == [];
  }

  lemma Fits(n: nat, count: nat)
    requires 1 <= count && n < Power256(count)
    ensures n / 256 < Power256(count - 1)
    ensures count == 1 ==> n < 256
  {
    assert count == 1 ==> Power256(count - 1) == 1;
  }

  /** A number that fits is printed as the digits of its bytes. */
  lemma {:induction false} FixedWidth(n: nat, count: nat)
    requires 1 <= count && n < Power256(count)
    ensures PaddedHex(n, 2 * count) == Hex(BigEndian(n, count))
  {
    hide Hex, PaddedHex, Power256, HexDigit;
    Fits(n, count);
    LastByte(n);
    if count == 1 {
      OneByte(n);
    } else {
      HexAppend(BigEndian(n / 256, count - 1), [n % 256]);
      PaddedNext(n, 2 * count - 1);
      PaddedNext(n / 16, 2 * count - 2);
      FixedWidth(n / 256, count - 1);
    }
  }

  // Integers in two's complement

  function Width(t: FieldType): (count: nat)
    requires IsIntField(t)
  {
    match t
    case Uint8Field | Int8Field => 1
    case Uint16Field | Int16Field => 2
    case Uint32Field | Int32Field => 4
  }

  /** How many values a field of the type can have on the wire. */
  function Modulus(t: FieldType): (m: nat)
    requires IsIntField(t)
    ensures m > 0
  {
    match t
    case Uint8Field | Int8Field => 0x100
    case Uint16Field | Int16Field => 0x1_0000
    case Uint32Field | Int32Field => 0x1_0000_0000
  }

  lemma ModulusOfWidth(t: FieldType)
    requires IsIntField(t)
    ensures Modulus(t) == Power256(Width(t))
  {
    assert Power256(1) == 0x100;
    assert Power256(2) == 0x1_0000;
    assert Power256(3) == 0x100_0000;
    assert Power256(4) == 0x1_0000_0000;
  }

  function IntWire(t: FieldType, n: int): seq<Byte>
    requires IsIntField(t)
  {
    BigEndian(n % Modulus(t), Width(t))
  }

  /** Reading a number of the type from the wire. */
  function FromWire(t: FieldType, bytes: seq<Byte>): int
    requires IsIntField(t)
  {
    var v := FromBigEndian(bytes);
    if t in {Int8Field, Int16Field, Int32Field} && v >= Modulus(t) / 2 then v - Modulus(t) else v
  }

  /** A number is read from the wire as it was written if and only if it is in range. */
  lemma IntWireRoundTrip(t: FieldType, n: int)
    requires IsIntField(t)
    ensures FromWire(t, IntWire(t, n)) == n <==> InRange(t, n)
  {
    hide FromBigEndian, BigEndian;
    ModulusOfWidth(t);
    BigEndianValue(n % Modulus(t), Width(t));
  }

  // Whole fields

  lemma EightBits(bits: IpPrefixes.Bits)
    requires |bits| == 8
    ensures IpPrefixes.Number(bits) < 256
  {
    assert IpPrefixes.Pow2(4) == 16 && IpPrefixes.Pow2(8) == 256;
  }

  /** Eight bits make a byte. */
  function BytesOf(bits: IpPrefixes.Bits): (bytes: seq<Byte>)
    ensures |bytes| == |bits| / 8
  {
    if |bits| < 8 then []
    else
      EightBits(bits[..8]);
      [IpPrefixes.Number(bits[..8])] + BytesOf(bits[8..])
  }

  lemma {:induction false} ByteAt(bits: IpPrefixes.Bits, i: nat)
    requires i < |bits| / 8
    ensures BytesOf(bits)[i] == IpPrefixes.Number(bits[8 * i..8 * i + 8])
  {
    hide IpPrefixes.Number;
    if i > 0 {
      ByteAt(bits[8..], i - 1);
      assert bits[8..][8 * (i - 1)..8 * (i - 1) + 8] == bits[8 * i..8 * i + 8];
    }
  }

  /** Four bytes for IPv4, sixteen for IPv6. */
  function AddressBytes(ip: AddressText, s: string): (bytes: seq<Byte>)
    requires Parse(ip, s).Some?
    ensures |bytes| == if Parse(ip, s).value.protocol.IPv4? then 4 else 16
  {
    var p := Parse(ip, s).value;
    BytesOf(if p.protocol.IPv4? then p.ip[96..] else p.ip)
  }

  /** The bytes of an address that is written are those of its bits, four for dotted notation and
      sixteen for notation with colons that stands for no IPv4 address. */
  lemma AddressBytesOfText(ip: AddressText, s: string)
    requires IsSound(ip) && ip.read(s).Some?
    ensures Parse(ip, s).Some?
    ensures var b := ip.read(s).value;
      |b| == 32 || !IpPrefixes.IsMapped(b) ==> AddressBytes(ip, s) == BytesOf(b)
  {
    hide BytesOf;
    ReadAddress(ip, s);
    var b := ip.read(s).value;
    if |b| == 32 {
      assert IpPrefixes.To16(b)[..96] == IpPrefixes.MappedPrefix();
      assert IpPrefixes.To16(b)[96..] == b;
    }
  }

  ghost function ParsedName(s: string): (f: Fqdn.Fqdn)
    requires IsFqdn(s)
    ensures Fqdn.Accepted(f) && Fqdn.Text(f) == Trim(s)
  {
    var f :| Fqdn.Accepted(f) && Fqdn.Text(f) == Trim(s);
    f
  }

  lemma EncodedAreBytes(f: Fqdn.Fqdn)
    requires forall l :: l in f.labels ==> Fqdn.IsAscii(l)
    ensures forall i :: 0 <= i < |Fqdn.Encoded(f)| ==> 0 <= Fqdn.Encoded(f)[i] < 256
    decreases |f.labels|
  {
    if f.labels != [] {
      EncodedAreBytes(Fqdn.Fqdn(f.labels[1..], f.partial));
      assert f.labels[0] in f.labels;
    }
  }

  lemma AcceptedIsAscii(f: Fqdn.Fqdn)
    requires Fqdn.Accepted(f)
    ensures forall l :: l in f.labels ==> Fqdn.IsAscii(l)
  {
    forall l | l in f.labels ensures Fqdn.IsAscii(l) {
      assert Fqdn.IsTopLabel(l) || Fqdn.IsLabel(l);
    }
  }

  ghost function NameWire(s: string): seq<Byte>
    requires IsFqdn(s)
  {
    AcceptedIsAscii(ParsedName(s));
    EncodedAreBytes(ParsedName(s));
    Fqdn.Encoded(ParsedName(s))
  }

  /** The bytes that the field stands for in a DHCP message. */
  ghost function Wire(field: Field, ip: AddressText, utf8: Encoder): seq<Byte>
    requires Convertible(field, ip)
  {
    var Field(t, values) := field;
    match t
    case StringField => utf8(values[0].s)
    case BinaryField => Unhex(Without(values[0].s, ": "))
    case BoolField => [if values[0].b then 1 else 0]
    case IPv4AddressField | IPv6AddressField => AddressBytes(ip, values[0].s)
    case IPv6PrefixField => AddressBytes(ip, values[0].s) + [AsInt64(values[1].n)]
    case PsidField => BigEndian(AsInt64(values[0].n), 2) + [AsInt64(values[1].n)]
    case FqdnField => NameWire(values[0].s)
    case OtherField(_) => NO_BYTES
    case _ => IntWire(t, AsInt64(values[0].n))
  }

  /** The digits that are printed for the field. */
  ghost function HexText(field: Field, ip: AddressText, utf8: Encoder): string
    requires Convertible(field, ip)
  {
    var Field(t, values) := field;
    match t
    case StringField => Hex(utf8(values[0].s))
    case BinaryField => Without(values[0].s, ": ")
    case BoolField => if values[0].b then "01" else "00"
    case IPv4AddressField | IPv6AddressField => Hex(AddressBytes(ip, values[0].s))
    case IPv6PrefixField => Hex(AddressBytes(ip, values[0].s)) + PaddedHex(AsInt64(values[1].n), 2)
    case PsidField => PaddedHex(AsInt64(values[0].n), 4) + PaddedHex(AsInt64(values[1].n), 2)
    case FqdnField => Hex(NameWire(values[0].s))
    case OtherField(_) => ""
    case _ => PaddedHex(AsInt64(values[0].n) % Modulus(t), 2 * Width(t))
  }

  /** The same checks as for text, and then the digits. */
  method ConvertFieldToHex(field: Field, ip: AddressText, utf8: Encoder)
    returns (text: Option<string>)
    ensures text == if Convertible(field, ip) then Some(HexText(field, ip, utf8)) else None
  {
    hide PaddedHex, Without, IsHex, InRange, AsInt64, Hex;
    var Field(t, values) := field;
    match t {
      case StringField =>
        if !IsText(values) || values[0].s == "" { return None; }
        var digits := BytesToHex(utf8(values[0].s));
        return Some(digits);
      case BinaryField =>
        if !IsText(values) || values[0].s == "" { return None; }
        var output := Without(values[0].s, ": ");
        if !IsHex(output) { return None; }
        return Some(output);
      case BoolField =>
        if |values| != 1 || !values[0].Flag? { return None; }
        return Some(if values[0].b then "01" else "00");
      case IPv4AddressField =>
        if !IsText(values) { return None; }
        var parsed := ParseText(ip, values[0].s);
        if parsed.None? || !parsed.value.protocol.IPv4? { return None; }
        var digits := BytesToHex(AddressBytes(ip, values[0].s));
        return Some(digits);
      case IPv6AddressField =>
        if !IsText(values) { return None; }
        var parsed := ParseText(ip, values[0].s);
        if parsed.None? || !parsed.value.protocol.IPv6? { return None; }
        var digits := BytesToHex(AddressBytes(ip, values[0].s));
        return Some(digits);
      case IPv6PrefixField =>
        if !IsPrefixPair(values) { return None; }
        var length := AsInt64(values[1].n);
        if length <= 0 || length > 128 { return None; }
        var parsed := ParseText(ip, values[0].s);
        if parsed.None? || !parsed.value.protocol.IPv6? { return None; }
        var digits := BytesToHex(AddressBytes(ip, values[0].s));
        return Some(digits + PaddedHex(length, 2));
      case PsidField =>
        if !IsNumberPair(values) { return None; }
        var psid, length := AsInt64(values[0].n), AsInt64(values[1].n);
        if psid <= 0 || psid > 0xFFFF || length <= 0 || length > 0xFF { return None; }
        return Some(PaddedHex(psid, 4) + PaddedHex(length, 2));
      case FqdnField =>
        if !IsText(values) { return None; }
        var fqdn := Fqdn.ParseFqdn(values[0].s);
        if fqdn.None? { return None; }
        OnlyName(values[0].s, fqdn.value);
        var bytes := Fqdn.ToBytes(fqdn.value);
        var digits := BytesToHex(bytes);
        return Some(digits);
      case OtherField(_) =>
        return None;
      case _ =>
        if |values| != 1 || !values[0].Whole? || !InRange(t, AsInt64(values[0].n)) { return None; }
        return Some(PaddedHex(AsInt64(values[0].n) % Modulus(t), 2 * Width(t)));
    }
  }

  lemma OnlyName(s: string, f: Fqdn.Fqdn)
    requires Fqdn.Accepted(f) && Fqdn.Text(f) == Trim(s)
    ensures IsFqdn(s) && NameWire(s) == Fqdn.Encoded(f)
    ensures forall i :: 0 <= i < |Fqdn.Encoded(f)| ==> 0 <= Fqdn.Encoded(f)[i] < 256
  {
    Fqdn.TextIsInjective(f, ParsedName(s));
    AcceptedIsAscii(f);
    EncodedAreBytes(f);
  }

  lemma ByteHex(n: Byte)
    ensures PaddedHex(n, 2) == Hex([n])
  {
    OneByte(n);
    LastByte(n);
  }

  /** What is printed for a field are the digits of its bytes. */
  lemma HexTextIsWire(field: Field, ip: AddressText, utf8: Encoder)
    requires Convertible(field, ip)
    ensures IsHex(HexText(field, ip, utf8))
    ensures Unhex(HexText(field, ip, utf8)) == Wire(field, ip, utf8)
  {
    hide IsHex, Unhex, Hex, PaddedHex, BigEndian, Without, IsFqdn, InRange, AsInt64;
    var Field(t, values) := field;
    var wire := Wire(field, ip, utf8);
    HexRoundTrip(wire);
    match t {
      case BinaryField =>
      case BoolField =>
        HexOfBool(values[0].b);
      case IPv6PrefixField =>
        var length := AsInt64(values[1].n);
        HexAppend(AddressBytes(ip, values[0].s), [length]);
        ByteHex(length);
      case PsidField =>
        var psid, length := AsInt64(values[0].n), AsInt64(values[1].n);
        HexAppend(BigEndian(psid, 2), [length]);
        FitsTwoBytes(psid);
        ByteHex(length);
      case StringField | IPv4AddressField | IPv6AddressField | FqdnField | OtherField(_) =>
      case _ =>
        ModulusOfWidth(t);
        FixedWidth(AsInt64(values[0].n) % Modulus(t), Width(t));
    }
  }

  lemma HexOfBool(b: bool)
    ensures Hex([if b then 1 else 0]) == if b then "01" else "00"
  {
    LastByte(if b then 1 else 0);
  }

  lemma FitsTwoBytes(n: nat)
    requires n < 0x1_0000
    ensures PaddedHex(n, 4) == Hex(BigEndian(n, 2))
  {
    ModulusOfWidth(Uint16Field);
    FixedWidth(n, 2);
  }

  // Whole options

  ghost function HexData(fields: seq<Field>, ip: AddressText, utf8: Encoder): string
    requires Options.AllConvertible(fields, ip)
  {
    if fields == [] then ""
    else
      var last := |fields| - 1;
      HexData(fields[..last], ip, utf8) + HexText(fields[last], ip, utf8)
  }

  /** The bytes of all fields one after another. */
  ghost function WireData(fields: seq<Field>, ip: AddressText, utf8: Encoder): seq<Byte>
    requires Options.AllConvertible(fields, ip)
  {
    if fields == [] then []
    else
      var last := |fields| - 1;
      WireData(fields[..last], ip, utf8) + Wire(fields[last], ip, utf8)
  }

  /** The data of an option that has no definition. */
  method CreateSingleOptionData(fields: seq<Field>, ip: AddressText, utf8: Encoder)
    returns (data: Option<string>)
    ensures data
         == if Options.AllConvertible(fields, ip) then Some(HexData(fields, ip, utf8)) else None
  {
    hide Convertible, HexText;
    var converted := "";
    for i := 0 to |fields|
      invariant Options.AllConvertible(fields[..i], ip)
      invariant converted == HexData(fields[..i], ip, utf8)
    {
      var value := ConvertFieldToHex(fields[i], ip, utf8);
      assert fields[i] in fields;
      if value.None? {
        return None;
      }
      assert fields[..i + 1][..i] == fields[..i];
      converted := converted + value.value;
    }
    assert fields[..|fields|] == fields;
    return Some(converted);
  }

  /** Blank data have no fields; all other data are one binary field with what is left of them
      without outer white space and separators. */
  ghost predicate IsParsed(data: string, fields: seq<Field>) {
    if forall c :: c in data ==> IsSpace(c) then fields == []
    else
      && |fields| == 1 && fields[0].fieldType == BinaryField && IsText(fields[0].values)
      && var s := fields[0].values[0].s;
      s == Without(Trim(data), ": ") && forall c :: c in s ==> c !in ": "
  }

  function ReplaceAll(s: string, c: char): string {
    if s == "" then "" else (if s[0] == c then "" else [s[0]]) + ReplaceAll(s[1..], c)
  }

  lemma {:induction false} ReplacedTwice(s: string)
    ensures ReplaceAll(ReplaceAll(s, ' '), ':') == Without(s, ": ")
  {
    if s != "" {
      ReplacedTwice(s[1..]);
      var rest := ReplaceAll(s[1..], ' ');
      if s[0] == ' ' {
        assert ReplaceAll(s, ' ') == "" + rest == rest;
      } else {
        assert ReplaceAll(s, ' ') == [s[0]] + rest && ([s[0]] + rest)[1..] == rest;
      }
    }
  }

  lemma BlankIsTrimmed(data: string)
    ensures Trim(data) == "" <==> forall c :: c in data ==> IsSpace(c)
  {
    hide IsSpace;
    if Trim(data) == "" {
      forall c | c in data ensures IsSpace(c) {
        if !IsSpace(c) {
          KeptByTrim(data, c);
        }
      }
    } else {
      Options.NotBlank(data);
    }
  }

  /** What is parsed; data that are nothing but digits come back as they are. */
  method CreateDHCPOption(data: string) returns (fields: seq<Field>)
    ensures IsParsed(data, fields)
    ensures data != "" && IsHex(data) ==> fields == [Field(BinaryField, [Text(data)])]
  {
    hide Trim, IsSpace, IsHex;
    var trimmed := Trim(data);
    BlankIsTrimmed(data);
    if IsHex(data) {
      DigitsStay(data);
    }
    if |trimmed| == 0 {
      return [];
    }
    var digits := ReplaceAll(ReplaceAll(trimmed, ' '), ':');
    ReplacedTwice(trimmed);
    WithoutMeaning(trimmed, ": ");
    return [Field(BinaryField, [Text(digits)])];
  }

  lemma DigitsStay(data: string)
    requires IsHex(data)
    ensures Trim(data) == data && Without(data, ": ") == data
  {
    HexIsPlain(data);
    TrimProperties(data);
    WithoutMeaning(data, ": ");
  }

  lemma HexConcatenation(s: string, t: string)
    requires IsHex(s) && IsHex(t)
    ensures IsHex(s + t)
  {
  }

  /** The data printed for an option are digits that decode to the bytes of its fields. */
  lemma {:induction false} HexDataIsWire(fields: seq<Field>, ip: AddressText, utf8: Encoder)
    requires Options.AllConvertible(fields, ip)
    ensures IsHex(HexData(fields, ip, utf8))
    ensures Unhex(HexData(fields, ip, utf8)) == WireData(fields, ip, utf8)
    decreases |fields|
  {
    hide IsHex, Unhex, HexText, Wire, Convertible;
    if fields == [] {
      NoDigits();
    } else {
      var front, last := fields[..|fields| - 1], fields[|fields| - 1];
      HexDataIsWire(front, ip, utf8);
      HexTextIsWire(last, ip, utf8);
      var s, t := HexData(front, ip, utf8), HexText(last, ip, utf8);
      HexConcatenation(s, t);
      UnhexAppend(s, t);
    }
  }

  /** The printed data are parsed to a single field of the same bytes, which is printed as the
      same data again; however often an option goes back and forth, its bytes stay. */
  lemma HexFormIsStable(fields: seq<Field>, parsed: seq<Field>, ip: AddressText, utf8: Encoder)
    requires Options.AllConvertible(fields, ip) && IsParsed(HexData(fields, ip, utf8), parsed)
    ensures |parsed| <= 1 && (parsed == [] <==> WireData(fields, ip, utf8) == [])
    ensures Options.AllConvertible(parsed, ip)
    ensures HexData(parsed, ip, utf8) == HexData(fields, ip, utf8)
    ensures WireData(parsed, ip, utf8) == WireData(fields, ip, utf8)
  {
    hide Trim, Without, IsSpace;
    var data := HexData(fields, ip, utf8);
    HexDataIsWire(fields, ip, utf8);
    DigitsStay(data);
    BlankIsTrimmed(data);
    SomeDigits(data);
    hide HexData, WireData, HexText, Wire, Convertible, Unhex;
    if data != "" {
      assert parsed == [Field(BinaryField, [Text(data)])] by {
        assert parsed[0].values == [parsed[0].values[0]];
      }
      BinaryForm(data, ip, utf8);
    } else {
      NothingPrinted(ip, utf8);
    }
  }

  lemma SomeDigits(s: string)
    requires IsHex(s)
    ensures Unhex(s) == [] <==> s == ""
  {
    if s != "" {
      assert |s| >= 2 && s[0] in s && s[1] in s;
    }
  }

  lemma NothingPrinted(ip: AddressText, utf8: Encoder)
    ensures HexData([], ip, utf8) == "" && WireData([], ip, utf8) == []
  {
  }

  lemma BinaryForm(data: string, ip: AddressText, utf8: Encoder)
    requires data != "" && IsHex(data) && Without(data, ": ") == data
    ensures var fields := [Field(BinaryField, [Text(data)])];
      && Options.AllConvertible(fields, ip)
      && HexData(fields, ip, utf8) == data
      && WireData(fields, ip, utf8) == Unhex(data)
  {
    hide Unhex, Without, IsHex;
    var fields := [Field(BinaryField, [Text(data)])];
    assert fields[..0] == [];
    assert "" + data == data;
  }
}
