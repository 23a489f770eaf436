/** Printing and parsing single DHCP option fields (appcfg/kea/optionfield.go). */
module OptionFields {
  import opened Wrappers
  import opened Texts
  import opened IpText
  import IpPrefixes
  import Fqdn

  datatype FieldType =
    | StringField | BinaryField | BoolField
    | Uint8Field | Uint16Field | Uint32Field | Int8Field | Int16Field | Int32Field
    | IPv4AddressField | IPv6AddressField | IPv6PrefixField
    | PsidField | FqdnField
    | OtherField(name: string)

  // Whole numbers of any signed or unsigned type of up to 64 bits.
  type Number = n: int | -0x8000_0000_0000_0000 <= n < 0x1_0000_0000_0000_0000

  datatype Value = Text(s: string) | Flag(b: bool) | Whole(n: Number) | OtherValue

  datatype Field = Field(fieldType: FieldType, values: seq<Value>)

  /** Conversion to a signed 64 bit integer wraps around. */
  function AsInt64(n: Number): int {
    if n >= 0x8000_0000_0000_0000 then n - 0x1_0000_0000_0000_0000 else n
  }

  predicate IsIntField(t: FieldType) {
    t in {Uint8Field, Uint16Field, Uint32Field, Int8Field, Int16Field, Int32Field}
  }

  predicate InRange(t: FieldType, n: int)
    requires IsIntField(t)
  {
    match t
    case Uint8Field => 0 <= n <= 0xFF
    case Uint16Field => 0 <= n <= 0xFFFF
    case Uint32Field => 0 <= n <= 0xFFFF_FFFF
    case Int8Field => -0x80 <= n <= 0x7F
    case Int16Field => -0x8000 <= n <= 0x7FFF
    case Int32Field => -0x8000_0000 <= n <= 0x7FFF_FFFF
  }

  // Numbers as text

  function PrintInt(n: int): string {
    if n < 0 then "-" + Decimal(-n) else Decimal(n)
  }

  /** An unsigned number of at most `max`. */
  function ParseUint(s: string, max: nat): Option<nat> {
    if AllDigits(s) && DigitsValue(s) <= max then Some(DigitsValue(s)) else None
  }

  /** A number, with or without a sign, of at least `-max - 1` and at most `max`. */
  function ParseInt(s: string, max: nat): Option<int> {
    if s == "" then None
    else
      var negative := s[0] == '-';
      var digits := if s[0] in "+-" then s[1..] else s;
      if !AllDigits(digits) then None
      else
        var v: int := DigitsValue(digits);
        if negative then (if v <= max + 1 then Some(-v) else None)
        else if v <= max then Some(v) else None
  }

  function IfWithin(lo: int, n: int, hi: int): Option<int> {
    if lo <= n <= hi then Some(n) else None
  }

  lemma ParsePrinted(n: int, max: nat)
    ensures n >= 0 ==> ParseUint(PrintInt(n), max) == if n <= max then Some(n) else None
    ensures n < 0 ==> ParseUint(PrintInt(n), max) == None
    ensures ParseInt(PrintInt(n), max) == IfWithin(-1 - max, n, max)
  {
    hide Decimal, DigitsValue;
    var d := Decimal(if n < 0 then -n else n);
    DecimalValue(if n < 0 then -n else n);
    assert IsDigit(d[0]);
    if n < 0 {
      assert PrintInt(n)[1..] == d && PrintInt(n)[0] == '-';
      assert !IsDigit('-');
    }
  }

  lemma PrintedIsPlain(n: int)
    ensures var s := PrintInt(n);
      s != "" && Trimmed(s) && forall c :: c in s ==> c == '-' || IsDigit(c)
  {
    var d := Decimal(if n < 0 then -n else n);
    assert IsDigit(d[0]) && IsDigit(d[|d| - 1]);
  }

  // Single fields

  predicate IsHex(s: string) {
    |s| % 2 == 0 && forall c :: c in s ==> IsDigit(c) || 'a' <= c <= 'f' || 'A' <= c <= 'F'
  }

  ghost predicate IsFqdn(s: string) {
    exists f :: Fqdn.Accepted(f) && Fqdn.Text(f) == Trim(s)
  }

  predicate IsIPv4(ip: AddressText, s: string) {
    Parse(ip, s).Some? && Parse(ip, s).value.protocol.IPv4?
  }

  predicate IsIPv6(ip: AddressText, s: string) {
    Parse(ip, s).Some? && Parse(ip, s).value.protocol.IPv6?
  }

  function PrefixValues(ip: AddressText, p: IpPrefixes.ParsedIP): seq<Value>
    requires p.prefixLength <= 128
  {
    [Text(ip.write(p.networkPrefix)), Whole(p.prefixLength)]
  }

  predicate IsText(values: seq<Value>) {
    |values| == 1 && values[0].Text?
  }

  predicate IsNumberPair(values: seq<Value>) {
    |values| == 2 && values[0].Whole? && values[1].Whole?
  }

  predicate IsPrefixPair(values: seq<Value>) {
    |values| == 2 && values[0].Text? && values[1].Whole?
  }

  /** Whether the values of a field fit its type, so that the field can be converted. */
  ghost predicate Convertible(field: Field, ip: AddressText) {
    var Field(t, values) := field;
    match t
    case StringField => IsText(values) && values[0].s != ""
    case BinaryField => IsText(values) && values[0].s != "" && IsHex(Without(values[0].s, ": "))
    case BoolField => |values| == 1 && values[0].Flag?
    case IPv4AddressField => IsText(values) && IsIPv4(ip, values[0].s)
    case IPv6AddressField => IsText(values) && IsIPv6(ip, values[0].s)
    case IPv6PrefixField =>
      && IsPrefixPair(values) && 0 < AsInt64(values[1].n) <= 128
      && IsIPv6(ip, values[0].s)
    case PsidField => IsNumberPair(values) && 0 < AsInt64(values[0].n) <= 0xFFFF && 0 < AsInt64(values[1].n) <= 0xFF
    case FqdnField => IsText(values) && IsFqdn(values[0].s)
    case OtherField(_) => false
    case _ => |values| == 1 && values[0].Whole? && InRange(t, AsInt64(values[0].n))
  }

  /** The field as text in a comma separated list. */
  ghost function Converted(field: Field, ip: AddressText): string
    requires Convertible(field, ip)
  {
    var Field(t, values) := field;
    match t
    case StringField | IPv4AddressField | IPv6AddressField | FqdnField => values[0].s
    case BinaryField => Without(values[0].s, ": ")
    case BoolField => if values[0].b then "true" else "false"
    case IPv6PrefixField => values[0].s + "/" + PrintInt(AsInt64(values[1].n))
    case PsidField => PrintInt(values[0].n) + "/" + PrintInt(values[1].n)
    case OtherField(_) => ""
    case _ => PrintInt(values[0].n)
  }

  function ParseBool(s: string): Option<bool> {
    if s in ["1", "t", "T", "TRUE", "true", "True"] then Some(true)
    else if s in ["0", "f", "F", "FALSE", "false", "False"] then Some(false)
    else None
  }

  function ParseIntField(t: FieldType, s: string): Option<int>
    requires IsIntField(t)
  {
    match t
    case Uint8Field => ParseUint(s, 0xFF)
    case Uint16Field => ParseUint(s, 0xFFFF)
    case Uint32Field => ParseUint(s, 0xFFFF_FFFF)
    case Int8Field => ParseInt(s, 0x7F)
    case Int16Field => ParseInt(s, 0x7FFF)
    case Int32Field => ParseInt(s, 0x7FFF_FFFF)
  }

  function ParsePsid(s: string): Option<(nat, nat)> {
    var parts := Split(s, '/');
    if |parts| != 2 || ParseUint(parts[0], 0xFFFF).None? || ParseUint(parts[1], 0xFF).None? then None
    else Some((ParseUint(parts[0], 0xFFFF).value, ParseUint(parts[1], 0xFF).value))
  }

  /** The values of a field of the given type, if the text is valid for it. */
  ghost function ParsedValues(t: FieldType, s: string, ip: AddressText): Option<seq<Value>> {
    if t == BoolField then
      (if ParseBool(s).Some? then Some([Flag(ParseBool(s).value)]) else None)
    else if IsIntField(t) then
      (if ParseIntField(t, s).Some? then
         ParsedNumbers(t, s);
         Some([Whole(ParseIntField(t, s).value)]) else None)
    else if t == IPv4AddressField then
      (if IsIPv4(ip, s) then Some([Text(s)]) else None)
    else if t == IPv6AddressField then
      (if IsIPv6(ip, s) && !Parse(ip, s).value.prefix then Some([Text(s)]) else None)
    else if t == IPv6PrefixField then
      (if Parse(ip, s).Some? && Parse(ip, s).value.prefix
       then Some(PrefixValues(ip, Parse(ip, s).value)) else None)
    else if t == FqdnField then
      (if IsFqdn(s) then Some([Text(s)]) else None)
    else if t == PsidField then
      (if ParsePsid(s).Some? then
         ParsedPsid(s);
         Some([Whole(ParsePsid(s).value.0), Whole(ParsePsid(s).value.1)]) else None)
    else Some([Text(s)])
  }

  lemma ParsedNumbers(t: FieldType, s: string)
    requires IsIntField(t) && ParseIntField(t, s).Some?
    ensures InRange(t, ParseIntField(t, s).value)
  {
  }

  lemma ParsedPsid(s: string)
    requires ParsePsid(s).Some?
    ensures ParsePsid(s).value.0 <= 0xFFFF && ParsePsid(s).value.1 <= 0xFF
  {
  }

  method ConvertField(field: Field, ip: AddressText) returns (text: Option<string>)
    ensures text == if Convertible(field, ip) then Some(Converted(field, ip)) else None
  {
    hide PrintInt, Without, IsHex, InRange, AsInt64;
    var Field(t, values) := field;
    match t {
      case StringField =>
        if !IsText(values) || values[0].s == "" { return None; }
        return Some(values[0].s);
      case BinaryField =>
        if !IsText(values) || values[0].s == "" { return None; }
        var output := Without(values[0].s, ": ");
        if !IsHex(output) { return None; }
        return Some(output);
      case BoolField =>
        if |values| != 1 || !values[0].Flag? { return None; }
        return Some(if values[0].b then "true" else "false");
      case IPv4AddressField =>
        if !IsText(values) { return None; }
        var parsed := ParseText(ip, values[0].s);
        if parsed.None? || !parsed.value.protocol.IPv4? { return None; }
        return Some(values[0].s);
      case IPv6AddressField =>
        if !IsText(values) { return None; }
        var parsed := ParseText(ip, values[0].s);
        if parsed.None? || !parsed.value.protocol.IPv6? { return None; }
        return Some(values[0].s);
      case IPv6PrefixField =>
        if !IsPrefixPair(values) { return None; }
        var length := AsInt64(values[1].n);
        if length <= 0 || length > 128 { return None; }
        var parsed := ParseText(ip, values[0].s);
        if parsed.None? || !parsed.value.protocol.IPv6? { return None; }
        return Some(values[0].s + "/" + PrintInt(length));
      case PsidField =>
        if !IsNumberPair(values) { return None; }
        var psid, length := AsInt64(values[0].n), AsInt64(values[1].n);
        if psid <= 0 || psid > 0xFFFF || length <= 0 || length > 0xFF { return None; }
        return Some(PrintInt(values[0].n) + "/" + PrintInt(values[1].n));
      case FqdnField =>
        if !IsText(values) { return None; }
        var fqdn := Fqdn.ParseFqdn(values[0].s);
        if fqdn.None? { return None; }
        return Some(values[0].s);
      case OtherField(_) =>
        return None;
      case _ =>
        if |values| != 1 || !values[0].Whole? || !InRange(t, AsInt64(values[0].n)) { return None; }
        return Some(PrintInt(values[0].n));
    }
  }

  method ParseDHCPOptionField(t: FieldType, s: string, ip: AddressText) returns (field: Option<Field>)
    ensures var values := ParsedValues(t, s, ip);
      field == if values.Some? then Some(Field(t, values.value)) else None
  {
    match t {
      case BoolField =>
        var b := ParseBool(s);
        return if b.Some? then Some(Field(t, [Flag(b.value)])) else None;
      case Uint8Field | Uint16Field | Uint32Field | Int8Field | Int16Field | Int32Field =>
        var n := ParseIntField(t, s);
        if n.None? { return None; }
        ParsedNumbers(t, s);
        return Some(Field(t, [Whole(n.value)]));
      case IPv4AddressField =>
        var parsed := ParseText(ip, s);
        if parsed.None? || !parsed.value.protocol.IPv4? { return None; }
        return Some(Field(t, [Text(s)]));
      case IPv6AddressField =>
        var parsed := ParseText(ip, s);
        if parsed.None? || !parsed.value.protocol.IPv6? || parsed.value.prefix { return None; }
        return Some(Field(t, [Text(s)]));
      case IPv6PrefixField =>
        var parsed := ParseText(ip, s);
        if parsed.None? || !parsed.value.prefix { return None; }
        return Some(Field(t, PrefixValues(ip, parsed.value)));
      case FqdnField =>
        var fqdn := Fqdn.ParseFqdn(s);
        return if fqdn.Some? then Some(Field(t, [Text(s)])) else None;
      case PsidField =>
        var psid := ParsePsid(s);
        if psid.None? { return None; }
        ParsedPsid(s);
        return Some(Field(t, [Whole(psid.value.0), Whole(psid.value.1)]));
      case _ =>
        return Some(Field(t, [Text(s)]));
    }
  }

  // Round trip of one field

  /** An IPv6 address the way it is written, without bits behind the length; a full length makes
      it an address instead of a prefix. */
  predicate IsWrittenPrefix(ip: AddressText, s: string, n: int) {
    && 1 <= n <= 127 && ip.read(s).Some?
    && var b := ip.read(s).value;
    |b| == 128 && !IpPrefixes.IsMapped(b) && IpPrefixes.Mask(b, n) == b && ip.write(b) == s
  }

  /** What a caller can check of a field to know that it survives printing and parsing. */
  ghost predicate Faithful(field: Field, ip: AddressText) {
    var Field(t, values) := field;
    match t
    case StringField => IsText(values) && values[0].s != "" && ',' !in values[0].s && Trimmed(values[0].s)
    case BinaryField =>
      IsText(values) && values[0].s != "" && IsHex(values[0].s)
    case BoolField => |values| == 1 && values[0].Flag?
    case IPv4AddressField => IsText(values) && IsIPv4(ip, values[0].s)
    case IPv6AddressField =>
      IsText(values) && IsIPv6(ip, values[0].s) && !Parse(ip, values[0].s).value.prefix
    case IPv6PrefixField => IsPrefixPair(values) && IsWrittenPrefix(ip, values[0].s, values[1].n)
    case PsidField => IsNumberPair(values) && 0 < values[0].n <= 0xFFFF && 0 < values[1].n <= 0xFF
    case FqdnField => IsText(values) && IsFqdn(values[0].s) && Trimmed(values[0].s)
    case OtherField(_) => false
    case _ => |values| == 1 && values[0].Whole? && InRange(t, values[0].n)
  }

  ghost predicate SurvivesAlone(field: Field, ip: AddressText) {
    && Convertible(field, ip)
    && ',' !in Converted(field, ip)
    && ParsedValues(field.fieldType, Trim(Converted(field, ip)), ip) == Some(field.values)
  }

  lemma IntFieldConversion(field: Field, ip: AddressText)
    requires IsIntField(field.fieldType)
    ensures Convertible(field, ip)
       <==> |field.values| == 1 && field.values[0].Whole? && InRange(field.fieldType, AsInt64(field.values[0].n))
    ensures Convertible(field, ip) ==> Converted(field, ip) == PrintInt(field.values[0].n)
    ensures Faithful(field, ip)
       <==> |field.values| == 1 && field.values[0].Whole? && InRange(field.fieldType, field.values[0].n)
  {
    hide PrintInt, InRange, AsInt64;
  }

  lemma IntFieldParsing(t: FieldType, s: string, n: Number, ip: AddressText)
    requires IsIntField(t)
    requires ParseIntField(t, s) == if InRange(t, n) then Some(n) else None
    ensures ParsedValues(t, s, ip) == if InRange(t, n) then Some([Whole(n)]) else None
  {
    hide ParseIntField, InRange;
  }

  lemma IntFieldSurvives(field: Field, ip: AddressText)
    requires IsIntField(field.fieldType)
    ensures SurvivesAlone(field, ip) <==> Faithful(field, ip)
  {
    hide Convertible, Converted, Faithful, ParsedValues, PrintInt, ParseIntField, Trim, InRange, AsInt64;
    IntFieldConversion(field, ip);
    var Field(t, values) := field;
    if |values| == 1 && values[0].Whole? {
      var n := values[0].n;
      PrintedIsPlain(n);
      TrimProperties(PrintInt(n));
      IntRoundTrip(t, n);
      IntFieldParsing(t, PrintInt(n), n, ip);
      assert values == [Whole(n)];
    }
  }

  lemma IntRoundTrip(t: FieldType, n: Number)
    requires IsIntField(t)
    ensures ParseIntField(t, PrintInt(n)) == if InRange(t, n) then Some(n) else None
    ensures InRange(t, n) ==> AsInt64(n) == n
  {
    hide PrintInt, ParseUint, ParseInt;
    match t {
      case Uint8Field => ParsePrinted(n, 0xFF);
      case Uint16Field => ParsePrinted(n, 0xFFFF);
      case Uint32Field => ParsePrinted(n, 0xFFFF_FFFF);
      case Int8Field => ParsePrinted(n, 0x7F);
      case Int16Field => ParsePrinted(n, 0x7FFF);
      case Int32Field => ParsePrinted(n, 0x7FFF_FFFF);
    }
  }

  lemma StringFieldSurvives(field: Field, ip: AddressText)
    requires field.fieldType == StringField
    ensures SurvivesAlone(field, ip) <==> Faithful(field, ip)
  {
    hide Trim, Trimmed;
    if IsText(field.values) {
      TrimProperties(field.values[0].s);
      assert field.values == [Text(field.values[0].s)];
    }
  }

  lemma HexIsPlain(s: string)
    requires IsHex(s)
    ensures ',' !in s && Trimmed(s) && forall c :: c in s ==> c !in ": "
  {
    forall c | c in s ensures c !in ",: " && !IsSpace(c) {
      assert IsDigit(c) || 'a' <= c <= 'f' || 'A' <= c <= 'F';
    }
  }

  lemma BinaryFieldSurvives(field: Field, ip: AddressText)
    requires field.fieldType == BinaryField
    ensures SurvivesAlone(field, ip) <==> Faithful(field, ip)
  {
    hide Trim, Trimmed, IsHex, Without;
    if IsText(field.values) {
      var s := field.values[0].s;
      var stripped := Without(s, ": ");
      if IsHex(stripped) {
        HexIsPlain(stripped);
        TrimProperties(stripped);
      }
      if IsHex(s) {
        HexIsPlain(s);
        WithoutMeaning(s, ": ");
      }
      assert field.values == [Text(s)];
    }
  }

  lemma AddressFieldSurvives(field: Field, ip: AddressText)
    requires field.fieldType in {IPv4AddressField, IPv6AddressField} && IsSound(ip)
    ensures SurvivesAlone(field, ip) <==> Faithful(field, ip)
  {
    hide Trim, Trimmed, Parse;
    if IsText(field.values) {
      var s := field.values[0].s;
      if Parse(ip, s).Some? {
        ParsedIsPlain(ip, s);
        TrimProperties(s);
      }
      assert field.values == [Text(s)];
    }
  }

  lemma BoolFieldSurvives(field: Field, ip: AddressText)
    requires field.fieldType == BoolField
    ensures SurvivesAlone(field, ip) <==> Faithful(field, ip)
  {
    hide Trim;
    TrimProperties("true");
    TrimProperties("false");
    assert Trimmed("true") && Trimmed("false");
    if |field.values| == 1 && field.values[0].Flag? {
      assert field.values == [Flag(field.values[0].b)];
    }
  }

  lemma {:induction false} JoinWithout(labels: seq<string>, c: char)
    requires c != '.' && forall l :: l in labels ==> c !in l
    ensures c !in Join(labels, '.')
  {
    if |labels| > 1 {
      JoinWithout(labels[1..], c);
    }
  }

  /** Names consist of letters, digits, hyphens and dots. */
  lemma NameHasNo(s: string, c: char)
    requires IsFqdn(s) && c in ",/"
    ensures c !in s
  {
    hide Trim, Fqdn.IsTopLabel, Fqdn.IsLabel;
    var f :| Fqdn.Accepted(f) && Fqdn.Text(f) == Trim(s);
    forall l | l in f.labels ensures c !in l {
      LabelHasNo(l, c);
    }
    JoinWithout(f.labels, c);
    KeptByTrim(s, c);
  }

  lemma LabelHasNo(l: string, c: char)
    requires (Fqdn.IsTopLabel(l) || Fqdn.IsLabel(l)) && c in ",/"
    ensures c !in l
  {
  }

  lemma KeptByTrim(s: string, c: char)
    requires !IsSpace(c)
    ensures c in s ==> c in Trim(s)
  {
    if c in s {
      var i :| 0 <= i < |s| && s[i] == c;
      var l := TrimLeft(s);
      TrimLeftMeaning(s);
      TrimRightMeaning(l);
      assert l[i - (|s| - |l|)] == c;
      var t := TrimRight(l);
      assert t[i - (|s| - |l|)] == c;
    }
  }

  lemma FqdnFieldSurvives(field: Field, ip: AddressText)
    requires field.fieldType == FqdnField
    ensures SurvivesAlone(field, ip) <==> Faithful(field, ip)
  {
    hide Trim, Trimmed;
    if IsText(field.values) && IsFqdn(field.values[0].s) {
      var s := field.values[0].s;
      NameHasNo(s, ',');
      TrimProperties(s);
      TrimProperties(Trim(s));
      assert Trim(Trim(s)) == Trim(s);
      assert IsFqdn(Trim(s));
      assert field.values == [Text(s)];
    }
  }

  lemma JoinedIsPlain(s: string, n: int)
    requires ',' !in s && Trimmed(s) && s != "" && n >= 0
    ensures var t := s + "/" + PrintInt(n); ',' !in t && Trim(t) == t
  {
    PrintedIsPlain(n);
    var t := s + "/" + PrintInt(n);
    assert t[0] == s[0] && t[|t| - 1] == PrintInt(n)[|PrintInt(n)| - 1];
    TrimProperties(t);
  }

  /** Masking does not turn an address into a mapped one. */
  lemma MaskedIsNotMapped(b: IpPrefixes.Bits, n: nat)
    requires |b| == 128 && n <= 128 && !IpPrefixes.IsMapped(b)
    ensures !IpPrefixes.IsMapped(IpPrefixes.Mask(b, n))
  {
    var m := IpPrefixes.Mask(b, n);
    if n < 96 {
      assert !m[..96][95] && IpPrefixes.MappedPrefix()[95];
    } else {
      assert m[..96] == m[..n][..96] == b[..n][..96] == b[..96];
    }
  }

  lemma AllPrinted(n: nat)
    ensures AllDigits(PrintInt(n)) && DigitsValue(PrintInt(n)) == n
  {
    DecimalValue(n);
  }

  /** Reading a printed prefix gives the printed values if and only if the address is written
      the usual way and the length is that of a prefix. */
  lemma PrefixRoundTrip(ip: AddressText, s: string, n: nat)
    requires IsSound(ip) && IsIPv6(ip, s) && 0 < n <= 128
    ensures var p := Parse(ip, s + "/" + PrintInt(n));
      p.Some? && p.value.prefix && PrefixValues(ip, p.value) == [Text(s), Whole(n)] <==> IsWrittenPrefix(ip, s, n)
  {
    hide AllDigits, DigitsValue, PrintInt, Split, Trimmed;
    AllPrinted(n);
    ReadPrefix(ip, s, PrintInt(n));
    if ip.read(s).Some? {
      ReadAddress(ip, s);
      var b := ip.read(s).value;
      ShortIsMapped(b);
      MaskedIsNotMapped(b, n);
    }
  }

  lemma ShortIsMapped(b: Address)
    ensures |b| == 32 ==> IpPrefixes.IsMapped(IpPrefixes.To16(b))
  {
    if |b| == 32 {
      assert IpPrefixes.To16(b)[..96] == IpPrefixes.MappedPrefix();
    }
  }

  lemma PrefixFieldSurvives(field: Field, ip: AddressText)
    requires field.fieldType == IPv6PrefixField && IsSound(ip)
    ensures SurvivesAlone(field, ip) <==> Faithful(field, ip)
  {
    hide Trim, Trimmed, PrintInt, Parse, IsWrittenPrefix, Read;
    if Convertible(field, ip) {
      var s, n := field.values[0].s, field.values[1].n;
      ParsedIsPlain(ip, s);
      JoinedIsPlain(s, n);
      PrefixRoundTrip(ip, s, n);
      assert field.values == [Text(s), Whole(n)];
    } else if IsPrefixPair(field.values) && IsWrittenPrefix(ip, field.values[0].s, field.values[1].n) {
      WrittenIsIPv6(ip, field.values[0].s, field.values[1].n);
    }
  }

  lemma WrittenIsIPv6(ip: AddressText, s: string, n: int)
    requires IsSound(ip) && IsWrittenPrefix(ip, s, n)
    ensures IsIPv6(ip, s) && 1 <= n <= 127
  {
    hide Trimmed;
    ReadAddress(ip, s);
  }

  lemma PrintedPsid(p: nat, l: nat)
    ensures ParsePsid(PrintInt(p) + "/" + PrintInt(l))
         == if p <= 0xFFFF && l <= 0xFF then Some((p, l)) else None
  {
    hide PrintInt, ParseUint;
    PrintedIsPlain(p);
    PrintedIsPlain(l);
    ParsePrinted(p, 0xFFFF);
    ParsePrinted(l, 0xFF);
    SplitFirst(PrintInt(p), PrintInt(l), '/');
    SplitWhole(PrintInt(l), '/');
    assert Split(PrintInt(p) + "/" + PrintInt(l), '/') == [PrintInt(p), PrintInt(l)];
  }

  lemma PsidFieldSurvives(field: Field, ip: AddressText)
    requires field.fieldType == PsidField
    ensures SurvivesAlone(field, ip) <==> Faithful(field, ip)
  {
    hide Trim, Trimmed, PrintInt, ParsePsid, IsFqdn;
    if Convertible(field, ip) {
      var p, l := field.values[0].n, field.values[1].n;
      PrintedPsid(p, l);
      PrintedIsPlain(p);
      JoinedIsPlain(PrintInt(p), l);
      assert field.values == [Whole(p), Whole(l)];
    }
  }

  /** A single field survives printing and parsing, and stays clear of the separators,
      exactly when it is faithful. */
  lemma FieldRoundTrip(field: Field, ip: AddressText)
    requires IsSound(ip)
    ensures SurvivesAlone(field, ip) <==> Faithful(field, ip)
  {
    hide SurvivesAlone;
    match field.fieldType {
      case StringField => StringFieldSurvives(field, ip);
      case BinaryField => BinaryFieldSurvives(field, ip);
      case BoolField => BoolFieldSurvives(field, ip);
      case IPv4AddressField | IPv6AddressField => AddressFieldSurvives(field, ip);
      case IPv6PrefixField => PrefixFieldSurvives(field, ip);
      case PsidField => PsidFieldSurvives(field, ip);
      case FqdnField => FqdnFieldSurvives(field, ip);
      case OtherField(_) => OtherFieldFails(field, ip);
      case _ => IntFieldSurvives(field, ip);
    }
  }

  /** Of the numbers, 0 and 1 are truth values, and no others. */
  lemma TruthNumbers(n: nat)
    ensures ParseBool(Decimal(n)) == if n == 0 then Some(false) else if n == 1 then Some(true) else None
  {
    if n >= 10 {
      assert |Decimal(n)| >= 2;
      assert Decimal(n)[0] in Decimal(n) && IsDigit(Decimal(n)[0]);
    } else {
      assert Decimal(n) == [DigitChar(n)];
    }
  }

  // What is printed against what is parsed

  /** A number is printed exactly when its text is valid for the type; and numbers beyond the
      signed 64 bit range, of which the bits are taken, as the numbers they wrap around to. */
  lemma NumberPrinted(t: FieldType, n: Number, ip: AddressText)
    requires IsIntField(t)
    ensures n < 0x8000_0000_0000_0000 ==>
      (Convertible(Field(t, [Whole(n)]), ip) <==> ParsedValues(t, PrintInt(n), ip) == Some([Whole(n)]))
    ensures n >= 0x8000_0000_0000_0000 ==>
      (Convertible(Field(t, [Whole(n)]), ip)
       <==> Convertible(Field(t, [Whole(n - 0x1_0000_0000_0000_0000)]), ip))
  {
    hide PrintInt, ParseIntField;
    IntRoundTrip(t, n);
  }

  /** A text is printed as an address or a name exactly when it is valid for the type, except that
      prefixes are printed for addresses. */
  lemma TextPrinted(s: string, ip: AddressText)
    ensures Convertible(Field(StringField, [Text(s)]), ip) <==> s != ""
    ensures Convertible(Field(IPv4AddressField, [Text(s)]), ip) <==> ParsedValues(IPv4AddressField, s, ip).Some?
    ensures Convertible(Field(IPv6AddressField, [Text(s)]), ip)
       <==> || ParsedValues(IPv6AddressField, s, ip).Some?
            || (ParsedValues(IPv6PrefixField, s, ip).Some? && ParsedValues(IPv4AddressField, s, ip).None?)
    ensures Convertible(Field(FqdnField, [Text(s)]), ip) <==> ParsedValues(FqdnField, s, ip).Some?
  {
    hide Parse, Trim;
  }

  /** A pair is printed exactly when its text is valid, except that a port set identifier has no zero
      part; and for a prefix, when the address is that of a prefix or an address and the length is
      possible. */
  lemma PairPrinted(p: Number, l: Number, s: string, ip: AddressText)
    requires p < 0x8000_0000_0000_0000 && l < 0x8000_0000_0000_0000
    ensures Convertible(Field(PsidField, [Whole(p), Whole(l)]), ip)
       <==> p > 0 && l > 0 && ParsedValues(PsidField, PrintInt(p) + "/" + PrintInt(l), ip) == Some([Whole(p), Whole(l)])
    ensures Convertible(Field(IPv6PrefixField, [Text(s), Whole(l)]), ip)
       <==> 1 <= l <= 128 && Convertible(Field(IPv6AddressField, [Text(s)]), ip)
  {
    hide PrintInt, ParsePsid, Parse;
    if p >= 0 && l >= 0 {
      PrintedPsid(p, l);
    }
  }

  lemma OtherFieldFails(field: Field, ip: AddressText)
    requires field.fieldType.OtherField?
    ensures !SurvivesAlone(field, ip) && !Faithful(field, ip)
  {
  }

  // Fields without a definition

  /** Whether the text is a name that ends with a dot. */
  ghost predicate IsFullName(s: string) {
    exists f :: Fqdn.Accepted(f) && Fqdn.Text(f) == Trim(s) && !f.partial
  }

  /** The field that a text is taken for when nothing tells its type. */
  ghost function Inferred(s: string, ip: AddressText): Field {
    if ParseBool(s).Some? then Field(BoolField, [Flag(ParseBool(s).value)])
    else if ParseUint(s, 0xFFFF_FFFF).Some? then Field(Uint32Field, [Whole(ParseUint(s, 0xFFFF_FFFF).value)])
    else if ParseInt(s, 0x7FFF_FFFF).Some? then
      ParsedNumbers(Int32Field, s);
      Field(Int32Field, [Whole(ParseInt(s, 0x7FFF_FFFF).value)])
    else if IsIPv4(ip, s) then Field(IPv4AddressField, [Text(s)])
    else if IsIPv6(ip, s) then
      (if Parse(ip, s).value.prefix then Field(IPv6PrefixField, PrefixValues(ip, Parse(ip, s).value))
       else Field(IPv6AddressField, [Text(s)]))
    else if IsFullName(s) then Field(FqdnField, [Text(s)])
    else if ParsePsid(s).Some? then
      ParsedPsid(s);
      Field(PsidField, [Whole(ParsePsid(s).value.0), Whole(ParsePsid(s).value.1)])
    else Field(StringField, [Text(s)])
  }

  method InferDHCPOptionField(s: string, ip: AddressText) returns (field: Field)
    ensures field == Inferred(s, ip)
  {
    hide Parse, ParseUint, ParseInt, ParseBool, ParsePsid;
    var b := ParseBool(s);
    if b.Some? {
      return Field(BoolField, [Flag(b.value)]);
    }
    var unsigned := ParseIntField(Uint32Field, s);
    if unsigned.Some? {
      ParsedNumbers(Uint32Field, s);
      return Field(Uint32Field, [Whole(unsigned.value)]);
    }
    var signed := ParseIntField(Int32Field, s);
    if signed.Some? {
      ParsedNumbers(Int32Field, s);
      return Field(Int32Field, [Whole(signed.value)]);
    }
    var parsed := ParseText(ip, s);
    if parsed.Some? {
      match parsed.value.protocol {
        case IPv4 =>
          return Field(IPv4AddressField, [Text(s)]);
        case IPv6 =>
          if parsed.value.prefix {
            return Field(IPv6PrefixField, PrefixValues(ip, parsed.value));
          }
          return Field(IPv6AddressField, [Text(s)]);
      }
    }
    var fqdn := Fqdn.ParseFqdn(s);
    if fqdn.Some? && !fqdn.value.partial {
      return Field(FqdnField, [Text(s)]);
    }
    OnlyFullName(s, fqdn);
    var psid := ParsePsid(s);
    if psid.Some? {
      ParsedPsid(s);
      return Field(PsidField, [Whole(psid.value.0), Whole(psid.value.1)]);
    }
    return Field(StringField, [Text(s)]);
  }

  lemma OnlyFullName(s: string, parsed: Option<Fqdn.Fqdn>)
    requires parsed.Some? ==> Fqdn.Accepted(parsed.value) && Fqdn.Text(parsed.value) == Trim(s)
    requires parsed.None? ==> forall f :: Fqdn.Accepted(f) ==> Fqdn.Text(f) != Trim(s)
    ensures IsFullName(s) <==> parsed.Some? && !parsed.value.partial
  {
    hide Trim;
    forall f | Fqdn.Accepted(f) && Fqdn.Text(f) == Trim(s) ensures parsed == Some(f) {
      Fqdn.TextIsInjective(f, parsed.value);
    }
  }

  /** An inferred field has the values that the text has when it is parsed for that type. */
  lemma InferredIsParsed(s: string, ip: AddressText)
    ensures ParsedValues(Inferred(s, ip).fieldType, s, ip) == Some(Inferred(s, ip).values)
  {
    hide Parse, ParseUint, ParseInt, ParseBool, ParsePsid, Trim;
    if IsFullName(s) {
      assert IsFqdn(s);
    }
  }

  /** What has a slash is neither a truth value nor a number. */
  lemma PsidHasSlash(s: string)
    requires ParsePsid(s).Some?
    ensures '/' in s && ParseBool(s).None? && ParseUint(s, 0xFFFF_FFFF).None? && ParseInt(s, 0x7FFF_FFFF).None?
  {
    hide ParseBool, AllDigits;
    JoinSplit(s, '/');
    var parts := Split(s, '/');
    assert parts == [parts[0], parts[1]];
    hide Split;
    assert s == parts[0] + ['/'] + parts[1];
    SlashIsNoDigit(s);
    SlashIsNoBool(s);
    if s[0] in "+-" {
      assert s == [s[0]] + s[1..];
      SlashIsNoDigit(s[1..]);
    }
  }

  lemma SlashIsNoDigit(s: string)
    requires '/' in s
    ensures !AllDigits(s)
  {
  }

  lemma SlashIsNoBool(s: string)
    requires '/' in s
    ensures ParseBool(s).None?
  {
  }

  lemma EmptyIsText(ip: AddressText)
    requires IsSound(ip)
    ensures Inferred("", ip) == Field(StringField, [Text("")])
  {
    hide Parse, Trim;
    if Parse(ip, "").Some? {
      ParsedIsPlain(ip, "");
    }
    TrimProperties("");
    forall f | Fqdn.Accepted(f) ensures Fqdn.Text(f) != Trim("") {
      Fqdn.TextEnds(f);
    }
  }

  /** The prefix found in a text is written in a way that can be printed again. */
  lemma InferredPrefix(s: string, ip: AddressText)
    requires IsSound(ip) && IsIPv6(ip, s) && Parse(ip, s).value.prefix
    ensures var p := Parse(ip, s).value;
      p.prefixLength > 0 && IsIPv6(ip, ip.write(p.networkPrefix))
  {
    hide Split, AllDigits, DigitsValue, Trimmed;
    var n := Read(ip, s).value;
    ShortIsMapped(n.bits);
    MaskedIsNotMapped(n.bits, n.length);
    ReadAddress(ip, ip.write(Parse(ip, s).value.networkPrefix));
  }

  /** An inferred field can be printed if and only if the text is not empty and was not taken for
      a port set identifier of which one part is zero. */
  lemma InferredIsConvertible(s: string, ip: AddressText)
    requires IsSound(ip)
    ensures Convertible(Inferred(s, ip), ip)
       <==> && s != ""
            && (Parse(ip, s).None? && ParsePsid(s).Some? ==> ParsePsid(s).value.0 > 0 && ParsePsid(s).value.1 > 0)
  {
    hide Parse, Trim, Split, ParseBool, ParsePsid, ParseUint, ParseInt, IsSound;
    if s == "" {
      EmptyIsText(ip);
    } else {
      if ParsePsid(s).Some? {
        PsidHasSlash(s);
      }
      if IsFullName(s) {
        assert IsFqdn(s);
        NameHasNo(s, '/');
      }
      if IsIPv6(ip, s) && Parse(ip, s).value.prefix {
        InferredPrefix(s, ip);
      }
      NumbersFit(s);
    }
  }

  lemma NumbersFit(s: string)
    ensures ParseUint(s, 0xFFFF_FFFF).Some? ==> ParseUint(s, 0xFFFF_FFFF).value <= 0xFFFF_FFFF
    ensures ParseInt(s, 0x7FFF_FFFF).Some? ==> -0x8000_0000 <= ParseInt(s, 0x7FFF_FFFF).value <= 0x7FFF_FFFF
    ensures ParsePsid(s).Some? ==> ParsePsid(s).value.0 <= 0xFFFF && ParsePsid(s).value.1 <= 0xFF
  {
    hide AllDigits, DigitsValue, Split;
  }

  /** Whether a text is valid for a type. */
  ghost predicate Fits(t: FieldType, s: string, ip: AddressText) {
    ParsedValues(t, s, ip).Some?
  }

  ghost predicate FitsNumber(s: string, ip: AddressText) {
    Fits(BoolField, s, ip) || Fits(Uint32Field, s, ip) || Fits(Int32Field, s, ip)
  }

  ghost predicate FitsAddress(s: string, ip: AddressText) {
    Fits(IPv4AddressField, s, ip) || Fits(IPv6AddressField, s, ip) || Fits(IPv6PrefixField, s, ip)
  }

  predicate EndsWithDot(s: string) {
    s != "" && s[|s| - 1] == '.'
  }

  /** Which texts are taken for which type: each type gets the texts that are valid for it and for
      none of the types before it, and of the names only those that end with a dot. */
  lemma InferredTypes(s: string, ip: AddressText)
    ensures var t := Inferred(s, ip).fieldType;
      && (t == BoolField <==> Fits(BoolField, s, ip))
      && (t == Uint32Field <==> Fits(Uint32Field, s, ip) && !Fits(BoolField, s, ip))
      && (t == Int32Field <==> Fits(Int32Field, s, ip) && !Fits(BoolField, s, ip) && !Fits(Uint32Field, s, ip))
      && (t == IPv4AddressField <==> Fits(IPv4AddressField, s, ip) && !FitsNumber(s, ip))
      && (t == IPv6PrefixField <==>
            Fits(IPv6PrefixField, s, ip) && !FitsNumber(s, ip) && !Fits(IPv4AddressField, s, ip))
      && (t == IPv6AddressField <==> Fits(IPv6AddressField, s, ip) && !FitsNumber(s, ip))
    ensures var t, full := Inferred(s, ip).fieldType, Fits(FqdnField, s, ip) && EndsWithDot(Trim(s));
      && (t == FqdnField <==> full && !FitsNumber(s, ip) && !FitsAddress(s, ip))
      && (t == PsidField <==> Fits(PsidField, s, ip) && !FitsNumber(s, ip) && !FitsAddress(s, ip) && !full)
      && (t == StringField <==> !Fits(PsidField, s, ip) && !FitsNumber(s, ip) && !FitsAddress(s, ip) && !full)
  {
    hide Parse, ParseUint, ParseInt, ParseBool, ParsePsid, Trim, IsFqdn, IsFullName, EndsWithDot;
    FullNameEndsWithDot(s);
  }

  lemma FullNameEndsWithDot(s: string)
    ensures IsFullName(s) <==> IsFqdn(s) && EndsWithDot(Trim(s))
  {
    hide Trim;
    forall f | Fqdn.Accepted(f) && Fqdn.Text(f) == Trim(s)
      ensures Trim(s) != "" && (Trim(s)[|Trim(s)| - 1] == '.' <==> !f.partial)
    {
      Fqdn.TextEnds(f);
    }
  }

  /** Signs and leading zeros: a number may have one sign, and a negative number has it. */
  lemma SignedNumbers(digits: string, max: nat)
    requires AllDigits(digits)
    ensures var n: int := DigitsValue(digits);
      && ParseUint(digits, max) == IfWithin(0, n, max)
      && ParseInt(digits, max) == IfWithin(-1 - max, n, max)
      && ParseInt("+" + digits, max) == IfWithin(-1 - max, n, max)
      && ParseInt("-" + digits, max) == IfWithin(-1 - max, -n, max)
      && ParseUint("+" + digits, max) == None && ParseUint("-" + digits, max) == None
  {
    hide DigitsValue;
    assert IsDigit(digits[0]);
    assert ("+" + digits)[1..] == digits && ("-" + digits)[1..] == digits;
    assert !IsDigit(("+" + digits)[0]) && !IsDigit(("-" + digits)[0]);
  }
}
