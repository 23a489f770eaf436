/** Converting DHCP options to and from comma separated values, guided by option definitions
    (appcfg/kea/option.go, optiondef.go). */
module Options {
  import opened Wrappers
  import opened Texts
  import opened IpText
  import opened OptionFields

  datatype OptionType = EmptyOption | RecordOption | SingleOption(fieldType: FieldType)

  datatype Definition = Definition(isArray: bool, recordTypes: seq<FieldType>, optionType: OptionType)

  /** The type of the field at a position: none behind the end, and over and over again the
      same in arrays. */
  function FieldTypeAt(def: Definition, position: nat): Option<FieldType> {
    match def.optionType
    case EmptyOption => None
    case RecordOption =>
      if |def.recordTypes| == 0 || (!def.isArray && position > |def.recordTypes| - 1) then None
      else Some(def.recordTypes[position % |def.recordTypes|])
    case SingleOption(t) => if position > 0 && !def.isArray then None else Some(t)
  }

  /** A single type applies at the beginning, a record's types one after another. In an array
      they apply over and over again; otherwise nothing applies behind them. */
  lemma DefinedTypes(def: Definition, position: nat)
    ensures def.optionType.SingleOption? ==>
      FieldTypeAt(def, position) == if position == 0 || def.isArray then Some(def.optionType.fieldType) else None
    ensures def.optionType.RecordOption? ==>
      var n := |def.recordTypes|;
      && (position < n ==> FieldTypeAt(def, position) == Some(def.recordTypes[position]))
      && (position >= n ==>
            FieldTypeAt(def, position) == if n > 0 && def.isArray then FieldTypeAt(def, position - n) else None)
    ensures def.optionType.EmptyOption? ==> FieldTypeAt(def, position) == None
  {
    if def.optionType.RecordOption? && |def.recordTypes| > 0 {
      var n := |def.recordTypes|;
      if position >= n {
        SameRemainder(position, n);
      } else {
        SmallRemainder(position, n);
      }
    }
  }

  lemma SmallRemainder(i: nat, n: nat)
    requires i < n
    ensures i % n == i
  {
  }

  lemma SameRemainder(i: nat, n: nat)
    requires 0 < n <= i
    ensures i % n == (i - n) % n
  {
    var j := i - n;
    var d := i / n - j / n - 1;
    assert n * d == j % n - i % n by {
      assert i == n * (i / n) + i % n && j == n * (j / n) + j % n;
      Distribute(n, i / n, j / n);
    }
    SmallMultiple(n, d);
  }

  lemma Distribute(n: int, a: int, b: int)
    ensures n * (a - b - 1) == n * a - n * b - n
  {
  }

  lemma SmallMultiple(n: int, d: int)
    requires -n < n * d < n
    ensures d == 0
  {
    MultipleIsLarge(n, d);
  }

  lemma MultipleIsLarge(n: int, d: int)
    requires n > 0
    ensures d >= 1 ==> n * d >= n
    ensures d <= -1 ==> n * d <= -n
  {
  }

  // Printing

  ghost predicate AllConvertible(fields: seq<Field>, ip: AddressText) {
    forall f :: f in fields ==> Convertible(f, ip)
  }

  ghost function AllConverted(fields: seq<Field>, ip: AddressText): (texts: seq<string>)
    requires AllConvertible(fields, ip)
    ensures |texts| == |fields| && forall i :: 0 <= i < |fields| ==> texts[i] == Converted(fields[i], ip)
  {
    seq(|fields|, i requires 0 <= i < |fields| => Converted(fields[i], ip))
  }

  /** The data of an option that has a definition. */
  method CreateSingleOptionData(fields: seq<Field>, ip: AddressText) returns (data: Option<string>)
    ensures data == if AllConvertible(fields, ip) then Some(Join(AllConverted(fields, ip), ',')) else None
  {
    hide Convertible, Converted;
    var converted: seq<string> := [];
    for i := 0 to |fields|
      invariant |converted| == i
      invariant forall j :: 0 <= j < i ==>
        Convertible(fields[j], ip) && converted[j] == Converted(fields[j], ip)
    {
      var value := ConvertField(fields[i], ip);
      if value.None? {
        assert fields[i] in fields;
        return None;
      }
      converted := converted + [value.value];
    }
    assert converted == AllConverted(fields, ip);
    return Some(Join(converted, ','));
  }

  // Parsing

  /** The fields that values from a position on are parsed to. Values without a field type end
      the list; a value that is not valid for its type is an error. */
  ghost function ParsedFrom(values: seq<string>, def: Definition, position: nat, ip: AddressText): Option<seq<Field>> {
    if values == [] || FieldTypeAt(def, position).None? then Some([])
    else
      var t := FieldTypeAt(def, position).value;
      var parsed := ParsedValues(t, Trim(values[0]), ip);
      var rest := ParsedFrom(values[1..], def, position + 1, ip);
      if parsed.None? || rest.None? then None else Some([Field(t, parsed.value)] + rest.value)
  }

  ghost function ParsedOption(data: string, def: Definition, ip: AddressText): Option<seq<Field>> {
    if Trim(data) == "" || def.optionType.EmptyOption? then Some([])
    else ParsedFrom(Split(Trim(data), ','), def, 0, ip)
  }

  lemma ParsedNext(values: seq<string>, def: Definition, i: nat, ip: AddressText)
    requires i < |values|
    ensures FieldTypeAt(def, i).None? ==> ParsedFrom(values[i..], def, i, ip) == Some([])
    ensures FieldTypeAt(def, i).Some? ==>
      var t := FieldTypeAt(def, i).value;
      var parsed := ParsedValues(t, Trim(values[i]), ip);
      var rest := ParsedFrom(values[i + 1..], def, i + 1, ip);
      ParsedFrom(values[i..], def, i, ip)
      == if parsed.None? || rest.None? then None else Some([Field(t, parsed.value)] + rest.value)
  {
    hide FieldTypeAt, ParsedValues, Trim;
    assert values[i..][1..] == values[i + 1..];
  }

  /** A field that a value is parsed to at a position with a type. */
  ghost predicate FieldFits(field: Field, value: string, t: Option<FieldType>, ip: AddressText) {
    t == Some(field.fieldType) && ParsedValues(field.fieldType, Trim(value), ip) == Some(field.values)
  }

  /** The fields are those of the first values, one by one. */
  ghost predicate FieldsFit(fields: seq<Field>, values: seq<string>, def: Definition, position: nat, ip: AddressText) {
    && |fields| <= |values|
    && forall i :: 0 <= i < |fields| ==> FieldFits(fields[i], values[i], FieldTypeAt(def, position + i), ip)
  }

  /** What parsing gives, value by value: a field for each value that the definition has a type for,
      of that type and with the values that the trimmed text has for it; and nothing at all if one
      of these texts is not valid. Values behind the last type are ignored. */
  lemma {:induction false} ParsedFields(values: seq<string>, def: Definition, position: nat, ip: AddressText,
                                        fields: seq<Field>)
    ensures ParsedFrom(values, def, position, ip) == Some(fields)
       <==> && FieldsFit(fields, values, def, position, ip)
            && (|fields| < |values| ==> FieldTypeAt(def, position + |fields|) == None)
    decreases |values|
  {
    hide FieldTypeAt, ParsedValues, Trim, ParsedFrom, FieldsFit;
    if values == [] {
      NothingParsed(values, def, position, ip);
      FewFields(fields, values, def, position, ip);
    } else if fields == [] {
      FewFields(fields, values, def, position, ip);
      EmptyResult(values, def, position, ip);
    } else {
      var rest := fields[1..];
      assert values == [values[0]] + values[1..] && fields == [fields[0]] + rest;
      ParsedHead(values[0], values[1..], fields[0], rest, def, position, ip);
      ParsedFields(values[1..], def, position + 1, ip, rest);
      FieldsShift(fields, values, def, position, ip);
    }
  }

  lemma EmptyResult(values: seq<string>, def: Definition, position: nat, ip: AddressText)
    requires values != []
    ensures ParsedFrom(values, def, position, ip) == Some([]) <==> FieldTypeAt(def, position) == None
  {
    hide FieldTypeAt, ParsedValues, Trim;
  }

  lemma FewFields(fields: seq<Field>, values: seq<string>, def: Definition, position: nat, ip: AddressText)
    requires fields == [] || values == []
    ensures FieldsFit(fields, values, def, position, ip) <==> fields == []
  {
  }

  lemma FieldsShift(fields: seq<Field>, values: seq<string>, def: Definition, position: nat, ip: AddressText)
    requires fields != [] && values != []
    ensures FieldsFit(fields, values, def, position, ip)
       <==> && FieldFits(fields[0], values[0], FieldTypeAt(def, position), ip)
            && FieldsFit(fields[1..], values[1..], def, position + 1, ip)
  {
    hide FieldTypeAt, FieldFits;
    var f, v := fields[1..], values[1..];
    assert forall i :: 0 <= i < |f| ==> f[i] == fields[i + 1];
    assert forall i :: 0 <= i < |v| ==> v[i] == values[i + 1];
    if FieldsFit(fields, values, def, position, ip) {
      forall i | 0 <= i < |f| ensures FieldFits(f[i], v[i], FieldTypeAt(def, position + 1 + i), ip) {
        assert FieldFits(fields[i + 1], values[i + 1], FieldTypeAt(def, position + (i + 1)), ip);
      }
    }
    if FieldFits(fields[0], values[0], FieldTypeAt(def, position), ip) && FieldsFit(f, v, def, position + 1, ip) {
      forall i | 0 <= i < |fields| ensures FieldFits(fields[i], values[i], FieldTypeAt(def, position + i), ip) {
        if i > 0 {
          assert FieldFits(f[i - 1], v[i - 1], FieldTypeAt(def, position + 1 + (i - 1)), ip);
        }
      }
    }
  }

  /** The fields read before a position, with those still to be read. */
  ghost predicate Goes(fields: seq<Field>, rest: Option<seq<Field>>, all: Option<seq<Field>>) {
    if rest.None? then all.None? else all == Some(fields + rest.value)
  }

  /** Parses values as their definition tells. */
  method ParseDefined(values: seq<string>, def: Definition, ip: AddressText) returns (fields: Option<seq<Field>>)
    ensures fields == ParsedFrom(values, def, 0, ip)
  {
    hide FieldTypeAt, ParsedValues, Trim, ParsedFrom;
    var read: seq<Field> := [];
    ghost var all := ParsedFrom(values, def, 0, ip);
    assert values[0..] == values;
    assert all.Some? ==> read + all.value == all.value;
    for i := 0 to |values|
      invariant Goes(read, ParsedFrom(values[i..], def, i, ip), all)
    {
      ParsedNext(values, def, i, ip);
      var t := FieldTypeAt(def, i);
      if t.None? {
        assert read + [] == read;
        return Some(read);
      }
      var field := ParseDHCPOptionField(t.value, Trim(values[i]), ip);
      if field.None? {
        return None;
      }
      ghost var rest := ParsedFrom(values[i + 1..], def, i + 1, ip);
      assert rest.Some? ==> read + ([field.value] + rest.value) == (read + [field.value]) + rest.value;
      read := read + [field.value];
    }
    NothingParsed(values[|values|..], def, |values|, ip);
    assert read + [] == read;
    return Some(read);
  }

  /** Infers the type of each value. */
  method ParseUndefined(values: seq<string>, ip: AddressText) returns (fields: seq<Field>)
    ensures |fields| == |values|
    ensures forall i :: 0 <= i < |values| ==> fields[i] == Inferred(Trim(values[i]), ip)
  {
    hide Trim, Inferred;
    fields := [];
    for i := 0 to |values|
      invariant |fields| == i && forall j :: 0 <= j < i ==> fields[j] == Inferred(Trim(values[j]), ip)
    {
      var field := InferDHCPOptionField(Trim(values[i]), ip);
      fields := fields + [field];
    }
  }

  /** The fields of an option given as comma separated values. */
  method CreateDHCPOption(data: string, def: Option<Definition>, ip: AddressText) returns (fields: Option<seq<Field>>)
    ensures def.Some? ==> fields == ParsedOption(data, def.value, ip)
    ensures def.Some? && (Trim(data) == "" || def.value.optionType.EmptyOption?) ==> fields == Some([])
    ensures def.Some? && Trim(data) != "" && !def.value.optionType.EmptyOption? ==>
      var values := Split(Trim(data), ',');
      forall fs :: fields == Some(fs)
        <==> && FieldsFit(fs, values, def.value, 0, ip)
             && (|fs| < |values| ==> FieldTypeAt(def.value, |fs|) == None)
    ensures def.None? && Trim(data) == "" ==> fields == Some([])
    ensures def.None? && Trim(data) != "" ==>
      var values := Split(Trim(data), ',');
      && fields.Some? && |fields.value| == |values|
      && forall i :: 0 <= i < |values| ==> fields.value[i] == Inferred(Trim(values[i]), ip)
  {
    hide Trim, Split, ParsedFrom, Inferred, FieldsFit, FieldTypeAt;
    var trimmed := Trim(data);
    if |trimmed| == 0 || (def.Some? && def.value.optionType.EmptyOption?) {
      return Some([]);
    }
    var values := Split(trimmed, ',');
    if def.Some? {
      fields := ParseDefined(values, def.value, ip);
      forall fs
        ensures fields == Some(fs)
           <==> && FieldsFit(fs, values, def.value, 0, ip)
                && (|fs| < |values| ==> FieldTypeAt(def.value, |fs|) == None)
      {
        ParsedFields(values, def.value, 0, ip, fs);
      }
    } else {
      var inferred := ParseUndefined(values, ip);
      fields := Some(inferred);
    }
  }

  lemma NothingParsed(values: seq<string>, def: Definition, position: nat, ip: AddressText)
    requires values == []
    ensures ParsedFrom(values, def, position, ip) == Some([])
  {
  }

  // Trimming the whole data does not change what the single values are trimmed to

  ghost predicate SameTrimmed(a: seq<string>, b: seq<string>) {
    |a| == |b| && forall i :: 0 <= i < |a| ==> Trim(a[i]) == Trim(b[i])
  }

  lemma {:induction false} TrimLeftAppend(s: string, c: char)
    requires IsSpace(c)
    ensures TrimLeft(s + [c]) == if TrimLeft(s) == "" then "" else TrimLeft(s) + [c]
  {
    hide IsSpace;
    if s == "" {
      assert s + [c] == [c] && [c][1..] == "";
      assert TrimLeft("") == "";
    } else {
      assert (s + [c])[1..] == s[1..] + [c] && (s + [c])[0] == s[0];
      if IsSpace(s[0]) {
        TrimLeftAppend(s[1..], c);
      } else {
        assert TrimLeft(s) == s && TrimLeft(s + [c]) == s + [c];
      }
    }
  }

  lemma SpaceBefore(s: string, c: char)
    requires IsSpace(c)
    ensures Trim([c] + s) == Trim(s)
  {
    hide IsSpace, TrimRight;
    assert ([c] + s)[1..] == s;
  }

  lemma SpaceBehind(s: string, c: char)
    requires IsSpace(c)
    ensures Trim(s + [c]) == Trim(s)
  {
    hide IsSpace, TrimLeft;
    TrimLeftAppend(s, c);
    var l := TrimLeft(s);
    if l != "" {
      assert (l + [c])[..|l|] == l;
    }
  }

  function AppendedToLast(parts: seq<string>, c: char): seq<string>
    requires parts != []
  {
    parts[..|parts| - 1] + [parts[|parts| - 1] + [c]]
  }

  lemma AppendedBehindFirst(parts: seq<string>, c: char, first: char)
    requires parts != []
    ensures AppendedToLast([""] + parts, c) == [""] + AppendedToLast(parts, c)
    ensures var appended := AppendedToLast(parts, c);
      AppendedToLast([[first] + parts[0]] + parts[1..], c) == [[first] + appended[0]] + appended[1..]
  {
    assert ([first] + parts[0]) + [c] == [first] + (parts[0] + [c]);
  }

  lemma {:induction false} SplitAppend(s: string, c: char)
    requires c != ','
    ensures Split(s + [c], ',') == AppendedToLast(Split(s, ','), c)
  {
    if s == "" {
      assert s + [c] == [c] && [c][1..] == "";
      SplitWhole([c], ',');
    } else {
      hide AppendedToLast;
      assert (s + [c])[1..] == s[1..] + [c];
      SplitAppend(s[1..], c);
      AppendedBehindFirst(Split(s[1..], ','), c, s[0]);
    }
  }

  lemma SpaceInFirst(parts: seq<string>, c: char)
    requires parts != [] && IsSpace(c)
    ensures SameTrimmed([[c] + parts[0]] + parts[1..], parts)
  {
    hide IsSpace, Trim;
    SpaceBefore(parts[0], c);
    var spaced := [[c] + parts[0]] + parts[1..];
    forall i | 0 <= i < |parts| ensures Trim(spaced[i]) == Trim(parts[i]) {
      assert i > 0 ==> spaced[i] == parts[i];
    }
  }

  lemma {:induction false} TrimLeftSplit(s: string)
    ensures SameTrimmed(Split(TrimLeft(s), ','), Split(s, ','))
  {
    hide Trim;
    if s != "" && IsSpace(s[0]) {
      CommaIsNoSpace();
      var rest := Split(s[1..], ',');
      SpaceInFirst(rest, s[0]);
      assert Split(s, ',') == [[s[0]] + rest[0]] + rest[1..];
      TrimLeftSplit(s[1..]);
      hide IsSpace, Split;
      assert TrimLeft(s) == TrimLeft(s[1..]);
    }
  }

  lemma CommaIsNoSpace()
    ensures !IsSpace(',')
  {
  }

  lemma {:induction false} TrimRightSplit(s: string)
    ensures SameTrimmed(Split(TrimRight(s), ','), Split(s, ','))
  {
    hide Trim, Split;
    if s != "" && IsSpace(s[|s| - 1]) {
      var front, c := s[..|s| - 1], s[|s| - 1];
      assert s == front + [c];
      TrimRightSplit(front);
      CommaIsNoSpace();
      SplitAppend(front, c);
      var parts := Split(front, ',');
      SpaceBehind(parts[|parts| - 1], c);
      hide IsSpace;
    }
  }

  lemma {:induction false} ParsedSame(a: seq<string>, b: seq<string>, def: Definition, position: nat, ip: AddressText)
    requires SameTrimmed(a, b)
    ensures ParsedFrom(a, def, position, ip) == ParsedFrom(b, def, position, ip)
  {
    hide Trim, ParsedValues, FieldTypeAt;
    if a != [] {
      ParsedSame(a[1..], b[1..], def, position + 1, ip);
    }
  }

  lemma ParsedUntrimmed(data: string, def: Definition, ip: AddressText)
    requires Trim(data) != "" && !def.optionType.EmptyOption?
    ensures ParsedOption(data, def, ip) == ParsedFrom(Split(data, ','), def, 0, ip)
  {
    hide Split, ParsedFrom;
    TrimLeftSplit(data);
    TrimRightSplit(TrimLeft(data));
    assert SameTrimmed(Split(Trim(data), ','), Split(data, ',')) by {
      hide Trim;
    }
    ParsedSame(Split(Trim(data), ','), Split(data, ','), def, 0, ip);
  }

  // Round trip of whole options

  ghost predicate AllFaithful(fields: seq<Field>, ip: AddressText) {
    forall f :: f in fields ==> Faithful(f, ip)
  }

  /** The definition has exactly these types from a position on. */
  predicate TypesMatch(fields: seq<Field>, def: Definition, position: nat) {
    forall i :: 0 <= i < |fields| ==> FieldTypeAt(def, position + i) == Some(fields[i].fieldType)
  }

  ghost function Data(fields: seq<Field>, ip: AddressText): string
    requires AllConvertible(fields, ip)
  {
    Join(AllConverted(fields, ip), ',')
  }

  /** The option is printed, and parsing what is printed gives its fields back. */
  ghost predicate Survives(fields: seq<Field>, def: Definition, ip: AddressText) {
    AllConvertible(fields, ip) && ParsedOption(Data(fields, ip), def, ip) == Some(fields)
  }

  /** Splitting the data of an option gives the first field back if that is free of commas. */
  lemma SplitData(fields: seq<Field>, ip: AddressText)
    requires fields != [] && AllConvertible(fields, ip)
    ensures AllConvertible(fields[1..], ip)
    ensures var first := Converted(fields[0], ip);
      ',' !in first ==>
        Split(Data(fields, ip), ',')
        == [first] + (if |fields| == 1 then [] else Split(Data(fields[1..], ip), ','))
    ensures Converted(fields[0], ip) <= Data(fields, ip)
  {
    hide Convertible, Converted;
    var texts := AllConverted(fields, ip);
    hide Split;
    assert fields[0] in fields;
    assert texts[1..] == AllConverted(fields[1..], ip);
    if ',' !in texts[0] {
      if |fields| == 1 {
        SplitWhole(texts[0], ',');
      } else {
        SplitFirst(texts[0], Join(texts[1..], ','), ',');
      }
    }
  }

  lemma ParsedHead(first: string, others: seq<string>, field: Field, rest: seq<Field>, def: Definition, position: nat,
                   ip: AddressText)
    ensures ParsedFrom([first] + others, def, position, ip) == Some([field] + rest)
       <==> && FieldTypeAt(def, position) == Some(field.fieldType)
            && ParsedValues(field.fieldType, Trim(first), ip) == Some(field.values)
            && ParsedFrom(others, def, position + 1, ip) == Some(rest)
  {
    hide FieldTypeAt, ParsedValues, Trim;
    assert ([first] + others)[1..] == others;
    var t := FieldTypeAt(def, position);
    if t.Some? {
      var parsed, tail := ParsedValues(t.value, Trim(first), ip), ParsedFrom(others, def, position + 1, ip);
      if parsed.Some? && tail.Some? {
        var all := [Field(t.value, parsed.value)] + tail.value;
        assert all[0] == Field(t.value, parsed.value) && all[1..] == tail.value;
        assert ([field] + rest)[0] == field && ([field] + rest)[1..] == rest;
      }
    }
  }

  lemma {:induction false} FaithfulFieldsSurvive(fields: seq<Field>, def: Definition, position: nat, ip: AddressText)
    requires IsSound(ip) && fields != [] && AllFaithful(fields, ip) && TypesMatch(fields, def, position)
    ensures AllConvertible(fields, ip)
    ensures ParsedFrom(Split(Data(fields, ip), ','), def, position, ip) == Some(fields)
  {
    hide IsSound, FieldTypeAt, Faithful, Convertible, Converted, ParsedValues, ParsedFrom, Trim, Split, Data;
    forall f | f in fields ensures SurvivesAlone(f, ip) {
      FieldRoundTrip(f, ip);
    }
    var first, rest := fields[0], fields[1..];
    assert first in fields && fields == [first] + rest;
    SplitData(fields, ip);
    if rest == [] {
      NothingParsed([], def, position + 1, ip);
      ParsedHead(Converted(first, ip), [], first, [], def, position, ip);
    } else {
      assert TypesMatch(rest, def, position + 1) by {
        forall i | 0 <= i < |rest| ensures FieldTypeAt(def, position + 1 + i) == Some(rest[i].fieldType) {
          assert rest[i] == fields[1 + i];
        }
      }
      FaithfulFieldsSurvive(rest, def, position + 1, ip);
      ParsedHead(Converted(first, ip), Split(Data(rest, ip), ','), first, rest, def, position, ip);
    }
  }

  /** Only text can have commas, and parsed text is free of them. */
  lemma CommaIsLost(field: Field, part: string, ip: AddressText)
    requires IsSound(ip) && Convertible(field, ip) && ',' in Converted(field, ip)
    requires ',' !in part
    ensures ParsedValues(field.fieldType, Trim(part), ip) != Some(field.values)
  {
    if field.fieldType.StringField? {
      TrimSelects(part, ',');
      TextIsKept(field, Trim(part), ip);
    } else {
      OnlyTextHasCommas(field, ip);
    }
    hide *;
  }

  lemma TextIsKept(field: Field, s: string, ip: AddressText)
    requires field.fieldType.StringField? && Convertible(field, ip)
    ensures ParsedValues(field.fieldType, s, ip) == Some(field.values) ==> s == Converted(field, ip)
  {
  }

  lemma TrimSelects(s: string, c: char)
    ensures c in Trim(s) ==> c in s
  {
    hide IsSpace, TrimLeft, TrimRight;
    var l := TrimLeft(s);
    TrimLeftMeaning(s);
    TrimRightMeaning(l);
    if c in Trim(s) {
      var i :| 0 <= i < |Trim(s)| && Trim(s)[i] == c;
      assert l[i] == c;
      assert s[|s| - |l| + i] == c;
    }
  }

  lemma OnlyTextHasCommas(field: Field, ip: AddressText)
    requires IsSound(ip) && Convertible(field, ip) && !field.fieldType.StringField?
    ensures ',' !in Converted(field, ip)
  {
    hide IsHex, Without, IsFqdn, PrintInt, InRange, AsInt64, Parse, IsSound;
    match field.fieldType {
      case BinaryField => HexIsPlain(Without(field.values[0].s, ": "));
      case FqdnField => NameHasNo(field.values[0].s, ',');
      case IPv6PrefixField =>
        ParsedIsPlain(ip, field.values[0].s);
        PrintedIsPlain(AsInt64(field.values[1].n));
      case PsidField =>
        PrintedIsPlain(field.values[0].n);
        PrintedIsPlain(field.values[1].n);
      case IPv4AddressField | IPv6AddressField => ParsedIsPlain(ip, field.values[0].s);
      case StringField | BoolField | OtherField(_) =>
      case _ => PrintedIsPlain(field.values[0].n);
    }
  }

  lemma {:induction false} SurvivingFieldsAreFaithful(fields: seq<Field>, def: Definition, position: nat, ip: AddressText)
    requires IsSound(ip) && fields != [] && AllConvertible(fields, ip)
    requires ParsedFrom(Split(Data(fields, ip), ','), def, position, ip) == Some(fields)
    ensures AllFaithful(fields, ip) && TypesMatch(fields, def, position)
  {
    hide IsSound, FieldTypeAt, Faithful, Convertible, Converted, ParsedValues, ParsedFrom, Trim, Split, Data;
    var first, rest := fields[0], fields[1..];
    assert first in fields && fields == [first] + rest;
    var parts := Split(Data(fields, ip), ',');
    assert parts == [parts[0]] + parts[1..];
    ParsedHead(parts[0], parts[1..], first, rest, def, position, ip);
    SplitData(fields, ip);
    if ',' in Converted(first, ip) {
      JoinSplit(Data(fields, ip), ',');
      CommaIsLost(first, parts[0], ip);
      assert false;
    }
    FieldRoundTrip(first, ip);
    if rest != [] {
      assert parts[1..] == Split(Data(rest, ip), ',');
      SurvivingFieldsAreFaithful(rest, def, position + 1, ip);
    }
    forall i | 0 <= i < |fields|
      ensures Faithful(fields[i], ip) && FieldTypeAt(def, position + i) == Some(fields[i].fieldType)
    {
      if i > 0 {
        assert fields[i] == rest[i - 1] && rest[i - 1] in rest;
        assert position + i == position + 1 + (i - 1);
      }
    }
  }

  lemma EmptyIsNotParsed(field: Field, ip: AddressText)
    requires IsSound(ip) && Convertible(field, ip)
    ensures ParsedValues(field.fieldType, "", ip) != Some(field.values)
  {
    hide Without, InRange, AsInt64;
    if field.fieldType.FqdnField? {
      EmptyIsNoFqdn();
    }
  }

  lemma EmptyIsNoFqdn()
    ensures !IsFqdn("")
  {
  }

  lemma FaithfulDataIsNotBlank(fields: seq<Field>, ip: AddressText)
    requires IsSound(ip) && fields != [] && AllFaithful(fields, ip) && AllConvertible(fields, ip)
    ensures Trim(Data(fields, ip)) != ""
  {
    hide IsSound, Faithful, Convertible, Converted, ParsedValues, Split, Data, IsSpace, Trim;
    var first := fields[0];
    FieldRoundTrip(first, ip);
    EmptyIsNotParsed(first, ip);
    var t := Converted(first, ip);
    NotBlank(t);
    var c :| c in t && !IsSpace(c);
    SplitData(fields, ip);
    KeptByTrim(Data(fields, ip), c);
  }

  lemma NotBlank(s: string)
    requires Trim(s) != ""
    ensures exists c :: c in s && !IsSpace(c)
  {
    hide IsSpace;
    TrimLeftMeaning(s);
    assert TrimLeft(s)[0] in s;
  }

  /** Printing an option and parsing what is printed gives the same fields exactly when each
      field is faithful and the definition has the types of the fields, position by position. */
  lemma OptionRoundTrip(fields: seq<Field>, def: Definition, ip: AddressText)
    requires IsSound(ip)
    ensures Survives(fields, def, ip) <==> AllFaithful(fields, ip) && TypesMatch(fields, def, 0)
  {
    hide IsSound, Faithful, Convertible, Converted, ParsedFrom, Trim, Split;
    if fields == [] {
      assert Trim("") == "" by { TrimProperties(""); }
    } else {
      if AllFaithful(fields, ip) && TypesMatch(fields, def, 0) {
        FaithfulFieldsSurvive(fields, def, 0, ip);
        FaithfulDataIsNotBlank(fields, ip);
        ParsedUntrimmed(Data(fields, ip), def, ip);
      }
      if Survives(fields, def, ip) {
        ParsedUntrimmed(Data(fields, ip), def, ip);
        SurvivingFieldsAreFaithful(fields, def, 0, ip);
      }
    }
  }
}
