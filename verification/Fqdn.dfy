/** Parsing fully qualified domain names and encoding them in wire format (util/fqdn.go). */
module Fqdn {
  import opened Wrappers
  import opened Texts

  datatype Fqdn = Fqdn(labels: seq<string>, partial: bool)

  predicate IsLetter(c: char) {
    'a' <= c <= 'z' || 'A' <= c <= 'Z'
  }

  /** Letters, digits and, except at either end, hyphens. */
  predicate IsLabel(lab: string) {
    && lab != ""
    && forall i :: 0 <= i < |lab| ==>
      IsLetter(lab[i]) || IsDigit(lab[i]) || (lab[i] == '-' && 0 < i < |lab| - 1)
  }

  predicate IsTopLabel(lab: string) {
    |lab| >= 2 && forall i :: 0 <= i < |lab| ==> IsLetter(lab[i])
  }

  /** What parsing accepts: a partial name of at least one label, or a full name of at least
      three of which the last consists of letters only. */
  predicate Accepted(f: Fqdn) {
    && f.labels != []
    && (!f.partial ==> |f.labels| >= 3)
    && (forall i :: 0 <= i < |f.labels| ==>
      if !f.partial && i == |f.labels| - 1 then IsTopLabel(f.labels[i]) else IsLabel(f.labels[i]))
  }

  /** The rules for names: one or more labels, or with a final dot three or more, of which the last
      follows rules of its own. */
  lemma NameRules(f: Fqdn)
    ensures f.partial ==> (Accepted(f) <==> |f.labels| >= 1 && forall l :: l in f.labels ==> IsLabel(l))
    ensures !f.partial ==> (Accepted(f) <==>
      && |f.labels| >= 3 && IsTopLabel(f.labels[|f.labels| - 1])
      && forall l :: l in f.labels[..|f.labels| - 1] ==> IsLabel(l))
  {
    hide IsLabel, IsTopLabel;
    var front := if f.labels == [] then [] else f.labels[..|f.labels| - 1];
    assert forall i :: 0 <= i < |f.labels| ==> f.labels[i] in f.labels;
    assert forall i :: 0 <= i < |front| ==> f.labels[i] in front;
  }

  /** The rules for labels: letters, digits and hyphens, a hyphen neither first nor last; and for the
      last label of a full name two or more letters and nothing else. */
  lemma LabelRule(l: string)
    ensures IsLabel(l) <==>
      && l != "" && l[0] != '-' && l[|l| - 1] != '-'
      && forall c :: c in l ==> IsLetter(c) || IsDigit(c) || c == '-'
    ensures IsTopLabel(l) <==> |l| >= 2 && forall c :: c in l ==> 'a' <= c <= 'z' || 'A' <= c <= 'Z'
  {
    assert forall i :: 0 <= i < |l| ==> l[i] in l;
  }

  /** A name as text: a full name ends with a dot. */
  function Text(f: Fqdn): string {
    Join(f.labels, '.') + if f.partial then "" else "."
  }

  method ParseFqdn(text: string) returns (r: Option<Fqdn>)
    ensures r.Some? ==> Accepted(r.value) && Text(r.value) == Trim(text)
    ensures r.None? ==> forall f :: Accepted(f) ==> Text(f) != Trim(text)
  {
    hide Split, Join, Trim, IsLabel, IsTopLabel, Text;
    var fqdn := Trim(text);
    if |fqdn| == 0 {
      forall f | Accepted(f) ensures Text(f) != "" {
        TextEnds(f);
      }
      return None;
    }
    var full := fqdn[|fqdn| - 1] == '.';
    var labels := Split(fqdn, '.');
    if full {
      labels := labels[..|labels| - 1];
    }
    ghost var parsed := Fqdn(labels, !full);
    TextOfSplit(fqdn);
    if full && |labels| < 3 {
      NotAccepted(fqdn, parsed);
      return None;
    }
    for i := 0 to |labels|
      invariant forall j :: 0 <= j < i ==>
        if full && j == |labels| - 1 then IsTopLabel(labels[j]) else IsLabel(labels[j])
    {
      var ok;
      if full && i == |labels| - 1 {
        ok := CheckTopLabel(labels[i]);
      } else {
        ok := CheckLabel(labels[i]);
      }
      if !ok {
        NotAccepted(fqdn, parsed);
        return None;
      }
    }
    return Some(Fqdn(labels, !full));
  }

  method CheckTopLabel(lab: string) returns (ok: bool)
    ensures ok == IsTopLabel(lab)
  {
    if |lab| < 2 {
      return false;
    }
    for i := 0 to |lab|
      invariant forall j :: 0 <= j < i ==> IsLetter(lab[j])
    {
      if !IsLetter(lab[i]) {
        return false;
      }
    }
    return true;
  }

  method CheckLabel(lab: string) returns (ok: bool)
    ensures ok == IsLabel(lab)
  {
    if |lab| == 0 {
      return false;
    }
    for i := 0 to |lab|
      invariant forall j :: 0 <= j < i ==>
        IsLetter(lab[j]) || IsDigit(lab[j]) || (lab[j] == '-' && 0 < j < |lab| - 1)
    {
      if !IsLetter(lab[i]) && !IsDigit(lab[i]) && (i == 0 || i == |lab| - 1 || lab[i] != '-') {
        return false;
      }
    }
    return true;
  }

  // A name and its text determine each other

  lemma {:induction false} JoinEnds(labels: seq<string>)
    requires labels != [] && labels[|labels| - 1] != ""
    ensures var j := Join(labels, '.'); j != "" && j[|j| - 1] == labels[|labels| - 1][|labels[|labels| - 1]| - 1]
  {
    if |labels| > 1 {
      JoinEnds(labels[1..]);
    }
  }

  /** The text of an accepted name is not empty and ends with a dot exactly if it is full. */
  lemma TextEnds(f: Fqdn)
    requires Accepted(f)
    ensures Text(f) != "" && (Text(f)[|Text(f)| - 1] == '.' <==> !f.partial)
  {
    var last := f.labels[|f.labels| - 1];
    assert IsTopLabel(last) || IsLabel(last);
    JoinEnds(f.labels);
  }

  lemma {:induction false} JoinAppendEmpty(labels: seq<string>)
    requires labels != []
    ensures Join(labels + [""], '.') == Join(labels, '.') + "."
  {
    if |labels| > 1 {
      JoinAppendEmpty(labels[1..]);
      assert (labels + [""])[1..] == labels[1..] + [""];
    } else {
      assert (labels + [""])[1..] == [""];
    }
  }

  lemma SplitOfText(f: Fqdn)
    requires Accepted(f)
    ensures Split(Text(f), '.') == f.labels + if f.partial then [] else [""]
  {
    var parts := f.labels + if f.partial then [] else [""];
    forall p | p in parts ensures '.' !in p {
      assert p == "" || IsTopLabel(p) || IsLabel(p);
    }
    JoinAppendEmpty(f.labels);
    SplitJoin(parts, '.');
    assert f.partial ==> parts == f.labels && Text(f) == Join(f.labels, '.');
  }

  /** Joining the labels of a split text gives the text back. */
  lemma TextOfSplit(text: string)
    requires text != ""
    ensures var full := text[|text| - 1] == '.';
      var parts := Split(text, '.');
      full ==> |parts| > 1 && Text(Fqdn(parts[..|parts| - 1], false)) == text
    ensures text[|text| - 1] != '.' ==> Text(Fqdn(Split(text, '.'), true)) == text
  {
    JoinSplit(text, '.');
    var parts := Split(text, '.');
    if text[|text| - 1] == '.' {
      var last := parts[|parts| - 1];
      assert last in parts;
      if last != "" {
        JoinEnds(parts);
      }
      if |parts| > 1 {
        JoinAppendEmpty(parts[..|parts| - 1]);
        assert parts[..|parts| - 1] + [""] == parts;
      }
    }
  }

  /** If the labels that a text splits into are not acceptable, no acceptable name has that text. */
  lemma NotAccepted(text: string, parsed: Fqdn)
    requires text != "" && !Accepted(parsed)
    requires parsed.partial == (text[|text| - 1] != '.')
    requires parsed.labels == if parsed.partial then Split(text, '.') else Split(text, '.')[..|Split(text, '.')| - 1]
    ensures forall f :: Accepted(f) ==> Text(f) != text
  {
    forall f | Accepted(f) && Text(f) == text ensures f == parsed {
      SplitOfText(f);
      TextEnds(f);
      assert f.labels == (f.labels + [""])[..|f.labels|];
    }
  }

  /** No two accepted names have the same text. */
  lemma TextIsInjective(f: Fqdn, g: Fqdn)
    requires Accepted(f) && Accepted(g) && Text(f) == Text(g)
    ensures f == g
  {
    SplitOfText(f);
    SplitOfText(g);
    TextEnds(f);
    TextEnds(g);
    assert f.labels == (f.labels + [""])[..|f.labels|] && g.labels == (g.labels + [""])[..|g.labels|];
    assert f.labels + [] == f.labels && g.labels + [] == g.labels;
  }

  // Wire format

  function Octets(lab: string): (bytes: seq<int>)
    ensures |bytes| == |lab| && forall i :: 0 <= i < |lab| ==> bytes[i] == lab[i] as int
  {
    seq(|lab|, i requires 0 <= i < |lab| => lab[i] as int)
  }

  /** Each label after its length, which is cut off to one byte; a full name ends with the
      empty label of the root. */
  function Encoded(f: Fqdn): seq<int>
    decreases |f.labels|
  {
    if f.labels == [] then (if f.partial then [] else [0])
    else [|f.labels[0]| % 256] + Octets(f.labels[0]) + Encoded(Fqdn(f.labels[1..], f.partial))
  }

  lemma {:induction false} EncodedNext(labels: seq<string>, i: nat)
    requires i < |labels|
    ensures Encoded(Fqdn(labels[..i + 1], true))
         == Encoded(Fqdn(labels[..i], true)) + [|labels[i]| % 256] + Octets(labels[i])
  {
    if i > 0 {
      EncodedNext(labels[1..], i - 1);
      assert labels[..i + 1][1..] == labels[1..][..i] && labels[..i][1..] == labels[1..][..i - 1];
    } else {
      assert labels[..1][1..] == [];
    }
  }

  lemma {:induction false} EncodedEnd(labels: seq<string>)
    ensures Encoded(Fqdn(labels, false)) == Encoded(Fqdn(labels, true)) + [0]
  {
    if labels != [] {
      EncodedEnd(labels[1..]);
    }
  }

  method ToBytes(f: Fqdn) returns (bytes: seq<int>)
    ensures bytes == Encoded(f)
  {
    bytes := [];
    for i := 0 to |f.labels|
      invariant bytes == Encoded(Fqdn(f.labels[..i], true))
    {
      EncodedNext(f.labels, i);
      bytes := bytes + [|f.labels[i]| % 256];
      bytes := bytes + Octets(f.labels[i]);
    }
    assert f.labels[..|f.labels|] == f.labels;
    if !f.partial {
      EncodedEnd(f.labels);
      bytes := bytes + [0];
    }
  }

  /** Reads labels, each after its length, up to the root or the end, as section 3.1 of
      RFC 1035 lays them out. */
  function Decoded(bytes: seq<int>): Option<Fqdn> {
    if bytes == [] then Some(Fqdn([], true))
    else if bytes[0] <= 0 then (if bytes == [0] then Some(Fqdn([], false)) else None)
    else if |bytes| <= bytes[0] then None
    else
      var rest := Decoded(bytes[bytes[0] + 1..]);
      if rest.None? || exists i :: 1 <= i <= bytes[0] && !(0 <= bytes[i] < 128) then None
      else Some(Fqdn([Characters(bytes[1..bytes[0] + 1])] + rest.value.labels, rest.value.partial))
  }

  function Characters(bytes: seq<int>): string
    requires forall i :: 0 <= i < |bytes| ==> 0 <= bytes[i] < 128
  {
    seq(|bytes|, i requires 0 <= i < |bytes| => bytes[i] as char)
  }

  predicate IsAscii(lab: string) {
    lab != "" && forall i :: 0 <= i < |lab| ==> lab[i] as int < 128
  }

  lemma LabelBytes(lab: string, tail: seq<int>)
    requires IsAscii(lab) && |lab| <= 255
    ensures var bytes := [|lab| % 256] + Octets(lab) + tail;
      && 0 < bytes[0] == |lab| < |bytes|
      && bytes[1..|lab| + 1] == Octets(lab) && bytes[|lab| + 1..] == tail
      && forall i :: 1 <= i <= |lab| ==> 0 <= bytes[i] < 128
  {
  }

  lemma CharactersOfOctets(lab: string)
    requires IsAscii(lab)
    ensures forall i :: 0 <= i < |lab| ==> 0 <= Octets(lab)[i] < 128
    ensures Characters(Octets(lab)) == lab
  {
  }

  /** Reading one label. */
  lemma DecodedOnce(bytes: seq<int>)
    requires |bytes| > 1 && 0 < bytes[0] < |bytes|
    requires forall i :: 1 <= i <= bytes[0] ==> 0 <= bytes[i] < 128
    ensures var rest := Decoded(bytes[bytes[0] + 1..]);
      Decoded(bytes)
      == if rest.None? then None
         else Some(Fqdn([Characters(bytes[1..bytes[0] + 1])] + rest.value.labels, rest.value.partial))
  {
    hide Characters;
  }

  /** A label that one byte can measure is read back, and reading goes on behind it. */
  lemma ShortLabel(lab: string, tail: seq<int>)
    requires IsAscii(lab) && |lab| <= 255
    ensures var rest := Decoded(tail);
      Decoded([|lab| % 256] + Octets(lab) + tail)
      == if rest.None? then None else Some(Fqdn([lab] + rest.value.labels, rest.value.partial))
  {
    hide Decoded, Octets, Characters, IsAscii;
    LabelBytes(lab, tail);
    CharactersOfOctets(lab);
    DecodedOnce([|lab| % 256] + Octets(lab) + tail);
  }

  /** A longer label is not read back. */
  lemma LongLabel(lab: string, tail: seq<int>)
    requires |lab| > 255
    ensures var f := Decoded([|lab| % 256] + Octets(lab) + tail);
      f.Some? ==> f.value.labels == [] || f.value.labels[0] != lab
  {
    hide Characters;
    var bytes := [|lab| % 256] + Octets(lab) + tail;
    assert bytes[0] == |lab| % 256;
    var f := Decoded(bytes);
    if f.Some? && f.value.labels != [] {
      assert f.value.labels[0] == Characters(bytes[1..bytes[0] + 1]);
      CharactersLength(bytes[1..bytes[0] + 1]);
    }
  }

  lemma CharactersLength(bytes: seq<int>)
    requires forall i :: 0 <= i < |bytes| ==> 0 <= bytes[i] < 128
    ensures |Characters(bytes)| == |bytes|
  {
  }

  /** The wire format is decoded to the name it was made from exactly when no label is longer
      than one byte can tell. */
  lemma {:induction false} WireRoundTrip(f: Fqdn)
    requires forall l :: l in f.labels ==> IsAscii(l)
    ensures Decoded(Encoded(f)) == Some(f) <==> forall l :: l in f.labels ==> |l| <= 255
    decreases |f.labels|
  {
    hide Decoded;
    if f.labels != [] {
      var lab, rest := f.labels[0], Fqdn(f.labels[1..], f.partial);
      WireRoundTrip(rest);
      assert f.labels == [lab] + rest.labels;
      assert forall l :: l in f.labels <==> l == lab || l in rest.labels;
      if |lab| <= 255 {
        ShortLabel(lab, Encoded(rest));
        if Decoded(Encoded(f)) == Some(f) {
          assert f.labels[1..] == Decoded(Encoded(rest)).value.labels;
        }
      } else {
        LongLabel(lab, Encoded(rest));
      }
    } else {
      NoLabels(f.partial);
    }
  }

  lemma NoLabels(partial: bool)
    ensures Decoded(if partial then [] else [0]) == Some(Fqdn([], partial))
  {
  }

  /** In particular for every accepted name that keeps to labels of at most 63 octets. */
  lemma AcceptedRoundTrip(f: Fqdn)
    requires Accepted(f) && forall l :: l in f.labels ==> |l| <= 63
    ensures Decoded(Encoded(f)) == Some(f)
  {
    forall l | l in f.labels ensures IsAscii(l) {
      assert IsTopLabel(l) || IsLabel(l);
    }
    WireRoundTrip(f);
  }
}
