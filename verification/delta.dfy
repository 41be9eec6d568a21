/**
 * Reading the three view-state tokens out of an ASP.NET AJAX partial-postback
 * ("delta") response body, the way `parse_delta` does with the regular
 * expression `\|(\d+)\|hiddenField\|<name>\|`: find the first place the
 * pattern matches, read the length, and take that many characters after the
 * match (fewer when the text ends first).
 */
module Delta {
  import opened Wrappers
  import opened Text

  /** The three opaque tokens every postback must send back. */
  datatype Tokens = Tokens(viewstate: string, eventValidation: string, viewStateGenerator: string)

  const ViewStateName: string := "__VIEWSTATE"
  const EventValidationName: string := "__EVENTVALIDATION"
  const GeneratorName: string := "__VIEWSTATEGENERATOR"

  /** The record type between the length and the name. */
  function TagHead(): string {
    "|hiddenField|"
  }

  /** The literal text the pattern requires after the digits. */
  function Tag(name: string): string {
    TagHead() + name + "|"
  }

  /**
   * The pattern matches at `p` with its digit group spanning `p+1 .. q`:
   * a `|`, one or more digits, then `|hiddenField|<name>|`.
   */
  ghost predicate MatchesAt(text: string, p: nat, q: nat, name: string) {
    && p + 1 < q
    && q + |Tag(name)| <= |text|
    && text[p] == '|'
    && AllDigits(text[p + 1..q])
    && text[q..q + |Tag(name)|] == Tag(name)
  }

  /** A match: the length it declares, and the index just past it (`match.end()`). */
  datatype Marker = Marker(length: nat, end: nat)

  /** The end of the longest run of digits starting at `i`. */
  function DigitRunEnd(text: string, i: nat): (j: nat)
    requires i <= |text|
    ensures i <= j <= |text|
    ensures AllDigits(text[i..j])
    ensures j == |text| || !IsDigit(text[j])
    decreases |text| - i
  {
    if i == |text| || !IsDigit(text[i]) then i
    else
      var j := DigitRunEnd(text, i + 1);
      assert text[i..j] == [text[i]] + text[i + 1..j];
      j
  }

  /** A run of digits that a non-digit (or the end) closes is the longest run. */
  lemma {:induction false} DigitRunEndUnique(text: string, i: nat, q: nat)
    requires i <= q <= |text|
    requires AllDigits(text[i..q])
    requires q == |text| || !IsDigit(text[q])
    ensures DigitRunEnd(text, i) == q
    decreases q - i
  {
    if i < q {
      assert IsDigit(text[i..q][0]);
      assert text[i + 1..q] == text[i..q][1..];
      DigitRunEndUnique(text, i + 1, q);
    }
  }

  /**
   * The match of the pattern for `name` at position `p`, if any: the digit
   * group is the whole run of digits after the `|`.
   */
  function MarkerAt(text: string, p: nat, name: string): (m: Option<Marker>)
    ensures m.Some? ==> p < |text| && text[p] == '|' && m.value.end <= |text|
  {
    if p < |text| && text[p] == '|' then
      var q := DigitRunEnd(text, p + 1);
      var tag := Tag(name);
      if q > p + 1 && q + |tag| <= |text| && text[q..q + |tag|] == tag
      then Some(Marker(DecimalValue(text[p + 1..q]), q + |tag|))
      else None
    else None
  }

  /**
   * `MarkerAt` agrees with the regular expression. Because the tag starts
   * with `|`, which is not a digit, the greedy digit group can only end where
   * the run of digits ends, so backtracking finds no other match at `p`.
   */
  lemma MarkerAtIsMatch(text: string, p: nat, name: string)
    ensures MarkerAt(text, p, name).Some? <==> exists q: nat :: MatchesAt(text, p, q, name)
    ensures forall q: nat :: MatchesAt(text, p, q, name) ==>
              MarkerAt(text, p, name) == Some(Marker(DecimalValue(text[p + 1..q]), q + |Tag(name)|))
  {
    if p < |text| && text[p] == '|' {
      var q := DigitRunEnd(text, p + 1);
      forall q': nat | MatchesAt(text, p, q', name) ensures q' == q {
        assert text[q'] == text[q'..q' + |Tag(name)|][0] == '|';
        DigitRunEndUnique(text, p + 1, q');
      }
      if MarkerAt(text, p, name).Some? {
        assert MatchesAt(text, p, q, name);
      }
    }
  }

  /** `p` is where `re.search` reports the pattern for `name`: the leftmost match. */
  ghost predicate FirstMarker(text: string, name: string, p: nat) {
    && MarkerAt(text, p, name).Some?
    && forall q :: 0 <= q < p ==> MarkerAt(text, q, name).None?
  }

  ghost predicate NoMarker(text: string, name: string) {
    forall p :: 0 <= p < |text| ==> MarkerAt(text, p, name).None?
  }

  /** The value that a match at `p` designates: `text[end:end + length]`. */
  function ValueAt(text: string, m: Marker): string {
    Slice(text, m.end, m.end + m.length)
  }

  /** `v` is the value `parse_delta` reports for `name`. */
  ghost predicate Decodes(text: string, name: string, v: string) {
    || (NoMarker(text, name) && v == "")
    || exists p: nat :: FirstMarker(text, name, p) && v == ValueAt(text, MarkerAt(text, p, name).value)
  }

  /** The leftmost match for `name` at or after `from`. */
  function FindMarker(text: string, name: string, from: nat): (r: Option<nat>)
    ensures r.Some? ==> from <= r.value < |text| && MarkerAt(text, r.value, name).Some?
    ensures r.Some? ==> forall q :: from <= q < r.value ==> MarkerAt(text, q, name).None?
    ensures r.None? ==> forall q :: from <= q < |text| ==> MarkerAt(text, q, name).None?
    decreases |text| - from
  {
    if from >= |text| then None
    else if MarkerAt(text, from, name).Some? then Some(from)
    else FindMarker(text, name, from + 1)
  }

  /** `extract(name)` inside `parse_delta`. */
  function ExtractField(text: string, name: string): (r: string)
    ensures Decodes(text, name, r)
    ensures NoMarker(text, name) ==> r == ""
    ensures forall p :: FirstMarker(text, name, p) ==>
              var m := MarkerAt(text, p, name).value;
              m.end <= |text| && |r| == Min(m.length, |text| - m.end)
  {
    match FindMarker(text, name, 0)
    case None => ""
    case Some(p) =>
      var m := MarkerAt(text, p, name).value;
      assert FirstMarker(text, name, p);
      forall p' | FirstMarker(text, name, p') ensures p' == p { }
      ValueAt(text, m)
  }

  /** There is only one decoded value: the first match decides. */
  lemma DecodesUnique(text: string, name: string, v: string, w: string)
    requires Decodes(text, name, v) && Decodes(text, name, w)
    ensures v == w
  {
    if exists p: nat :: FirstMarker(text, name, p) {
      var p: nat :| FirstMarker(text, name, p);
      assert !NoMarker(text, name);
      forall p': nat | FirstMarker(text, name, p') ensures p' == p { }
    }
  }

  /** `parse_delta`: each token is looked up on its own. */
  function ParseDelta(text: string): (t: Tokens)
    ensures Decodes(text, ViewStateName, t.viewstate)
    ensures Decodes(text, EventValidationName, t.eventValidation)
    ensures Decodes(text, GeneratorName, t.viewStateGenerator)
  {
    Tokens(ExtractField(text, ViewStateName),
           ExtractField(text, EventValidationName),
           ExtractField(text, GeneratorName))
  }

  /** How a server writes one hidden-field record: `|<length>|hiddenField|<name>|<value>`. */
  function HiddenFieldRecord(name: string, value: string): string {
    "|" + NatToDecimal(|value|) + Tag(name) + value
  }

  /** Where the pieces of a record sit in the text around it. */
  lemma RecordLayout(pre: string, d: string, tag: string, value: string, post: string)
    ensures var text := pre + ("|" + d + tag + value) + post;
            var p := |pre|;
            var q := p + 1 + |d|;
            var e := q + |tag|;
            && text[p] == '|'
            && text[p + 1..q] == d
            && text[q..e] == tag
            && text[e..e + |value|] == value
  {
    var text := pre + ("|" + d + tag + value) + post;
    assert text == pre + "|" + d + tag + value + post;
  }

  /** Where the pattern matches at `p`, the reader reports that match. */
  lemma MarkerFromMatch(text: string, p: nat, q: nat, name: string)
    requires MatchesAt(text, p, q, name)
    ensures MarkerAt(text, p, name) == Some(Marker(DecimalValue(text[p + 1..q]), q + |Tag(name)|))
  {
    MarkerAtIsMatch(text, p, name);
  }

  /** A `|`, the decimal length of `value` and the tag, wherever they sit, make a match declaring that length. */
  lemma MarkerFromLayout(text: string, p: nat, value: string, name: string)
    requires var q := p + 1 + |NatToDecimal(|value|)|;
             && q + |Tag(name)| <= |text| && text[p] == '|'
             && text[p + 1..q] == NatToDecimal(|value|) && text[q..q + |Tag(name)|] == Tag(name)
    ensures MarkerAt(text, p, name) == Some(Marker(|value|, p + 1 + |NatToDecimal(|value|)| + |Tag(name)|))
  {
    var q := p + 1 + |NatToDecimal(|value|)|;
    assert MatchesAt(text, p, q, name);
    MarkerFromMatch(text, p, q, name);
    DecimalRoundTrip(|value|);
  }

  /** A record written at `|pre|` matches there, declaring the length of its value. */
  lemma RecordMarker(pre: string, name: string, value: string, post: string)
    ensures var text := pre + HiddenFieldRecord(name, value) + post;
            var e := |pre| + 1 + |NatToDecimal(|value|)| + |Tag(name)|;
            && MarkerAt(text, |pre|, name) == Some(Marker(|value|, e))
            && text[e..e + |value|] == value
  {
    var text := pre + HiddenFieldRecord(name, value) + post;
    var d := NatToDecimal(|value|);
    var tag := Tag(name);
    var p := |pre|;
    var q := p + 1 + |d|;
    assert HiddenFieldRecord(name, value) == "|" + d + tag + value;
    RecordLayout(pre, d, tag, value, post);
    MarkerFromLayout(text, p, value, name);
  }

  /**
   * Round trip: a record placed before any other match for its name is read
   * back as exactly the value written, whatever follows it.
   */
  lemma ExtractRecord(pre: string, name: string, value: string, post: string)
    requires forall q :: 0 <= q < |pre| ==>
               MarkerAt(pre + HiddenFieldRecord(name, value) + post, q, name).None?
    ensures ExtractField(pre + HiddenFieldRecord(name, value) + post, name) == value
  {
    var text := pre + HiddenFieldRecord(name, value) + post;
    var p := |pre|;
    RecordMarker(pre, name, value, post);
    assert ValueAt(text, MarkerAt(text, p, name).value) == value;
    assert FirstMarker(text, name, p);
    assert Decodes(text, name, value);
    DecodesUnique(text, name, value, ExtractField(text, name));
  }

  /** Index of the first `|` in `s` (the length of `s` when there is none). */
  function BarIndex(s: string): (i: nat)
    ensures i <= |s|
  {
    if |s| == 0 || s[0] == '|' then 0 else 1 + BarIndex(s[1..])
  }

  lemma {:induction false} BarIndexAfterName(n: string, rest: string)
    requires '|' !in n
    ensures BarIndex(n + "|" + rest) == |n|
  {
    if |n| > 0 {
      assert (n + "|" + rest)[1..] == n[1..] + "|" + rest;
      BarIndexAfterName(n[1..], rest);
    }
  }

  /** What follows `|hiddenField|` in a match for `n`: the name, a `|`, and the rest of the text. */
  lemma TagSuffix(text: string, q: nat, n: string)
    requires q + |Tag(n)| <= |text| && text[q..q + |Tag(n)|] == Tag(n)
    ensures text[q + |TagHead()|..] == n + "|" + text[q + |Tag(n)|..]
  {
    var rest := text[q + |Tag(n)|..];
    assert text[q..] == Tag(n) + rest;
    assert Tag(n)[|TagHead()|..] == n + "|";
    assert text[q + |TagHead()|..] == text[q..][|TagHead()|..];
  }

  /**
   * Where a name without `|` matches, the name is fixed by the text: it runs
   * from the end of `|<digits>|hiddenField|` up to the next `|`. Hence two
   * different names never match at the same place, and the lookup of
   * `__VIEWSTATE` never stops at a `__VIEWSTATEGENERATOR` record.
   */
  lemma MarkerNameDetermined(text: string, p: nat, n1: string, n2: string)
    requires '|' !in n1 && '|' !in n2
    ensures MarkerAt(text, p, n1).Some? && MarkerAt(text, p, n2).Some? ==> n1 == n2
  {
    if MarkerAt(text, p, n1).Some? && MarkerAt(text, p, n2).Some? {
      var q := DigitRunEnd(text, p + 1);
      var s := text[q + |TagHead()|..];
      TagSuffix(text, q, n1);
      TagSuffix(text, q, n2);
      BarIndexAfterName(n1, text[q + |Tag(n1)|..]);
      BarIndexAfterName(n2, text[q + |Tag(n2)|..]);
      assert n1 == s[..|n1|] == n2;
    }
  }

  /** The view-state lookup skips generator records, wherever they are. */
  lemma ViewStateSkipsGenerator(text: string, p: nat)
    ensures MarkerAt(text, p, GeneratorName).Some? ==> MarkerAt(text, p, ViewStateName).None?
  {
    MarkerNameDetermined(text, p, ViewStateName, GeneratorName);
  }
}
