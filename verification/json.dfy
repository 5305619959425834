/** The fragment of JSON (RFC 8259) that the phone's message uses: an object
    whose member values are integers or strings. Whitespace between tokens is
    skipped as section 2 of RFC 8259 allows. Escape sequences, fractions,
    exponents, literals, arrays and nested objects are outside this fragment
    and are reported as not parsed. */
module Json {
  import opened Wrappers
  import opened Decimal
  import opened BoundedInts

  datatype Value = Number(n: int) | Text(s: string)

  datatype Member = Member(key: string, value: Value)

  predicate IsWhitespace(c: char) {
    c == ' ' || c == '\t' || c == '\n' || c == '\r'
  }

  /** A character that may appear unescaped inside a JSON string
      (section 7 of RFC 8259): not a quotation mark, not a reverse solidus,
      not a control character. */
  predicate UnescapedChar(c: char) {
    c != '"' && c != '\\' && c >= ' '
  }

  predicate PlainText(s: string) {
    forall i :: 0 <= i < |s| ==> UnescapedChar(s[i])
  }

  function SkipWhitespace(s: string): (r: string)
    ensures |r| <= |s|
    ensures |r| > 0 ==> !IsWhitespace(r[0])
    decreases |s|
  {
    if |s| > 0 && IsWhitespace(s[0]) then SkipWhitespace(s[1..]) else s
  }

  /** Position of the closing quotation mark of a string body, when every
      character before it is plain. */
  function ClosingQuote(s: string): (r: Option<nat>)
    ensures r.Some? ==> r.value < |s| && s[r.value] == '"' && PlainText(s[..r.value])
    decreases |s|
  {
    if |s| == 0 then None
    else if s[0] == '"' then Some(0)
    else if UnescapedChar(s[0]) then
      match ClosingQuote(s[1..])
      case None => None
      case Some(k) => Some(k + 1)
    else None
  }

  /** A string token: its text and what follows it. */
  function ParseString(s: string): (r: Option<(string, string)>)
    ensures r.Some? ==> |r.value.1| < |s| && PlainText(r.value.0)
  {
    if |s| == 0 || s[0] != '"' then None
    else
      match ClosingQuote(s[1..])
      case None => None
      case Some(k) =>
        assert s[1..k + 1] == s[1..][..k];
        Some((s[1..k + 1], s[k + 2..]))
  }

  /** Length of the longest prefix of decimal digits. */
  function DigitRun(s: string): (n: nat)
    ensures n <= |s| && AllDigits(s[..n])
    ensures n < |s| ==> !IsDigit(s[n])
    decreases |s|
  {
    if |s| > 0 && IsDigit(s[0]) then 1 + DigitRun(s[1..]) else 0
  }

  predicate EndsNumber(s: string) {
    |s| == 0 || (!IsDigit(s[0]) && s[0] != '.' && s[0] != 'e' && s[0] != 'E')
  }

  /** Digits without a leading zero, not followed by a fraction or exponent. */
  function ParseDigits(t: string): (r: Option<(nat, string)>)
    ensures r.Some? ==> |r.value.1| < |t|
  {
    var n := DigitRun(t);
    if n == 0 || (t[0] == '0' && n > 1) || !EndsNumber(t[n..]) then None
    else Some((ParseNat(t[..n]), t[n..]))
  }

  /** An integer token that fits a 64-bit `Int`: optional minus, then digits. */
  function ParseNumber(s: string): (r: Option<(int, string)>)
    ensures r.Some? ==> |r.value.1| < |s|
  {
    var negative := |s| > 0 && s[0] == '-';
    match ParseDigits(if negative then s[1..] else s)
    case None => None
    case Some((magnitude, rest)) =>
      var v: int := if negative then -(magnitude as int) else magnitude;
      if v < -INT64_MAX - 1 || v > INT64_MAX then None
      else Some((v, rest))
  }

  function ParseValue(s: string): (r: Option<(Value, string)>)
    ensures r.Some? ==> |r.value.1| < |s|
  {
    if |s| == 0 then None
    else if s[0] == '"' then
      match ParseString(s)
      case None => None
      case Some((text, rest)) => Some((Text(text), rest))
    else if s[0] == '-' || IsDigit(s[0]) then
      match ParseNumber(s)
      case None => None
      case Some((n, rest)) => Some((Number(n), rest))
    else None
  }

  /** `"key" : value`, with the whitespace after the value consumed. */
  function ParseMember(s: string): (r: Option<(Member, string)>)
    ensures r.Some? ==> |r.value.1| < |s|
  {
    match ParseString(s)
    case None => None
    case Some((key, afterKey)) =>
      var colon := SkipWhitespace(afterKey);
      if |colon| == 0 || colon[0] != ':' then None
      else
        match ParseValue(SkipWhitespace(colon[1..]))
        case None => None
        case Some((value, afterValue)) => Some((Member(key, value), SkipWhitespace(afterValue)))
  }

  /** Members separated by ',' up to and including the closing '}'. */
  function ParseMembers(s: string): (r: Option<(seq<Member>, string)>)
    ensures r.Some? ==> |r.value.1| < |s|
    decreases |s|
  {
    match ParseMember(s)
    case None => None
    case Some((m, rest)) =>
      if |rest| > 0 && rest[0] == '}' then Some(([m], rest[1..]))
      else if |rest| > 0 && rest[0] == ',' then
        match ParseMembers(SkipWhitespace(rest[1..]))
        case None => None
        case Some((ms, after)) => Some(([m] + ms, after))
      else None
  }

  /** A whole document: one object, surrounded by optional whitespace. */
  function ParseObject(s: string): (r: Option<seq<Member>>)
  {
    var t := SkipWhitespace(s);
    if |t| == 0 || t[0] != '{' then None
    else
      var u := SkipWhitespace(t[1..]);
      var parsed: Option<(seq<Member>, string)> :=
        if |u| > 0 && u[0] == '}' then Some(([], u[1..])) else ParseMembers(u);
      match parsed
      case None => None
      case Some((members, rest)) =>
        if SkipWhitespace(rest) == [] then Some(members) else None
  }

  /** The value of the first member named `key`. */
  function Lookup(members: seq<Member>, key: string): (r: Option<Value>)
    ensures r.Some? ==> exists i :: 0 <= i < |members| && members[i] == Member(key, r.value)
    ensures r.None? ==> forall i :: 0 <= i < |members| ==> members[i].key != key
  {
    if |members| == 0 then None
    else if members[0].key == key then Some(members[0].value)
    else
      var r := Lookup(members[1..], key);
      assert r.Some? ==> members[1..][0..] == members[1..];
      r
  }

  // ----- Facts about parsing rendered tokens -----

  lemma {:induction false} SkipNonWhitespace(s: string)
    requires |s| > 0 && !IsWhitespace(s[0])
    ensures SkipWhitespace(s) == s
  {
  }

  lemma {:induction false} ClosingQuoteAfterPlain(k: string, rest: string)
    requires PlainText(k)
    ensures ClosingQuote(k + "\"" + rest) == Some(|k|)
    decreases |k|
  {
    if |k| > 0 {
      assert (k + "\"" + rest)[1..] == k[1..] + "\"" + rest;
      ClosingQuoteAfterPlain(k[1..], rest);
    }
  }

  /** A plain string between quotation marks parses back to itself. */
  lemma ParseQuoted(k: string, rest: string)
    requires PlainText(k)
    ensures ParseString("\"" + k + "\"" + rest) == Some((k, rest))
  {
    var s := "\"" + k + "\"" + rest;
    assert s[1..] == k + "\"" + rest;
    ClosingQuoteAfterPlain(k, rest);
    assert s[1..|k| + 1] == k;
    assert s[|k| + 2..] == rest;
  }

  lemma {:induction false} DigitRunOfDigits(a: string, b: string)
    requires AllDigits(a)
    requires |b| == 0 || !IsDigit(b[0])
    ensures DigitRun(a + b) == |a|
    decreases |a|
  {
    if |a| > 0 {
      assert (a + b)[1..] == a[1..] + b;
      DigitRunOfDigits(a[1..], b);
    }
  }

  /** A rendered natural number parses back to itself. */
  lemma ParseRenderedDigits(n: nat, rest: string)
    requires EndsNumber(rest)
    ensures ParseDigits(NatToString(n) + rest) == Some((n, rest))
  {
    var d := NatToString(n);
    var s := d + rest;
    assert s[0] == d[0];
    DigitRunOfDigits(d, rest);
    LeadingZeroOnlyForZero(n);
    assert s[..|d|] == d;
    assert s[|d|..] == rest;
    ParseNatToString(n);
  }

  /** A rendered 64-bit integer parses back to itself. */
  lemma ParseRenderedInt(i: int, rest: string)
    requires -INT64_MAX - 1 <= i <= INT64_MAX
    requires EndsNumber(rest)
    ensures ParseNumber(IntToString(i) + rest) == Some((i, rest))
  {
    if i >= 0 {
      ParseRenderedNonNegative(i, rest);
    } else {
      ParseRenderedNegative(-i, rest);
    }
  }

  lemma ParseRenderedNonNegative(n: nat, rest: string)
    requires n <= INT64_MAX
    requires EndsNumber(rest)
    ensures ParseNumber(NatToString(n) + rest) == Some((n, rest))
  {
    var s := NatToString(n) + rest;
    assert s[0] != '-';
    ParseRenderedDigits(n, rest);
  }

  lemma ParseRenderedNegative(n: nat, rest: string)
    requires 0 < n <= INT64_MAX + 1
    requires EndsNumber(rest)
    ensures ParseNumber("-" + NatToString(n) + rest) == Some((-(n as int), rest))
  {
    SignDropped(NatToString(n), rest);
    ParseRenderedDigits(n, rest);
  }

  lemma SignDropped(d: string, rest: string)
    ensures ("-" + d + rest)[0] == '-' && ("-" + d + rest)[1..] == d + rest
  {
  }

  predicate AllWhitespace(s: string) {
    forall i :: 0 <= i < |s| ==> IsWhitespace(s[i])
  }

  lemma {:induction false} SkipAllWhitespace(s: string)
    requires AllWhitespace(s)
    ensures SkipWhitespace(s) == []
    decreases |s|
  {
    if |s| > 0 {
      SkipAllWhitespace(s[1..]);
    }
  }

  /** A member `"key":<integer>` followed by a separator parses to that member. */
  lemma NumberMember(key: string, n: int, rest: string)
    requires PlainText(key)
    requires -INT64_MAX - 1 <= n <= INT64_MAX
    requires |rest| > 0 && (rest[0] == ',' || rest[0] == '}')
    ensures ParseMember("\"" + key + "\":" + IntToString(n) + rest) == Some((Member(key, Number(n)), rest))
  {
    var d := IntToString(n);
    var afterKey := ":" + d + rest;
    var s := "\"" + key + "\"" + afterKey;
    assert "\"" + key + "\":" + d + rest == s;
    ParseQuoted(key, afterKey);
    assert ParseString(s) == Some((key, afterKey));
    SkipNonWhitespace(afterKey);
    assert afterKey[1..] == d + rest;
    SkipNonWhitespace(d + rest);
    NumberValue(n, rest);
    SkipNonWhitespace(rest);
  }

  lemma NumberValue(n: int, rest: string)
    requires -INT64_MAX - 1 <= n <= INT64_MAX
    requires |rest| > 0 && (rest[0] == ',' || rest[0] == '}')
    ensures ParseValue(IntToString(n) + rest) == Some((Number(n), rest))
  {
    var s := IntToString(n) + rest;
    assert s[0] == IntToString(n)[0];
    assert s[0] == '-' || IsDigit(s[0]);
    ParseRenderedInt(n, rest);
  }

  /** A member `"key":"text"` followed by a separator parses to that member. */
  lemma TextMember(key: string, text: string, rest: string)
    requires PlainText(key) && PlainText(text)
    requires |rest| > 0 && (rest[0] == ',' || rest[0] == '}')
    ensures ParseMember("\"" + key + "\":\"" + text + "\"" + rest) == Some((Member(key, Text(text)), rest))
  {
    var quoted := "\"" + text + "\"" + rest;
    var afterKey := ":" + quoted;
    assert "\"" + key + "\":\"" + text + "\"" + rest == "\"" + key + "\"" + afterKey;
    ParseQuoted(key, afterKey);
    SkipNonWhitespace(afterKey);
    assert afterKey[1..] == quoted;
    SkipNonWhitespace(quoted);
    ParseQuoted(text, rest);
    SkipNonWhitespace(rest);
  }

  /** An object whose member list parses, followed only by whitespace. */
  lemma ObjectOfMembers(first: string, members: seq<Member>, tail: string)
    requires |first| > 0 && first[0] == '"'
    requires ParseMembers(first) == Some((members, tail))
    requires AllWhitespace(tail)
    ensures ParseObject("{" + first) == Some(members)
  {
    var doc := "{" + first;
    SkipNonWhitespace(doc);
    assert doc[1..] == first;
    SkipNonWhitespace(first);
    SkipAllWhitespace(tail);
  }

  /** The last member of an object, followed by '}' and `tail`. */
  lemma LastMember(s: string, m: Member, tail: string)
    requires ParseMember(s) == Some((m, "}" + tail))
    ensures ParseMembers(s) == Some(([m], tail))
  {
    assert ("}" + tail)[1..] == tail;
  }

  /** A member followed by ',' and further members. */
  lemma NextMember(s: string, m: Member, more: string, ms: seq<Member>, tail: string)
    requires |more| > 0 && !IsWhitespace(more[0])
    requires ParseMember(s) == Some((m, "," + more))
    requires ParseMembers(more) == Some((ms, tail))
    ensures ParseMembers(s) == Some(([m] + ms, tail))
  {
    assert ("," + more)[1..] == more;
    SkipNonWhitespace(more);
  }

  /** Regrouping of the two-member object text, for any rendering `d` of the number. */
  lemma TwoMemberLayout(k1: string, d: string, k2: string, text: string, tail: string)
    ensures "{\"" + k1 + "\":" + d + ",\"" + k2 + "\":\"" + text + "\"}" + tail
         == "{" + ("\"" + k1 + "\":" + d + ("," + ("\"" + k2 + "\":\"" + text + "\"" + ("}" + tail))))
  {
    assert "\"" + k2 + "\":\"" + text + "\"}" + tail == "\"" + k2 + "\":\"" + text + "\"" + ("}" + tail);
  }

  /** `{"k1":<n>,"k2":"text"}` followed by whitespace parses to its two members. */
  lemma TwoMemberObject(k1: string, n: int, k2: string, text: string, tail: string)
    requires PlainText(k1) && PlainText(k2) && PlainText(text)
    requires -INT64_MAX - 1 <= n <= INT64_MAX
    requires AllWhitespace(tail)
    ensures ParseObject("{\"" + k1 + "\":" + IntToString(n) + ",\"" + k2 + "\":\"" + text + "\"}" + tail)
            == Some([Member(k1, Number(n)), Member(k2, Text(text))])
  {
    var second := "\"" + k2 + "\":\"" + text + "\"" + ("}" + tail);
    var first := "\"" + k1 + "\":" + IntToString(n) + ("," + second);
    var m1 := Member(k1, Number(n));
    var m2 := Member(k2, Text(text));
    assert ParseMembers(second) == Some(([m2], tail)) by {
      TextMember(k2, text, "}" + tail);
      LastMember(second, m2, tail);
    }
    NumberMember(k1, n, "," + second);
    assert second[0] == '"';
    NextMember(first, m1, second, [m2], tail);
    assert [m1] + [m2] == [m1, m2];
    assert first[0] == '"';
    ObjectOfMembers(first, [m1, m2], tail);
    TwoMemberLayout(k1, IntToString(n), k2, text, tail);
  }

  /** `{"k":<n>}` followed by whitespace parses to its single member. */
  lemma OneMemberObject(k: string, n: int, tail: string)
    requires PlainText(k)
    requires -INT64_MAX - 1 <= n <= INT64_MAX
    requires AllWhitespace(tail)
    ensures ParseObject("{\"" + k + "\":" + IntToString(n) + "}" + tail) == Some([Member(k, Number(n))])
  {
    var first := "\"" + k + "\":" + IntToString(n) + ("}" + tail);
    assert "{\"" + k + "\":" + IntToString(n) + "}" + tail == "{" + first;
    NumberMember(k, n, "}" + tail);
    LastMember(first, Member(k, Number(n)), tail);
    ObjectOfMembers(first, [Member(k, Number(n))], tail);
  }
}
