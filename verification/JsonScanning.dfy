// What a JSON text looks like to the delimiter scanner, by induction over the grammar.
module JsonScanning {
  import opened DelimiterScanner
  import opened JsonGrammar

  // The two bracket pairs the extractor is used with.
  ghost predicate Brackets(open: char, close: char) {
    (open == '{' && close == '}') || (open == '[' && close == ']')
  }

  // A back-quote occurs only inside string literals, a line feed only outside of them.
  predicate CleanChar(m: Mode, ch: char) {
    if m == Outside then ch != '`' else ch != '\n'
  }

  // Reading s in mode m from depth d meets clean characters only and never goes below zero.
  ghost predicate Tame(m: Mode, s: string, d: int, open: char, close: char)
    decreases |s|
  {
    s == "" ||
    var d' := d + Weight(m, s[0], open, close);
    CleanChar(m, s[0]) && d' >= 0 && Tame(NextMode(m, s[0]), s[1..], d', open, close)
  }

  lemma {:induction false} TameConcat(m: Mode, a: string, b: string, d: int, open: char, close: char)
    ensures Tame(m, a + b, d, open, close)
       <==> Tame(m, a, d, open, close) && Tame(After(m, a), b, d + Net(m, a, open, close), open, close)
    decreases |a|
  {
    if a == "" {
      assert a + b == b;
    } else {
      assert (a + b)[1..] == a[1..] + b;
      TameConcat(NextMode(m, a[0]), a[1..], b, d + Weight(m, a[0], open, close), open, close);
    }
  }

  lemma {:induction false} TameDeeper(m: Mode, s: string, d: int, d': int, open: char, close: char)
    requires Tame(m, s, d, open, close) && d <= d'
    ensures Tame(m, s, d', open, close)
    decreases |s|
  {
    if s != "" {
      var w := Weight(m, s[0], open, close);
      TameDeeper(NextMode(m, s[0]), s[1..], d + w, d' + w, open, close);
    }
  }

  // s starts and ends outside of string literals, is tame and leaves the balance as it was.
  ghost predicate Neutral(s: string, open: char, close: char) {
    && After(Outside, s) == Outside
    && Net(Outside, s, open, close) == 0
    && Tame(Outside, s, 0, open, close)
  }

  lemma NeutralConcat(a: string, b: string, open: char, close: char)
    requires Neutral(a, open, close) && Neutral(b, open, close)
    ensures Neutral(a + b, open, close)
  {
    AfterConcat(Outside, a, b);
    NetConcat(Outside, a, b, open, close);
    TameConcat(Outside, a, b, 0, open, close);
  }

  lemma {:induction false} PlainNeutral(s: string, open: char, close: char)
    requires forall c :: c in s ==> c !in {'"', '`', open, close}
    ensures Neutral(s, open, close)
    decreases |s|
  {
    if s != "" {
      assert s[0] in s && forall c :: c in s[1..] ==> c in s;
      PlainNeutral(s[1..], open, close);
    }
  }

  // Inside a string literal a well-formed character list has no weight and stays inside.
  lemma {:induction false} CharsStayInside(cs: seq<StringChar>, open: char, close: char)
    requires WellFormedChars(cs)
    ensures After(Inside, CharsText(cs)) == Inside
    ensures Net(Inside, CharsText(cs), open, close) == 0
    ensures Tame(Inside, CharsText(cs), 0, open, close)
  {
    if cs != [] {
      var a, b := CharText(cs[0]), CharsText(cs[1..]);
      CharStaysInside(cs[0], open, close);
      CharsStayInside(cs[1..], open, close);
      AfterConcat(Inside, a, b);
      NetConcat(Inside, a, b, open, close);
      TameConcat(Inside, a, b, 0, open, close);
    }
  }

  lemma CharStaysInside(c: StringChar, open: char, close: char)
    requires WellFormedChar(c)
    ensures After(Inside, CharText(c)) == Inside
    ensures Net(Inside, CharText(c), open, close) == 0
    ensures Tame(Inside, CharText(c), 0, open, close)
  {
    match c
    case Unescaped(ch) =>
      assert [ch][1..] == "";
    case TwoChar(ch) =>
      assert ['\\', ch][1..] == [ch] && [ch][1..] == "";
    case Unicode(hex) =>
      var t := "\\u" + hex;
      assert t[1..][0] == 'u' && t[1..][1..] == hex;
      HexStaysInside(hex, open, close);
  }

  lemma {:induction false} HexStaysInside(hex: string, open: char, close: char)
    requires forall c :: c in hex ==> c !in {'"', '\\', '\n'}
    ensures After(Inside, hex) == Inside
    ensures Net(Inside, hex, open, close) == 0
    ensures Tame(Inside, hex, 0, open, close)
    decreases |hex|
  {
    if hex != "" {
      assert hex[0] in hex && forall c :: c in hex[1..] ==> c in hex;
      HexStaysInside(hex[1..], open, close);
    }
  }

  lemma LiteralNeutral(cs: seq<StringChar>, open: char, close: char)
    requires WellFormedChars(cs)
    ensures Neutral(Literal(cs), open, close)
  {
    var body := CharsText(cs);
    CharsStayInside(cs, open, close);
    var s := Literal(cs);
    assert s[0] == '"' && s[1..] == body + "\"";
    AfterConcat(Inside, body, "\"");
    NetConcat(Inside, body, "\"", open, close);
    TameConcat(Inside, body, "\"", 0, open, close);
    assert "\""[1..] == "";
  }

  lemma {:induction false} ValueNeutral(v: Value, open: char, close: char)
    requires WellFormed(v) && Brackets(open, close)
    ensures Neutral(Text(v), open, close)
  {
    match v
    case False => WordsNeutral(open, close);
    case Null => WordsNeutral(open, close);
    case True => WordsNeutral(open, close);
    case Number(minus, integer, fraction, exponent) =>
      NumberPlain(minus, integer, fraction, exponent);
      PlainNeutral(NumberText(minus, integer, fraction, exponent), open, close);
    case String(chars) => LiteralNeutral(chars, open, close);
    case Object(inner, members) =>
      MembersNeutral(members, true, open, close);
      BodyNeutral('{', inner, MembersText(members, true), '}', open, close);
    case Array(inner, elements) =>
      ElementsNeutral(elements, true, open, close);
      BodyNeutral('[', inner, ElementsText(elements, true), ']', open, close);
  }

  lemma WordsNeutral(open: char, close: char)
    requires Brackets(open, close)
    ensures Neutral("false", open, close) && Neutral("null", open, close) && Neutral("true", open, close)
  {
    PlainNeutral("false", open, close);
    PlainNeutral("null", open, close);
    PlainNeutral("true", open, close);
  }

  lemma NumberPlain(minus: bool, integer: string, fraction: string, exponent: seq<Exponent>)
    requires WellFormedNumber(integer, fraction, exponent)
    ensures forall c :: c in NumberText(minus, integer, fraction, exponent) ==>
                          '0' <= c <= '9' || c in {'-', '+', '.', 'e', 'E'}
  {
    if exponent != [] {
      assert exponent[0] in exponent;
    }
  }

  lemma BodyNeutral(l: char, ws: string, body: string, r: char, open: char, close: char)
    requires IsWs(ws) && Neutral(body, open, close) && Brackets(open, close) && Brackets(l, r)
    ensures Neutral(ws + body, open, close)
    ensures Neutral([l] + ws + body + [r], open, close)
  {
    PlainNeutral(ws, open, close);
    NeutralConcat(ws, body, open, close);
    Bracketed(l, ws + body, r, open, close);
    assert [l] + ws + body + [r] == [l] + (ws + body) + [r];
  }

  // Bracketing a neutral text with either pair leaves it neutral: the scanned pair cancels
  // out and the other pair has no weight.
  lemma Bracketed(l: char, body: string, r: char, open: char, close: char)
    requires Brackets(open, close) && Brackets(l, r) && Neutral(body, open, close)
    ensures Neutral([l] + body + [r], open, close)
  {
    var s := [l] + body + [r];
    assert s[0] == l && s[1..] == body + [r];
    var d := Weight(Outside, l, open, close);
    TameDeeper(Outside, body, 0, d, open, close);
    AfterConcat(Outside, body, [r]);
    NetConcat(Outside, body, [r], open, close);
    TameConcat(Outside, body, [r], d, open, close);
    assert [r][1..] == "";
  }

  lemma {:induction false} MembersNeutral(ms: Members, first: bool, open: char, close: char)
    requires WellFormedMembers(ms) && Brackets(open, close)
    ensures Neutral(MembersText(ms, first), open, close)
  {
    match ms
    case NoMembers =>
    case Member(before, name, beforeColon, afterColon, value, after, rest) =>
      SeparatorsNeutral(before, beforeColon, afterColon, after, open, close);
      LiteralNeutral(name, open, close);
      ValueNeutral(value, open, close);
      MembersNeutral(rest, false, open, close);
      MemberParts(ms, first);
      NeutralConcat3((if first then "" else ",") + before, Literal(name), beforeColon + ":" + afterColon,
                     open, close);
      NeutralConcat3(Text(value), after, MembersText(rest, false), open, close);
      NeutralConcat((if first then "" else ",") + before + Literal(name) + (beforeColon + ":" + afterColon),
                    Text(value) + after + MembersText(rest, false), open, close);
  }

  lemma MemberParts(ms: Members, first: bool)
    requires ms.Member?
    ensures MembersText(ms, first)
         == ((if first then "" else ",") + ms.before + Literal(ms.name) + (ms.beforeColon + ":" + ms.afterColon))
            + (Text(ms.value) + ms.after + MembersText(ms.rest, false))
  {
  }

  lemma NeutralConcat3(a: string, b: string, c: string, open: char, close: char)
    requires Neutral(a, open, close) && Neutral(b, open, close) && Neutral(c, open, close)
    ensures Neutral(a + b + c, open, close)
  {
    NeutralConcat(a, b, open, close);
    NeutralConcat(a + b, c, open, close);
  }

  lemma SeparatorsNeutral(before: string, beforeColon: string, afterColon: string, after: string,
                          open: char, close: char)
    requires Brackets(open, close) && IsWs(before) && IsWs(beforeColon) && IsWs(afterColon) && IsWs(after)
    ensures Neutral("" + before, open, close) && Neutral("," + before, open, close)
    ensures Neutral(beforeColon + ":" + afterColon, open, close)
    ensures Neutral(after, open, close)
  {
    PlainNeutral("" + before, open, close);
    PlainNeutral("," + before, open, close);
    PlainNeutral(beforeColon + ":" + afterColon, open, close);
    PlainNeutral(after, open, close);
  }

  lemma {:induction false} ElementsNeutral(es: Elements, first: bool, open: char, close: char)
    requires WellFormedElements(es) && Brackets(open, close)
    ensures Neutral(ElementsText(es, first), open, close)
  {
    match es
    case NoElements =>
    case Element(before, value, after, rest) =>
      SeparatorsNeutral(before, "", "", after, open, close);
      ValueNeutral(value, open, close);
      ElementsNeutral(rest, false, open, close);
      NeutralConcat3((if first then "" else ",") + before, Text(value), after, open, close);
      NeutralConcat((if first then "" else ",") + before + Text(value) + after, ElementsText(rest, false),
                    open, close);
  }

  // A tame text read at depth d never takes the depth below d.
  lemma {:induction false} TamePrefix(m: Mode, s: string, d: int, k: nat, open: char, close: char)
    requires Tame(m, s, d, open, close) && d >= 0 && k <= |s|
    ensures d + Net(m, s[..k], open, close) >= 0
    decreases |s|
  {
    if k > 0 {
      assert s[..k][1..] == s[1..][..k - 1];
      TamePrefix(NextMode(m, s[0]), s[1..], d + Weight(m, s[0], open, close), k - 1, open, close);
    }
  }

  // An object text when the brackets are braces, an array text when they are square.
  ghost predicate IsBracketedText(json: string, open: char, close: char) {
    (open == '{' && close == '}' && IsObjectText(json)) || (open == '[' && close == ']' && IsArrayText(json))
  }

  lemma BracketedShape(json: string, open: char, close: char) returns (body: string)
    requires IsBracketedText(json, open, close)
    ensures Brackets(open, close) && json == [open] + body + [close] && Neutral(body, open, close)
  {
    if open == '{' {
      var v :| WellFormed(v) && v.Object? && json == Text(v);
      body := v.inner + MembersText(v.members, true);
      ObjectBody(v, open, close);
    } else {
      var v :| WellFormed(v) && v.Array? && json == Text(v);
      body := v.inner + ElementsText(v.elements, true);
      ArrayBody(v, open, close);
    }
  }

  lemma ObjectBody(v: Value, open: char, close: char)
    requires WellFormed(v) && v.Object? && Brackets(open, close)
    ensures var body := v.inner + MembersText(v.members, true);
      Text(v) == ['{'] + body + ['}'] && Neutral(body, open, close)
  {
    MembersNeutral(v.members, true, open, close);
    BodyNeutral('{', v.inner, MembersText(v.members, true), '}', open, close);
  }

  lemma ArrayBody(v: Value, open: char, close: char)
    requires WellFormed(v) && v.Array? && Brackets(open, close)
    ensures var body := v.inner + ElementsText(v.elements, true);
      Text(v) == ['['] + body + [']'] && Neutral(body, open, close)
  {
    ElementsNeutral(v.elements, true, open, close);
    BodyNeutral('[', v.inner, ElementsText(v.elements, true), ']', open, close);
  }

  // The scanner, started on the first character of a JSON text, stops exactly on its last.
  lemma ScanFindsEnd(before: string, json: string, more: string, open: char, close: char)
    requires IsBracketedText(json, open, close)
    ensures |json| >= 2
    ensures FirstClose(before + json + more, |before|, |before|, open, close) == |before| + |json| - 1
  {
    var body := BracketedShape(json, open, close);
    var text, start, i := before + json + more, |before|, |before| + |json| - 1;
    forall j | start <= j <= i
      ensures BalanceThrough(text, start, j, open, close) == Net(Outside, json[..j + 1 - start], open, close)
    {
      assert text[start..j + 1] == json[..j + 1 - start];
    }
    assert BalanceThrough(text, start, i, open, close) == 0 by {
      assert json[..|json|] == json;
      Bracketed(open, body, close, open, close);
    }
    forall j | start <= j < i
      ensures BalanceThrough(text, start, j, open, close) != 0
    {
      var k := j - start;
      var p := json[..k + 1];
      assert p[0] == open && p[1..] == body[..k];
      TamePrefix(Outside, body, 0, k, open, close);
    }
    assert text[start] == open;
    assert IsFirstZero(text, start, i, open, close);
    ScannerExact(text, start, open, close);
  }
}
