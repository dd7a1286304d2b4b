// JSON texts as RFC 8259 defines them (sections 2 to 7): concrete syntax trees that keep every
// optional white space, and the text of a tree. A string is a JSON object text exactly when it
// is Text(v) of a well-formed object tree v, and likewise for arrays.
module JsonGrammar {

  // One character of a string literal (section 7).
  datatype StringChar =
    | Unescaped(c: char)
    | TwoChar(c: char)        // \" \\ \/ \b \f \n \r \t
    | Unicode(hex: string)    // \uXXXX

  // exp of a number (section 6): e or E, an optional sign, digits.
  datatype Exponent = Exponent(marker: char, sign: string, digits: string)

  datatype Value =
    | False
    | Null
    | True
    | Number(minus: bool, integer: string, fraction: string, exponent: seq<Exponent>)
    | String(chars: seq<StringChar>)
    | Object(inner: string, members: Members)
    | Array(inner: string, elements: Elements)

  // The white space fields stand between the tokens; an object or array without content has
  // only the white space `inner` between its brackets.
  datatype Members =
    | NoMembers
    | Member(before: string, name: seq<StringChar>, beforeColon: string,
             afterColon: string, value: Value, after: string, rest: Members)

  datatype Elements =
    | NoElements
    | Element(before: string, value: Value, after: string, rest: Elements)

  function CharText(c: StringChar): string {
    match c
    case Unescaped(ch) => [ch]
    case TwoChar(ch) => ['\\', ch]
    case Unicode(hex) => "\\u" + hex
  }

  function CharsText(cs: seq<StringChar>): string {
    if cs == [] then "" else CharText(cs[0]) + CharsText(cs[1..])
  }

  function Literal(cs: seq<StringChar>): string {
    "\"" + CharsText(cs) + "\""
  }

  function NumberText(minus: bool, integer: string, fraction: string, exponent: seq<Exponent>): string {
    (if minus then "-" else "") + integer
    + (if fraction == "" then "" else "." + fraction)
    + (if exponent == [] then "" else [exponent[0].marker] + exponent[0].sign + exponent[0].digits)
  }

  function Text(v: Value): string {
    match v
    case False => "false"
    case Null => "null"
    case True => "true"
    case Number(minus, integer, fraction, exponent) => NumberText(minus, integer, fraction, exponent)
    case String(chars) => Literal(chars)
    case Object(inner, members) => "{" + inner + MembersText(members, true) + "}"
    case Array(inner, elements) => "[" + inner + ElementsText(elements, true) + "]"
  }

  function MembersText(ms: Members, first: bool): string {
    match ms
    case NoMembers => ""
    case Member(before, name, beforeColon, afterColon, value, after, rest) =>
      (if first then "" else ",") + before + Literal(name) + beforeColon + ":" + afterColon
      + Text(value) + after + MembersText(rest, false)
  }

  function ElementsText(es: Elements, first: bool): string {
    match es
    case NoElements => ""
    case Element(before, value, after, rest) =>
      (if first then "" else ",") + before + Text(value) + after + ElementsText(rest, false)
  }

  // ws (section 2)
  predicate IsWs(s: string) {
    forall c :: c in s ==> c in {' ', '\t', '\n', '\r'}
  }

  predicate IsDigits(s: string) {
    s != "" && forall c :: c in s ==> '0' <= c <= '9'
  }

  predicate IsHex(s: string) {
    |s| == 4 && forall c :: c in s ==> '0' <= c <= '9' || 'a' <= c <= 'f' || 'A' <= c <= 'F'
  }

  predicate WellFormedChar(c: StringChar) {
    match c
    case Unescaped(ch) => ' ' <= ch && ch != '"' && ch != '\\'
    case TwoChar(ch) => ch in {'"', '\\', '/', 'b', 'f', 'n', 'r', 't'}
    case Unicode(hex) => IsHex(hex)
  }

  predicate WellFormedChars(cs: seq<StringChar>) {
    forall c :: c in cs ==> WellFormedChar(c)
  }

  predicate WellFormedNumber(integer: string, fraction: string, exponent: seq<Exponent>) {
    && IsDigits(integer) && (|integer| > 1 ==> integer[0] != '0')
    && (fraction == "" || IsDigits(fraction))
    && |exponent| <= 1
    && forall e :: e in exponent ==> e.marker in {'e', 'E'} && e.sign in {"", "+", "-"} && IsDigits(e.digits)
  }

  predicate WellFormed(v: Value) {
    match v
    case False => true
    case Null => true
    case True => true
    case Number(_, integer, fraction, exponent) => WellFormedNumber(integer, fraction, exponent)
    case String(chars) => WellFormedChars(chars)
    case Object(inner, members) => IsWs(inner) && WellFormedMembers(members)
    case Array(inner, elements) => IsWs(inner) && WellFormedElements(elements)
  }

  predicate WellFormedMembers(ms: Members) {
    match ms
    case NoMembers => true
    case Member(before, name, beforeColon, afterColon, value, after, rest) =>
      && IsWs(before) && WellFormedChars(name) && IsWs(beforeColon) && IsWs(afterColon)
      && WellFormed(value) && IsWs(after) && WellFormedMembers(rest)
  }

  predicate WellFormedElements(es: Elements) {
    match es
    case NoElements => true
    case Element(before, value, after, rest) =>
      IsWs(before) && WellFormed(value) && IsWs(after) && WellFormedElements(rest)
  }

  // JSON object and array texts, without surrounding white space.
  ghost predicate IsObjectText(s: string) {
    exists v :: WellFormed(v) && v.Object? && s == Text(v)
  }

  ghost predicate IsArrayText(s: string) {
    exists v :: WellFormed(v) && v.Array? && s == Text(v)
  }

  // --- Texts that belong to the grammar ---

  function Plain(s: string): seq<StringChar> {
    seq(|s|, i requires 0 <= i < |s| => Unescaped(s[i]))
  }

  lemma {:induction false} PlainText(s: string)
    ensures CharsText(Plain(s)) == s
  {
    if s != "" {
      PlainText(s[1..]);
      assert Plain(s)[1..] == Plain(s[1..]);
      assert s == [s[0]] + s[1..];
    }
  }

  lemma PlainWellFormed(s: string)
    requires forall c :: c in s ==> c as int >= 32 && c != '"' && c != '\\'
    ensures WellFormedChars(Plain(s))
  {
    forall k | 0 <= k < |s|
      ensures WellFormedChar(Plain(s)[k])
    {
      assert s[k] in s;
    }
  }

  // An object with a string value, whatever the characters: brackets and back-quotes included.
  lemma StringMember(name: string, s: string)
    requires forall c :: c in name ==> c as int >= 32 && c != '"' && c != '\\'
    requires forall c :: c in s ==> c as int >= 32 && c != '"' && c != '\\'
    ensures IsObjectText("{" + (("\"" + name + "\"") + ":" + ("\"" + s + "\"")) + "}")
  {
    PlainText(name);
    PlainText(s);
    PlainWellFormed(name);
    PlainWellFormed(s);
    OneMember(Plain(name), String(Plain(s)));
  }

  // Values as the one member of an object, and as the one element of an array.
  lemma OneMember(name: seq<StringChar>, v: Value)
    requires WellFormedChars(name) && WellFormed(v)
    ensures IsObjectText("{" + (Literal(name) + ":" + Text(v)) + "}")
  {
    var o := Object("", Member("", name, "", "", v, "", NoMembers));
    OneMemberText(name, v);
    OneMemberWellFormed(name, v);
    assert IsObjectText(Text(o));
  }

  lemma OneMemberWellFormed(name: seq<StringChar>, v: Value)
    requires WellFormedChars(name) && WellFormed(v)
    ensures WellFormed(Object("", Member("", name, "", "", v, "", NoMembers)))
  {
    assert WellFormedMembers(Member("", name, "", "", v, "", NoMembers));
  }

  lemma OneMemberText(name: seq<StringChar>, v: Value)
    ensures Text(Object("", Member("", name, "", "", v, "", NoMembers)))
         == "{" + (Literal(name) + ":" + Text(v)) + "}"
  {
    OneMemberBody(name, v);
    assert "" + (Literal(name) + ":" + Text(v)) == Literal(name) + ":" + Text(v);
  }

  lemma OneMemberBody(name: seq<StringChar>, v: Value)
    ensures MembersText(Member("", name, "", "", v, "", NoMembers), true) == Literal(name) + ":" + Text(v)
  {
    EmptyParts(Literal(name), Text(v));
  }

  lemma EmptyParts(a: string, b: string)
    ensures "" + "" + a + "" + ":" + "" + b + "" + "" == a + ":" + b
  {
  }

  lemma OneElement(v: Value, ws: string)
    requires WellFormed(v) && IsWs(ws)
    ensures IsArrayText("[" + (ws + Text(v)) + "]")
  {
    var a := Array("", Element(ws, v, "", NoElements));
    assert ElementsText(a.elements, true) == ws + Text(v);
    assert Text(a) == "[" + (ws + Text(v)) + "]";
    assert WellFormed(a);
  }

  lemma TwoElements(v: Value, w: Value)
    requires WellFormed(v) && WellFormed(w)
    ensures IsArrayText("[" + (Text(v) + ("," + Text(w))) + "]")
  {
    var a := Array("", Element("", v, "", Element("", w, "", NoElements)));
    PairText(v, w);
    PairWellFormed(v, w);
    assert IsArrayText(Text(a));
  }

  lemma PairWellFormed(v: Value, w: Value)
    requires WellFormed(v) && WellFormed(w)
    ensures WellFormed(Array("", Element("", v, "", Element("", w, "", NoElements))))
  {
    assert WellFormedElements(Element("", w, "", NoElements));
  }

  lemma PairText(v: Value, w: Value)
    ensures Text(Array("", Element("", v, "", Element("", w, "", NoElements))))
         == "[" + (Text(v) + ("," + Text(w))) + "]"
  {
    SeparatedText(v, w);
    assert "" + (Text(v) + ("," + Text(w))) == Text(v) + ("," + Text(w));
  }

  lemma SeparatedText(v: Value, w: Value)
    ensures ElementsText(Element("", v, "", Element("", w, "", NoElements)), true) == Text(v) + ("," + Text(w))
  {
    assert ElementsText(Element("", w, "", NoElements), false) == "," + Text(w);
  }

  // Numbers, literal names, escapes and empty objects.
  lemma SampleValues()
    ensures IsArrayText("[" + ("\t" + "-10.5e+2") + "]")
    ensures IsArrayText("[" + ("true" + ("," + "null")) + "]")
    ensures IsArrayText("[" + ("\n" + "\"\\u00E9\\n]\"") + "]")
    ensures IsArrayText("[" + ("{ }" + ("," + "false")) + "]")
  {
    var number := Number(true, "10", "5", [Exponent('e', "+", "2")]);
    SampleNumber();
    OneElement(number, "\t");
    TwoElements(True, Null);
    SampleString();
    OneElement(String([Unicode("00E9"), TwoChar('n'), Unescaped(']')]), "\n");
    TwoElements(Object(" ", NoMembers), False);
    assert Text(Object(" ", NoMembers)) == "{ }";
  }

  lemma SampleNumber()
    ensures var number := Number(true, "10", "5", [Exponent('e', "+", "2")]);
      WellFormed(number) && Text(number) == "-10.5e+2"
  {
    assert NumberText(true, "10", "5", [Exponent('e', "+", "2")]) == "-10.5e+2";
  }

  lemma SampleString()
    ensures var chars := [Unicode("00E9"), TwoChar('n'), Unescaped(']')];
      WellFormed(String(chars)) && Text(String(chars)) == "\"\\u00E9\\n]\""
  {
    var chars := [Unicode("00E9"), TwoChar('n'), Unescaped(']')];
    var two := [TwoChar('n'), Unescaped(']')];
    assert chars[1..] == two && two[1..] == [Unescaped(']')] && [Unescaped(']')][1..] == [];
    assert CharsText([Unescaped(']')]) == "]" && CharsText(two) == "\\n]";
    assert CharsText(chars) == "\\u00E9\\n]";
  }
}
