// ParseJSON and ParseJSONArray of ai/agent/parse.go, and the theorem that they cut exactly the
// JSON text out of the reply that surrounds it.
module JsonExtraction {
  import opened Options
  import opened DelimiterScanner
  import opened JsonGrammar
  import opened JsonScanning
  import opened CodeFences

  // What is handed to Unmarshal, or why nothing is.
  datatype Extraction = Found(json: string) | NoOpener | Unmatched

  // strings.Index for a single character.
  function IndexFrom(s: string, ch: char, i: nat): int
    decreases |s| - i
  {
    if i >= |s| then -1 else if s[i] == ch then i else IndexFrom(s, ch, i + 1)
  }

  lemma {:induction false} IndexIsFirst(s: string, ch: char, i: nat)
    ensures var r := IndexFrom(s, ch, i);
      && (r == -1 || i <= r < |s|)
      && (r >= 0 ==> s[r] == ch)
      && (forall j :: i <= j < |s| && (r == -1 || j < r) ==> s[j] != ch)
    decreases |s| - i
  {
    if i < |s| && s[i] != ch {
      IndexIsFirst(s, ch, i + 1);
    }
  }

  // The cut out of a text without fences, from its first opening bracket.
  function CutOut(text: string, open: char, close: char): Extraction {
    var start := IndexFrom(text, open, 0);
    if start < 0 then NoOpener
    else
      var end := FirstClose(text, start, start, open, close);
      if start <= end < |text| then Found(text[start..end + 1]) else Unmatched
  }

  // The extraction as one expression over the whole reply.
  function Extract(reply: string, open: char, close: char): Extraction {
    CutOut(TrimSpace(Stripped(reply)), open, close)
  }

  // What the caller gets: a value, or one of the three errors.
  datatype Parsed<T> = Value(value: T) | NoText | NoMatch | InvalidJSON

  // unmarshal is json.Unmarshal for the type that the caller wants.
  method ParseJSON<T>(reply: string, unmarshal: string -> Option<T>) returns (r: Parsed<T>)
    ensures Answers(reply, '{', '}', unmarshal, r)
    ensures r.NoText? <==> '{' !in TrimSpace(Stripped(reply))
    ensures r.NoMatch? <==> Unclosed(TrimSpace(Stripped(reply)), '{', '}')
    ensures forall json :: Extract(reply, '{', '}') == Found(json) ==>
      if unmarshal(json).Some? then r == Value(unmarshal(json).value) else r == InvalidJSON
  {
    r := ParseDelimited(reply, '{', '}', unmarshal);
    NoOtherMeaning(reply, '{', '}');
  }

  method ParseJSONArray<T>(reply: string, unmarshal: string -> Option<T>) returns (r: Parsed<T>)
    ensures Answers(reply, '[', ']', unmarshal, r)
    ensures r.NoText? <==> '[' !in TrimSpace(Stripped(reply))
    ensures r.NoMatch? <==> Unclosed(TrimSpace(Stripped(reply)), '[', ']')
    ensures forall json :: Extract(reply, '[', ']') == Found(json) ==>
      if unmarshal(json).Some? then r == Value(unmarshal(json).value) else r == InvalidJSON
  {
    r := ParseDelimited(reply, '[', ']', unmarshal);
    NoOtherMeaning(reply, '[', ']');
  }

  // The bracket balance from the first opening bracket on never returns to zero.
  ghost predicate Unclosed(text: string, open: char, close: char) {
    exists start: nat :: IsFirstOpener(text, start, open) && NeverZero(text, start, open, close)
  }

  // What is returned for each outcome of the extraction.
  ghost predicate Answers<T>(reply: string, open: char, close: char, unmarshal: string -> Option<T>, r: Parsed<T>) {
    match Extract(reply, open, close)
    case NoOpener => r.NoText?
    case Unmatched => r.NoMatch?
    case Found(json) => if unmarshal(json).Some? then r == Value(unmarshal(json).value) else r.InvalidJSON?
  }

  // The common text of the two methods above.
  method ParseDelimited<T>(reply: string, open: char, close: char, unmarshal: string -> Option<T>)
    returns (r: Parsed<T>)
    ensures Answers(reply, open, close, unmarshal, r)
  {
    var text := StripCodeFences(reply);
    text := TrimSpace(text);
    var start := IndexFrom(text, open, 0);
    if start == -1 {
      return NoText;
    }
    IndexIsFirst(text, open, 0);
    var end := FindMatchingDelimiter(text, start, open, close);
    FirstCloseIsLeast(text, start, start, open, close);
    if end == -1 {
      return NoMatch;
    }
    var decoded := unmarshal(text[start..end + 1]);
    if decoded.None? {
      return InvalidJSON;
    }
    return Value(decoded.value);
  }

  // The three outcomes exclude each other.
  lemma NoOtherMeaning(reply: string, open: char, close: char)
    requires Brackets(open, close)
    ensures var text, r := TrimSpace(Stripped(reply)), Extract(reply, open, close);
      && (r.NoOpener? <==> open !in text) && (r.Unmatched? <==> Unclosed(text, open, close))
  {
    ExtractMeaning(reply, open, close);
    var text, r := TrimSpace(Stripped(reply)), Extract(reply, open, close);
    forall start: nat | IsFirstOpener(text, start, open)
      ensures IndexFrom(text, open, 0) == start
    {
      OpenerIsIndex(text, start, open);
    }
    if r.Found? {
      var start: nat :| IsFirstOpener(text, start, open) && IsCut(text, start, r.json, open, close);
      assert !NeverZero(text, start, open, close);
    }
  }

  lemma OpenerIsIndex(text: string, start: nat, open: char)
    requires IsFirstOpener(text, start, open)
    ensures IndexFrom(text, open, 0) == start
  {
    IndexIsFirst(text, open, 0);
    assert forall k :: 0 <= k < start ==> text[k] == text[..start][k];
  }

  // --- What the fence stripper keeps of a reply  prefix + json + suffix ---

  // The part of the line that the JSON text starts on which precedes the text.
  function LastLine(prefix: string): string {
    var lines := Split(prefix);
    lines[|lines| - 1]
  }

  predicate OpensFence(prefix: string) {
    HasPrefix(TrimLeft(LastLine(prefix)), "```")
  }

  // The prefix without its fence lines; its last, unfinished line is kept.
  function KeptPrefix(prefix: string): string {
    var lines := Split(prefix);
    Join(Kept(lines[..|lines| - 1]) + [LastLine(prefix)])
  }

  // Like Kept, except that the first line stays whatever it is.
  function KeptAfterFirst(lines: seq<string>): seq<string>
    requires lines != []
  {
    [lines[0]] + Kept(lines[1..])
  }

  function KeptSuffix(suffix: string): string {
    Join(KeptAfterFirst(Split(suffix)))
  }

  // A line on which nothing but white space precedes its first other character, which is no
  // back-quote, cannot be a fence.
  predicate StartsNoFence(line: string) {
    TrimLeft(line) != "" ==> TrimLeft(line)[0] != '`'
  }

  // No line of a text that the scanner finds tame starts a fence, apart perhaps from a first
  // line that begins inside a string literal.
  lemma {:induction false} TameLinesStartNoFence(m: Mode, s: string, d: int, open: char, close: char, k: nat)
    requires Tame(m, s, d, open, close)
    requires k < |Split(s)| && (k > 0 || m == Outside)
    ensures StartsNoFence(Split(s)[k])
    decreases |s|
  {
    if s != "" {
      var d' := d + Weight(m, s[0], open, close);
      var m' := NextMode(m, s[0]);
      if s[0] == '\n' {
        if k > 0 {
          TameLinesStartNoFence(m', s[1..], d', open, close, k - 1);
        }
      } else if k > 0 {
        TameLinesStartNoFence(m', s[1..], d', open, close, k);
        assert Split(s)[k] == Split(s[1..])[k];
      } else {
        var line := Split(s)[0];
        assert line[0] == s[0] && line[1..] == Split(s[1..])[0];
        if IsSpace(s[0]) {
          TameLinesStartNoFence(m', s[1..], d', open, close, 0);
        }
      }
    }
  }

  // No line of a JSON text is, or begins, a fence, whatever follows on its last line.
  lemma JsonLinesSafe(json: string, open: char, close: char)
    requires IsBracketedText(json, open, close)
    ensures forall k :: 0 <= k < |Split(json)| ==> StartsNoFence(Split(json)[k])
    ensures TrimLeft(LastLine(json)) != ""
  {
    var body := BracketedShape(json, open, close);
    Bracketed(open, body, close, open, close);
    forall k | 0 <= k < |Split(json)|
      ensures StartsNoFence(Split(json)[k])
    {
      TameLinesStartNoFence(Outside, json, 0, open, close, k);
    }
    SplitConcat([open] + body, [close]);
    var l := Split([open] + body);
    assert Split([close]) == [[close]] by {
      assert [close][1..] == "";
      assert Split("") == [""];
      assert [close] + "" == [close];
    }
    assert LastLine(json) == l[|l| - 1] + [close];
    TrimLeftConcat(l[|l| - 1], [close]);
  }

  lemma NoFence(line: string, more: string)
    requires StartsNoFence(line)
    ensures !IsFence(line)
    ensures TrimLeft(line) != "" ==> !IsFence(line + more)
  {
    FenceByStart(line);
    FenceByStart(line + more);
    TrimLeftConcat(line, more);
    FenceStart(TrimLeft(line));
    FenceStart(TrimLeft(line + more));
  }

  lemma FenceStart(s: string)
    ensures HasPrefix(s, "```") ==> s != "" && s[0] == '`'
  {
    if HasPrefix(s, "```") {
      assert s[0] == "```"[0];
    }
  }

  // Filtering lines that are glued together at a line which is kept.
  lemma KeptGlue(a: seq<string>, b: seq<string>)
    requires a != [] && b != [] && !IsFence(a[|a| - 1] + b[0])
    ensures Kept(Glue(a, b)) == Glue(Kept(a[..|a| - 1]) + [a[|a| - 1]], KeptAfterFirst(b))
  {
    var line := a[|a| - 1] + b[0];
    var before := Kept(a[..|a| - 1]);
    KeptConcat(a[..|a| - 1] + [line], b[1..]);
    KeptConcat(a[..|a| - 1], [line]);
    KeptAll([line]);
    GlueAtEnd(before, a[|a| - 1], b[0], Kept(b[1..]));
  }

  lemma GlueAtEnd(before: seq<string>, x: string, y: string, after: seq<string>)
    ensures Glue(before + [x], [y] + after) == before + [x + y] + after
  {
    assert (before + [x])[..|before|] == before && ([y] + after)[1..] == after;
  }

  lemma KeptAfterFirstGlue(a: seq<string>, b: seq<string>)
    requires a != [] && b != []
    requires forall k :: 1 <= k < |a| - 1 ==> !IsFence(a[k])
    requires |a| > 1 ==> !IsFence(a[|a| - 1] + b[0])
    ensures KeptAfterFirst(Glue(a, b)) == Glue(a, KeptAfterFirst(b))
  {
    if |a| == 1 {
      assert a[..0] == [];
      assert Glue(a, b)[1..] == b[1..];
    } else {
      var rest := a[1..];
      assert a == [a[0]] + rest;
      KeptRest(rest, b);
      GlueCons(a[0], rest, b);
      GlueCons(a[0], rest, KeptAfterFirst(b));
    }
  }

  lemma KeptRest(a: seq<string>, b: seq<string>)
    requires a != [] && b != []
    requires forall k :: 0 <= k < |a| - 1 ==> !IsFence(a[k])
    requires !IsFence(a[|a| - 1] + b[0])
    ensures Kept(Glue(a, b)) == Glue(a, KeptAfterFirst(b))
  {
    var n := |a| - 1;
    KeptGlue(a, b);
    KeptAll(a[..n]);
    assert a == a[..n] + [a[n]];
  }

  // The fence stripper leaves a JSON text alone and treats the lines after it on their own.
  lemma JsonKept(json: string, suffix: string, open: char, close: char)
    requires IsBracketedText(json, open, close)
    ensures KeptSuffix(json + suffix) == json + KeptSuffix(suffix)
  {
    var js, ss := Split(json), Split(suffix);
    SplitConcat(json, suffix);
    JsonLinesSafe(json, open, close);
    forall k | 0 <= k < |js|
      ensures !IsFence(js[k]) && (k == |js| - 1 ==> !IsFence(js[k] + ss[0]))
    {
      NoFence(js[k], ss[0]);
    }
    KeptAfterFirstGlue(js, ss);
    JoinGlue(js, KeptAfterFirst(ss));
    JoinSplit(json);
  }

  // Stripping a text that is cut in two inside a line which is kept.
  lemma StrippedConcat(prefix: string, text: string)
    requires !IsFence(LastLine(prefix) + Split(text)[0])
    ensures Stripped(prefix + text) == KeptPrefix(prefix) + KeptSuffix(text)
  {
    var ps, ts := Split(prefix), Split(text);
    SplitConcat(prefix, text);
    KeptGlue(ps, ts);
    JoinGlue(Kept(ps[..|ps| - 1]) + [LastLine(prefix)], KeptAfterFirst(ts));
  }

  // A line that continues with a JSON text is a fence exactly when it already started one.
  lemma FenceBeforeOpener(line: string, more: string, open: char, close: char)
    requires Brackets(open, close) && more != "" && more[0] == open
    ensures IsFence(line + more) <==> HasPrefix(TrimLeft(line), "```")
  {
    FenceByStart(line + more);
    TrimLeftConcat(line, more);
    var t := TrimLeft(line);
    assert TrimLeft(more) == more;
    assert |t| < 3 && t + more != "" ==> (t + more)[|t|] == open;
    assert |t| >= 3 ==> (t + more)[..3] == t[..3];
  }

  lemma SplitStart(json: string, text: string, open: char)
    requires json != "" && json[0] == open && open != '\n'
    ensures Split(json + text)[0] != "" && Split(json + text)[0][0] == open
  {
    assert (json + text)[0] == open;
  }

  lemma StrippedAroundJson(prefix: string, json: string, suffix: string, open: char, close: char)
    requires IsBracketedText(json, open, close) && !OpensFence(prefix)
    ensures Stripped(prefix + (json + suffix)) == KeptPrefix(prefix) + (json + KeptSuffix(suffix))
  {
    var body := BracketedShape(json, open, close);
    SplitStart(json, suffix, open);
    FenceBeforeOpener(LastLine(prefix), Split(json + suffix)[0], open, close);
    StrippedConcat(prefix, json + suffix);
    JsonKept(json, suffix, open, close);
  }

  lemma TrimLeftBefore(kept: string, text: string)
    requires text != "" && !IsSpace(text[0])
    ensures TrimLeft(kept + text) == TrimLeft(kept) + text
  {
    TrimLeftConcat(kept, text);
    assert "" + text == text;
  }

  lemma TrimAround(kept: string, json: string, rest: string)
    requires json != "" && !IsSpace(json[0]) && !IsSpace(json[|json| - 1])
    ensures TrimSpace(kept + (json + rest)) == TrimLeft(kept) + (json + TrimRight(rest))
  {
    var left := TrimLeft(kept);
    calc {
      TrimSpace(kept + (json + rest));
      { TrimLeftBefore(kept, json + rest); }
      TrimRight(left + (json + rest));
      { assert left + (json + rest) == (left + json) + rest; }
      TrimRight((left + json) + rest);
      { TrimRightConcat(left + json, rest); }
      (left + json) + TrimRight(rest);
      { assert (left + json) + TrimRight(rest) == left + (json + TrimRight(rest)); }
      left + (json + TrimRight(rest));
    }
  }

  lemma IndexAfter(kept: string, text: string, ch: char)
    requires ch !in kept && text != "" && text[0] == ch
    ensures IndexFrom(kept + text, ch, 0) == |kept|
  {
    IndexIsFirst(kept + text, ch, 0);
    assert (kept + text)[|kept|] == ch;
    assert forall r :: 0 <= r < |kept| ==> (kept + text)[r] in kept;
  }

  // What happens to a trimmed text  kept + json + rest.
  lemma ExtractsFrom(reply: string, kept: string, json: string, rest: string, open: char, close: char)
    requires IsBracketedText(json, open, close) && open !in kept
    requires TrimSpace(Stripped(reply)) == kept + (json + rest)
    ensures Extract(reply, open, close) == Found(json)
  {
    var body := BracketedShape(json, open, close);
    IndexAfter(kept, json + rest, open);
    assert kept + (json + rest) == kept + json + rest;
    ScanFindsEnd(kept, json, rest, open, close);
    assert (kept + json + rest)[|kept|..|kept| + |json|] == json;
  }

  // Extraction round trip. In a reply  prefix + json + suffix  where json is an object text (array
  // text), no fence is open on the line it starts on and what is kept before it holds no opening
  // bracket, exactly the JSON text is cut out, whatever the suffix is.
  lemma ExtractsEmbedded(prefix: string, json: string, suffix: string, open: char, close: char)
    requires IsBracketedText(json, open, close)
    requires open !in KeptPrefix(prefix) && !OpensFence(prefix)
    ensures Extract(prefix + (json + suffix), open, close) == Found(json)
  {
    StrippedAroundJson(prefix, json, suffix, open, close);
    BracketedEnds(json, open, close);
    TrimAround(KeptPrefix(prefix), json, KeptSuffix(suffix));
    TrimLeftSuffix(KeptPrefix(prefix));
    var kept, rest := TrimLeft(KeptPrefix(prefix)), TrimRight(KeptSuffix(suffix));
    ExtractsFrom(prefix + (json + suffix), kept, json, rest, open, close);
  }

  lemma BracketedEnds(json: string, open: char, close: char)
    requires IsBracketedText(json, open, close)
    ensures |json| >= 2 && json[0] == open && json[|json| - 1] == close && Brackets(open, close)
  {
    var body := BracketedShape(json, open, close);
  }

  // --- The condition of the round trip is exact ---

  // Occurrences of one character.
  function Count(s: string, ch: char): nat {
    multiset(s)[ch]
  }

  function CountLines(lines: seq<string>, ch: char): nat {
    if lines == [] then 0 else Count(lines[0], ch) + CountLines(lines[1..], ch)
  }

  lemma {:induction false} CountLinesConcat(a: seq<string>, b: seq<string>, ch: char)
    ensures CountLines(a + b, ch) == CountLines(a, ch) + CountLines(b, ch)
  {
    if a == [] {
      assert a + b == b;
    } else {
      assert (a + b)[1..] == a[1..] + b;
      CountLinesConcat(a[1..], b, ch);
    }
  }

  lemma {:induction false} CountJoin(lines: seq<string>, ch: char)
    requires ch != '\n'
    ensures Count(Join(lines), ch) == CountLines(lines, ch)
  {
    if |lines| == 1 {
      assert lines[1..] == [];
    } else if lines != [] {
      CountJoin(lines[1..], ch);
    }
  }

  lemma {:induction false} CountKept(lines: seq<string>, ch: char)
    ensures CountLines(Kept(lines), ch) <= CountLines(lines, ch)
  {
    if lines != [] {
      CountKept(lines[1..], ch);
      CountLinesConcat(if IsFence(lines[0]) then [] else [lines[0]], Kept(lines[1..]), ch);
      assert [lines[0]][1..] == [];
    }
  }

  lemma CountSlice(s: string, i: nat, j: nat, ch: char)
    requires i <= j <= |s|
    ensures Count(s[i..j], ch) <= Count(s, ch)
  {
    assert s == s[..i] + s[i..j] + s[j..];
  }

  lemma CountZero(s: string, ch: char)
    ensures Count(s, ch) == 0 <==> ch !in s
  {
  }

  lemma CountTrim(s: string, ch: char)
    ensures Count(TrimSpace(s), ch) <= Count(s, ch)
  {
    var t := TrimLeft(s);
    TrimLeftSuffix(s);
    TrimRightPrefix(t);
    CountSlice(s, |s| - |t|, |s|, ch);
    assert t == s[|s| - |t|..|s|];
    CountSlice(t, 0, |TrimRight(t)|, ch);
    assert TrimRight(t) == t[0..|TrimRight(t)|];
  }

  // What is found never holds more opening brackets than the stripped reply.
  lemma FoundCount(reply: string, open: char, close: char)
    requires Extract(reply, open, close).Found?
    ensures Count(Extract(reply, open, close).json, open) <= Count(Stripped(reply), open)
  {
    var text := TrimSpace(Stripped(reply));
    CountTrim(Stripped(reply), open);
    var start := IndexFrom(text, open, 0);
    var end := FirstClose(text, start, start, open, close);
    CountSlice(text, start, end + 1, open);
  }

  // When a fence is open on the line that the JSON text starts on, that line goes and the text with it.
  lemma FenceSwallows(prefix: string, json: string, open: char, close: char)
    requires IsBracketedText(json, open, close)
    requires open !in KeptPrefix(prefix) && OpensFence(prefix)
    ensures Extract(prefix + json, open, close) != Found(json)
  {
    BracketedEnds(json, open, close);
    SplitConcat(prefix, json);
    SplitStart(json, "", open);
    assert json + "" == json;
    FenceBeforeOpener(LastLine(prefix), Split(json)[0], open, close);
    DroppedGlue(Split(prefix), Split(json));
    SwallowedCount(prefix, json, open);
    if Extract(prefix + json, open, close).Found? {
      FoundCount(prefix + json, open, close);
    }
  }

  lemma DroppedGlue(a: seq<string>, b: seq<string>)
    requires a != [] && b != [] && IsFence(a[|a| - 1] + b[0])
    ensures Kept(Glue(a, b)) == Kept(a[..|a| - 1]) + Kept(b[1..])
  {
    var line := a[|a| - 1] + b[0];
    KeptConcat(a[..|a| - 1] + [line], b[1..]);
    KeptConcat(a[..|a| - 1], [line]);
    assert Kept([line]) == [] by { assert [line][1..] == []; }
  }

  lemma SwallowedCount(prefix: string, json: string, ch: char)
    requires ch != '\n' && ch !in KeptPrefix(prefix) && ch in Split(json)[0]
    ensures var ps := Split(prefix);
      Count(Join(Kept(ps[..|ps| - 1]) + Kept(Split(json)[1..])), ch) < Count(json, ch)
  {
    var ps, js := Split(prefix), Split(json);
    var before := Kept(ps[..|ps| - 1]);
    CountJoin(before + [LastLine(prefix)], ch);
    CountLinesConcat(before, [LastLine(prefix)], ch);
    CountZero(KeptPrefix(prefix), ch);
    CountJoin(before + Kept(js[1..]), ch);
    CountLinesConcat(before, Kept(js[1..]), ch);
    CountKept(js[1..], ch);
    JoinSplit(json);
    CountJoin(js, ch);
    CountZero(js[0], ch);
  }

  // For a prefix that keeps no opening bracket, the JSON is recovered whatever follows, if and only
  // if the line it starts on has not begun as a fence.
  lemma ExtractionExact(prefix: string, json: string, open: char, close: char)
    requires IsBracketedText(json, open, close) && open !in KeptPrefix(prefix)
    ensures (forall suffix :: Extract(prefix + (json + suffix), open, close) == Found(json)) <==> !OpensFence(prefix)
  {
    if OpensFence(prefix) {
      FenceSwallows(prefix, json, open, close);
      assert prefix + (json + "") == prefix + json;
      assert Extract(prefix + (json + ""), open, close) != Found(json);
    } else {
      forall suffix
        ensures Extract(prefix + (json + suffix), open, close) == Found(json)
      {
        ExtractsEmbedded(prefix, json, suffix, open, close);
      }
    }
  }

  // What an answer says about the stripped and trimmed reply.
  ghost predicate Means(r: Extraction, text: string, open: char, close: char) {
    match r
    case NoOpener => open !in text
    case Unmatched => exists start: nat :: IsFirstOpener(text, start, open) && NeverZero(text, start, open, close)
    case Found(json) => exists start: nat :: IsFirstOpener(text, start, open) && IsCut(text, start, json, open, close)
  }

  // What any answer means: the cut begins at the first opening bracket of the stripped and
  // trimmed reply and ends where the balance from there first returns to zero.
  lemma ExtractMeaning(reply: string, open: char, close: char)
    requires Brackets(open, close)
    ensures Means(Extract(reply, open, close), TrimSpace(Stripped(reply)), open, close)
  {
    CutOutMeaning(TrimSpace(Stripped(reply)), open, close);
  }

  lemma CutOutMeaning(text: string, open: char, close: char)
    requires Brackets(open, close)
    ensures Means(CutOut(text, open, close), text, open, close)
  {
    IndexIsFirst(text, open, 0);
    if IndexFrom(text, open, 0) >= 0 {
      var start: nat := IndexFrom(text, open, 0);
      assert IsFirstOpener(text, start, open);
      CutMeaning(text, start, open, close);
      var end := FirstClose(text, start, start, open, close);
      if end == -1 {
        assert CutOut(text, open, close) == Unmatched;
      } else {
        assert CutOut(text, open, close) == Found(text[start..end + 1]);
      }
    }
  }

  // What the scanner's answer from an opening bracket says about the text it cuts out.
  lemma CutMeaning(text: string, start: nat, open: char, close: char)
    requires Brackets(open, close) && IsFirstOpener(text, start, open)
    ensures var end := FirstClose(text, start, start, open, close);
      && (end == -1 || start <= end < |text|)
      && (end == -1 ==> NeverZero(text, start, open, close))
      && (end >= 0 ==> IsCut(text, start, text[start..end + 1], open, close))
  {
    ScannerExact(text, start, open, close);
    FirstCloseIsLeast(text, start, start, open, close);
    var end := FirstClose(text, start, start, open, close);
    if end >= 0 {
      assert IsFirstZero(text, start, end, open, close);
      assert |text[start..end + 1]| == end + 1 - start;
    }
  }

  ghost predicate IsFirstOpener(text: string, start: nat, open: char) {
    start < |text| && text[start] == open && open !in text[..start]
  }

  ghost predicate NeverZero(text: string, start: nat, open: char, close: char) {
    forall i :: start <= i < |text| ==> BalanceThrough(text, start, i, open, close) != 0
  }

  ghost predicate IsCut(text: string, start: nat, json: string, open: char, close: char) {
    && json != "" && start + |json| <= |text| && json == text[start..start + |json|]
    && IsFirstZero(text, start, start + |json| - 1, open, close)
  }

  // --- The two replies one meets in practice ---

  lemma KeptPrefixChars(prefix: string, ch: char)
    requires ch !in prefix && ch != '\n'
    ensures ch !in KeptPrefix(prefix)
  {
    var ps := Split(prefix);
    JoinSplit(prefix);
    CountJoin(ps, ch);
    CountZero(prefix, ch);
    KeptButLast(ps, ch);
    CountZero(KeptPrefix(prefix), ch);
  }

  lemma KeptButLast(lines: seq<string>, ch: char)
    requires lines != [] && ch != '\n'
    ensures Count(Join(Kept(lines[..|lines| - 1]) + [lines[|lines| - 1]]), ch) <= CountLines(lines, ch)
  {
    var before, last := lines[..|lines| - 1], [lines[|lines| - 1]];
    assert lines == before + last;
    CountLinesConcat(before, last, ch);
    CountKept(before, ch);
    CountLinesConcat(Kept(before), last, ch);
    CountJoin(Kept(before) + last, ch);
  }

  // Prose without an opening bracket and without a fence before the JSON: no line is lost.
  lemma ExtractsAfterProse(prose: string, json: string, suffix: string, open: char, close: char)
    requires IsBracketedText(json, open, close)
    requires open !in prose && !OpensFence(prose)
    ensures Extract(prose + (json + suffix), open, close) == Found(json)
  {
    BracketedEnds(json, open, close);
    KeptPrefixChars(prose, open);
    ExtractsEmbedded(prose, json, suffix, open, close);
  }

  // Prose, a fence line, JSON, and anything after it, such as a closing fence.
  lemma ExtractsFromFence(prose: string, info: string, json: string, suffix: string, open: char, close: char)
    requires IsBracketedText(json, open, close)
    requires open !in prose && open !in info
    ensures Extract(prose + "\n```" + info + "\n" + (json + suffix), open, close) == Found(json)
  {
    BracketedEnds(json, open, close);
    var before := prose + "\n```" + info;
    LastLineAfterNewline(before);
    assert open !in before + "\n";
    ExtractsAfterProse(before + "\n", json, suffix, open, close);
  }

  // The commonest reply: it begins with the fence line.
  lemma ExtractsFromLeadingFence(info: string, json: string, suffix: string, open: char, close: char)
    requires IsBracketedText(json, open, close) && open !in info
    ensures Extract("```" + info + "\n" + (json + suffix), open, close) == Found(json)
  {
    BracketedEnds(json, open, close);
    var before := "```" + info;
    LastLineAfterNewline(before);
    assert open !in before + "\n";
    ExtractsAfterProse(before + "\n", json, suffix, open, close);
  }

  lemma LastLineAfterNewline(before: string)
    ensures LastLine(before + "\n") == ""
  {
    SplitConcat(before, "\n");
    assert Split("\n") == ["", ""] by {
      assert "\n"[1..] == "";
      assert Split("") == [""];
    }
  }

  // What the caller gets for a JSON object in a fenced reply with prose before it: what Unmarshal
  // makes of the object, and an error exactly when that fails.
  method ParseFencedReply<T>(prose: string, info: string, json: string, suffix: string,
                             unmarshal: string -> Option<T>) returns (r: Parsed<T>)
    requires IsObjectText(json) && '{' !in prose && '{' !in info
    ensures if unmarshal(json).Some? then r == Value(unmarshal(json).value) else r == InvalidJSON
  {
    ExtractsFromFence(prose, info, json, suffix, '{', '}');
    r := ParseJSON(prose + "\n```" + info + "\n" + (json + suffix), unmarshal);
  }

  // The same for a JSON text anywhere in a reply, under the conditions of ExtractsEmbedded.
  method ParseObjectReply<T>(prefix: string, json: string, suffix: string, unmarshal: string -> Option<T>)
    returns (r: Parsed<T>)
    requires IsObjectText(json) && '{' !in KeptPrefix(prefix) && !OpensFence(prefix)
    ensures if unmarshal(json).Some? then r == Value(unmarshal(json).value) else r == InvalidJSON
  {
    ExtractsEmbedded(prefix, json, suffix, '{', '}');
    r := ParseJSON(prefix + (json + suffix), unmarshal);
  }

  method ParseArrayReply<T>(prefix: string, json: string, suffix: string, unmarshal: string -> Option<T>)
    returns (r: Parsed<T>)
    requires IsArrayText(json) && '[' !in KeptPrefix(prefix) && !OpensFence(prefix)
    ensures if unmarshal(json).Some? then r == Value(unmarshal(json).value) else r == InvalidJSON
  {
    ExtractsEmbedded(prefix, json, suffix, '[', ']');
    r := ParseJSONArray(prefix + (json + suffix), unmarshal);
  }
}
