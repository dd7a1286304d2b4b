// The text helpers of ai/agent/parse.go: white-space trimming, splitting into lines and the
// removal of markdown fence lines.
module CodeFences {

  // unicode.IsSpace
  predicate IsSpace(ch: char) {
    var c := ch as int;
    || 9 <= c <= 13 || c == 0x20 || c == 0x85 || c == 0xA0 || c == 0x1680
    || 0x2000 <= c <= 0x200A || c == 0x2028 || c == 0x2029 || c == 0x202F || c == 0x205F || c == 0x3000
  }

  function TrimLeft(s: string): string {
    if s != "" && IsSpace(s[0]) then TrimLeft(s[1..]) else s
  }

  function TrimRight(s: string): string {
    if s != "" && IsSpace(s[|s| - 1]) then TrimRight(s[..|s| - 1]) else s
  }

  function TrimSpace(s: string): string {
    TrimRight(TrimLeft(s))
  }

  predicate HasPrefix(s: string, prefix: string) {
    prefix <= s
  }

  predicate IsFence(line: string) {
    HasPrefix(TrimSpace(line), "```")
  }

  function Split(text: string): (lines: seq<string>)
    ensures lines != []
  {
    if text == "" then [""]
    else
      var rest := Split(text[1..]);
      if text[0] == '\n' then [""] + rest else [[text[0]] + rest[0]] + rest[1..]
  }

  function Join(lines: seq<string>): string {
    if lines == [] then ""
    else if |lines| == 1 then lines[0]
    else lines[0] + "\n" + Join(lines[1..])
  }

  // The lines that are not fences.
  function Kept(lines: seq<string>): seq<string> {
    if lines == [] then []
    else (if IsFence(lines[0]) then [] else [lines[0]]) + Kept(lines[1..])
  }

  function Stripped(text: string): string {
    Join(Kept(Split(text)))
  }

  lemma KeptStep(lines: seq<string>, i: nat, out: seq<string>)
    requires i < |lines|
    ensures out + Kept(lines[i..])
         == (if IsFence(lines[i]) then out else out + [lines[i]]) + Kept(lines[i + 1..])
  {
    assert lines[i..][0] == lines[i] && lines[i..][1..] == lines[i + 1..];
    assert out + ([lines[i]] + Kept(lines[i + 1..])) == (out + [lines[i]]) + Kept(lines[i + 1..]);
  }

  method StripCodeFences(text: string) returns (r: string)
    ensures r == Stripped(text)
  {
    var lines := Split(text);
    var out: seq<string> := [];
    assert lines[0..] == lines;
    for i := 0 to |lines|
      invariant Kept(lines) == out + Kept(lines[i..])
    {
      var line := lines[i];
      KeptStep(lines, i, out);
      var trimmed := TrimSpace(line);
      if HasPrefix(trimmed, "```") {
        continue;
      }
      out := out + [line];
    }
    assert lines[|lines|..] == [] && out + [] == out;
    return Join(out);
  }

  // --- Splitting and joining are inverse and compatible with concatenation ---

  lemma {:induction false} JoinSplit(text: string)
    ensures Join(Split(text)) == text
  {
    if text != "" {
      JoinSplit(text[1..]);
      var rest := Split(text[1..]);
      assert text == [text[0]] + text[1..];
      if text[0] == '\n' {
        assert ([""] + rest)[1..] == rest;
      } else if |rest| > 1 {
        assert Split(text)[1..] == rest[1..];
      }
    }
  }

  // The last line of a and the first line of b become one line.
  function Glue(a: seq<string>, b: seq<string>): seq<string>
    requires a != [] && b != []
  {
    a[..|a| - 1] + [a[|a| - 1] + b[0]] + b[1..]
  }

  lemma GlueCons(line: string, a: seq<string>, b: seq<string>)
    requires a != [] && b != []
    ensures Glue([line] + a, b) == [line] + Glue(a, b)
  {
    var l := [line] + a;
    assert l[..|l| - 1] == [line] + a[..|a| - 1];
  }

  lemma GluePrefix(x: string, a: seq<string>, b: seq<string>)
    requires a != [] && b != []
    ensures Glue([x + a[0]] + a[1..], b) == [x + Glue(a, b)[0]] + Glue(a, b)[1..]
  {
    var l := [x + a[0]] + a[1..];
    if |a| == 1 {
      assert l == [x + a[0]] && a[..0] == [] && l[..0] == [];
      assert (x + a[0]) + b[0] == x + (a[0] + b[0]);
    } else {
      assert l[..|l| - 1] == [x + a[0]] + a[1..|a| - 1];
      assert Glue(a, b) == [a[0]] + (a[1..|a| - 1] + [a[|a| - 1] + b[0]] + b[1..]);
    }
  }

  lemma {:induction false} SplitConcat(a: string, b: string)
    ensures Split(a + b) == Glue(Split(a), Split(b))
  {
    if a == "" {
      assert a + b == b;
      assert "" + Split(b)[0] == Split(b)[0];
    } else {
      assert (a + b)[1..] == a[1..] + b;
      SplitConcat(a[1..], b);
      if a[0] == '\n' {
        GlueCons("", Split(a[1..]), Split(b));
      } else {
        GluePrefix([a[0]], Split(a[1..]), Split(b));
      }
    }
  }

  lemma {:induction false} JoinGlue(a: seq<string>, b: seq<string>)
    requires a != [] && b != []
    ensures Join(Glue(a, b)) == Join(a) + Join(b)
  {
    if |a| == 1 {
      if |b| > 1 {
        assert Glue(a, b)[1..] == b[1..];
        assert (a[0] + b[0]) + "\n" + Join(b[1..]) == a[0] + (b[0] + "\n" + Join(b[1..]));
      }
    } else {
      JoinGlue(a[1..], b);
      assert Glue(a, b)[1..] == Glue(a[1..], b);
    }
  }

  lemma {:induction false} KeptConcat(a: seq<string>, b: seq<string>)
    ensures Kept(a + b) == Kept(a) + Kept(b)
  {
    if a == [] {
      assert a + b == b;
    } else {
      assert (a + b)[1..] == a[1..] + b;
      KeptConcat(a[1..], b);
    }
  }

  lemma {:induction false} KeptAll(lines: seq<string>)
    requires forall k :: 0 <= k < |lines| ==> !IsFence(lines[k])
    ensures Kept(lines) == lines
  {
    if lines != [] {
      KeptAll(lines[1..]);
    }
  }

  // --- Trimming ---

  lemma {:induction false} TrimLeftConcat(a: string, b: string)
    ensures TrimLeft(a + b) == if TrimLeft(a) == "" then TrimLeft(b) else TrimLeft(a) + b
  {
    if a == "" {
      assert a + b == b;
    } else {
      assert (a + b)[1..] == a[1..] + b;
      TrimLeftConcat(a[1..], b);
    }
  }

  lemma {:induction false} TrimRightConcat(a: string, b: string)
    requires a != "" && !IsSpace(a[|a| - 1])
    ensures TrimRight(a + b) == a + TrimRight(b)
    decreases |b|
  {
    if b == "" {
      assert a + b == a;
    } else {
      assert (a + b)[..|a + b| - 1] == a + b[..|b| - 1];
      TrimRightConcat(a, b[..|b| - 1]);
    }
  }

  // TrimLeft drops a prefix.
  lemma {:induction false} TrimLeftSuffix(s: string)
    ensures |TrimLeft(s)| <= |s| && TrimLeft(s) == s[|s| - |TrimLeft(s)|..]
    ensures TrimLeft(s) != "" ==> !IsSpace(TrimLeft(s)[0])
  {
    if s != "" {
      TrimLeftSuffix(s[1..]);
    }
  }

  lemma {:induction false} TrimRightPrefix(s: string)
    ensures TrimRight(s) <= s
  {
    if s != "" && IsSpace(s[|s| - 1]) {
      TrimRightPrefix(s[..|s| - 1]);
    }
  }

  // A line counts as a fence by its first non-space characters alone.
  lemma FenceByStart(line: string)
    ensures IsFence(line) <==> HasPrefix(TrimLeft(line), "```")
  {
    var t := TrimLeft(line);
    TrimRightPrefix(t);
    if HasPrefix(t, "```") {
      assert t == "```" + t[3..];
      assert "```"[2] == '`' && !IsSpace('`');
      TrimRightConcat("```", t[3..]);
    }
  }

  // --- The same in terms of characters ---

  // A line is a fence if and only if its first characters after white space are three back-quotes.
  lemma FenceByCharacters(line: string)
    ensures IsFence(line) <==>
      var t := TrimLeft(line); |t| >= 3 && t[0] == '`' && t[1] == '`' && t[2] == '`'
  {
    FenceByStart(line);
    var t := TrimLeft(line);
    if |t| >= 3 {
      assert t[..3] == [t[0], t[1], t[2]];
    }
  }

  // White space is what unicode.IsSpace says; of the ASCII characters it is tab, line feed,
  // vertical tab, form feed, carriage return and blank.
  lemma WhiteSpace(ch: char)
    ensures ch as int < 0x80 ==> (IsSpace(ch) <==> ch as int in {9, 10, 11, 12, 13, 32})
    ensures ch as int >= 0x80 ==>
      (IsSpace(ch) <==> ch as int in {0x85, 0xA0, 0x1680, 0x2028, 0x2029, 0x202F, 0x205F, 0x3000}
                        || 0x2000 <= ch as int <= 0x200A)
  {
  }

  ghost predicate AllSpace(s: string) {
    forall k :: 0 <= k < |s| ==> IsSpace(s[k])
  }

  // Trimming drops white space at both ends, and all of it.
  lemma TrimMeaning(s: string) returns (before: string, after: string)
    ensures s == before + TrimSpace(s) + after && AllSpace(before) && AllSpace(after)
    ensures var t := TrimSpace(s); t != "" ==> !IsSpace(t[0]) && !IsSpace(t[|t| - 1])
    ensures s == before + TrimLeft(s)
  {
    before := LeftIsSpace(s);
    after := RightIsSpace(TrimLeft(s));
    TrimLeftSuffix(s);
    assert s == before + (TrimSpace(s) + after);
  }

  lemma {:induction false} LeftIsSpace(s: string) returns (before: string)
    ensures s == before + TrimLeft(s) && AllSpace(before)
  {
    before := "";
    if s != "" && IsSpace(s[0]) {
      var rest := LeftIsSpace(s[1..]);
      before := [s[0]] + rest;
      assert s == [s[0]] + s[1..];
    }
  }

  lemma {:induction false} RightIsSpace(t: string) returns (after: string)
    ensures t == TrimRight(t) + after && AllSpace(after)
    ensures TrimRight(t) != "" ==> TrimRight(t)[0] == t[0] && !IsSpace(TrimRight(t)[|TrimRight(t)| - 1])
  {
    after := "";
    if t != "" && IsSpace(t[|t| - 1]) {
      var rest := RightIsSpace(t[..|t| - 1]);
      after := rest + [t[|t| - 1]];
      assert t == t[..|t| - 1] + [t[|t| - 1]];
    }
  }

  // A text up to its first line feed is its first line, and the rest is split in the same way.
  lemma {:induction false} SplitFirst(line: string, rest: string)
    requires '\n' !in line
    ensures Split(line) == [line] && Split(line + "\n" + rest) == [line] + Split(rest)
  {
    if line == "" {
      assert line + "\n" + rest == "\n" + rest && ("\n" + rest)[1..] == rest;
    } else {
      assert line[0] in line && forall c :: c in line[1..] ==> c in line;
      SplitFirst(line[1..], rest);
      assert (line + "\n" + rest)[1..] == line[1..] + "\n" + rest;
      assert line == [line[0]] + line[1..];
      assert Split(line[1..] + "\n" + rest)[0] == line[1..];
    }
  }

  // Nothing is left but fences.
  ghost predicate OnlyFences(text: string) {
    forall k :: 0 <= k < |Split(text)| ==> IsFence(Split(text)[k])
  }

  // The stripper, one line at a time: a fence line goes with its line feed, another line stays;
  // the line feed after it goes when only fences follow.
  lemma StrippedByLine(line: string, rest: string)
    requires '\n' !in line
    ensures Stripped(line) == if IsFence(line) then "" else line
    ensures Stripped(line + "\n" + rest) ==
      if IsFence(line) then Stripped(rest)
      else if OnlyFences(rest) then line
      else line + "\n" + Stripped(rest)
  {
    SplitFirst(line, rest);
    assert Kept([line]) == (if IsFence(line) then [] else [line]) + Kept([line][1..]) && [line][1..] == [];
    assert ([line] + Split(rest))[1..] == Split(rest);
    NoneKept(Split(rest));
    var kept := Kept(Split(rest));
    assert Kept([line] + Split(rest)) == (if IsFence(line) then [] else [line]) + kept;
    if IsFence(line) {
      assert [] + kept == kept;
    } else if kept == [] {
      assert [line] + kept == [line];
    } else {
      assert ([line] + kept)[1..] == kept;
    }
  }

  lemma {:induction false} NoneKept(lines: seq<string>)
    ensures Kept(lines) == [] <==> forall k :: 0 <= k < |lines| ==> IsFence(lines[k])
  {
    if lines != [] {
      NoneKept(lines[1..]);
      if Kept(lines) == [] {
        forall k | 0 <= k < |lines|
          ensures IsFence(lines[k])
        {
          assert k > 0 ==> lines[k] == lines[1..][k - 1];
        }
      }
    }
  }
}
