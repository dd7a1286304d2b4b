// The delimiter scanner of ai/agent/parse.go: a left-to-right scan that knows when it is
// inside a JSON string literal and counts one kind of bracket outside of them.
module DelimiterScanner {

  // The lexical position of the scan. The source keeps two flags, inString and escaped;
  // escaped is only ever set while inString is.
  datatype Mode = Outside | Inside | Escaped

  function NextMode(m: Mode, ch: char): Mode {
    match m
    case Escaped => Inside
    case Inside => if ch == '\\' then Escaped else if ch == '"' then Outside else Inside
    case Outside => if ch == '"' then Inside else Outside
  }

  // What one character read in mode m adds to the bracket balance.
  function Weight(m: Mode, ch: char, open: char, close: char): int {
    if m != Outside || ch == '"' then 0
    else if ch == open then 1
    else if ch == close then -1
    else 0
  }

  // The mode after reading all of s.
  function After(m: Mode, s: string): Mode
    decreases |s|
  {
    if s == "" then m else After(NextMode(m, s[0]), s[1..])
  }

  // Unquoted openers minus unquoted closers in s.
  function Net(m: Mode, s: string, open: char, close: char): int
    decreases |s|
  {
    if s == "" then 0
    else Weight(m, s[0], open, close) + Net(NextMode(m, s[0]), s[1..], open, close)
  }

  lemma {:induction false} AfterConcat(m: Mode, a: string, b: string)
    ensures After(m, a + b) == After(After(m, a), b)
    decreases |a|
  {
    if a == "" {
      assert a + b == b;
    } else {
      assert (a + b)[1..] == a[1..] + b;
      AfterConcat(NextMode(m, a[0]), a[1..], b);
    }
  }

  lemma {:induction false} NetConcat(m: Mode, a: string, b: string, open: char, close: char)
    ensures Net(m, a + b, open, close) == Net(m, a, open, close) + Net(After(m, a), b, open, close)
    decreases |a|
  {
    if a == "" {
      assert a + b == b;
    } else {
      assert (a + b)[1..] == a[1..] + b;
      NetConcat(NextMode(m, a[0]), a[1..], b, open, close);
    }
  }

  // Mode and balance of text[start..i], for a scan that starts at `start`.
  function ModeAt(text: string, start: nat, i: nat): Mode
    requires start <= i <= |text|
  {
    After(Outside, text[start..i])
  }

  function Balance(text: string, start: nat, i: nat, open: char, close: char): int
    requires start <= i <= |text|
  {
    Net(Outside, text[start..i], open, close)
  }

  // The balance once text[i] has been read.
  function BalanceThrough(text: string, start: nat, i: nat, open: char, close: char): int
    requires start <= i < |text|
  {
    Balance(text, start, i + 1, open, close)
  }

  lemma ScanStep(text: string, start: nat, i: nat, open: char, close: char)
    requires start <= i < |text|
    ensures ModeAt(text, start, i + 1) == NextMode(ModeAt(text, start, i), text[i])
    ensures BalanceThrough(text, start, i, open, close)
         == Balance(text, start, i, open, close) + Weight(ModeAt(text, start, i), text[i], open, close)
  {
    assert text[start..i + 1] == text[start..i] + [text[i]];
    AfterConcat(Outside, text[start..i], [text[i]]);
    NetConcat(Outside, text[start..i], [text[i]], open, close);
  }

  // text[i] is an unquoted closer that brings the balance from start to zero.
  predicate ClosesAt(text: string, start: nat, i: nat, open: char, close: char)
    requires start <= i < |text|
  {
    && Weight(ModeAt(text, start, i), text[i], open, close) == -1
    && BalanceThrough(text, start, i, open, close) == 0
  }

  // The least j >= i that closes, or -1.
  function FirstClose(text: string, start: nat, i: nat, open: char, close: char): int
    requires start <= i
    decreases |text| - i
  {
    if i >= |text| then -1
    else if ClosesAt(text, start, i, open, close) then i
    else FirstClose(text, start, i + 1, open, close)
  }

  lemma {:induction false} FirstCloseIsLeast(text: string, start: nat, i: nat, open: char, close: char)
    requires start <= i
    ensures var r := FirstClose(text, start, i, open, close);
      && (r == -1 || i <= r < |text|)
      && (r >= 0 ==> ClosesAt(text, start, r, open, close))
      && (forall j :: i <= j < |text| && (r == -1 || j < r) ==> !ClosesAt(text, start, j, open, close))
    decreases |text| - i
  {
    if i < |text| && !ClosesAt(text, start, i, open, close) {
      FirstCloseIsLeast(text, start, i + 1, open, close);
    }
  }

  // i is the first position after whose character the balance is zero.
  ghost predicate IsFirstZero(text: string, start: nat, i: int, open: char, close: char) {
    && start <= i < |text|
    && BalanceThrough(text, start, i, open, close) == 0
    && forall j :: start <= j < i ==> BalanceThrough(text, start, j, open, close) != 0
  }

  // Started on an opener, the balance stays positive until it first reaches zero.
  lemma {:induction false} PositiveUntilZero(text: string, start: nat, i: nat, open: char, close: char)
    requires start <= i < |text| && text[start] == open && open != '"'
    requires forall j :: start <= j < i ==> BalanceThrough(text, start, j, open, close) != 0
    ensures i > start ==> Balance(text, start, i, open, close) > 0
    ensures BalanceThrough(text, start, i, open, close) >= 0
    decreases i
  {
    ScanStep(text, start, i, open, close);
    assert text[start..start] == "";
    if i > start {
      PositiveUntilZero(text, start, i - 1, open, close);
      assert BalanceThrough(text, start, i - 1, open, close) != 0;
    }
  }

  lemma FirstZeroIsClose(text: string, start: nat, i: nat, open: char, close: char)
    requires IsFirstZero(text, start, i, open, close) && text[start] == open && open != '"'
    ensures ClosesAt(text, start, i, open, close)
  {
    ScanStep(text, start, i, open, close);
    PositiveUntilZero(text, start, i, open, close);
    assert text[start..start] == "";
  }

  // Scanner exactness: on an opener, the answer is i exactly when i is the first zero of the
  // balance, and -1 exactly when the balance never returns to zero.
  lemma ScannerExact(text: string, start: nat, open: char, close: char)
    requires start < |text| && text[start] == open && open != '"'
    ensures forall i: nat :: FirstClose(text, start, start, open, close) == i
                             <==> IsFirstZero(text, start, i, open, close)
    ensures FirstClose(text, start, start, open, close) == -1
       <==> forall i :: start <= i < |text| ==> BalanceThrough(text, start, i, open, close) != 0
  {
    var r := FirstClose(text, start, start, open, close);
    FirstCloseIsLeast(text, start, start, open, close);
    var bound := if r == -1 then |text| else r;
    NoZeroBefore(text, start, bound, open, close);
    forall i: nat | IsFirstZero(text, start, i, open, close)
      ensures r == i
    {
      FirstZeroIsClose(text, start, i, open, close);
      assert !(i < bound);
    }
    if r >= 0 {
      assert IsFirstZero(text, start, r, open, close);
    }
  }

  lemma {:induction false} NoZeroBefore(text: string, start: nat, bound: nat, open: char, close: char)
    requires start < |text| && text[start] == open && open != '"'
    requires bound <= |text|
    requires forall j :: start <= j < bound ==> !ClosesAt(text, start, j, open, close)
    ensures forall j :: start <= j < bound ==> BalanceThrough(text, start, j, open, close) != 0
  {
    if start < bound {
      NoZeroBefore(text, start, bound - 1, open, close);
      if Balance(text, start, bound, open, close) == 0 {
        assert IsFirstZero(text, start, bound - 1, open, close);
        FirstZeroIsClose(text, start, bound - 1, open, close);
      }
    }
  }

  // A match that was found is not affected by what is appended to the text.
  lemma {:induction false} AppendStable(text: string, more: string, start: nat, i: nat, open: char, close: char)
    requires start <= i
    requires FirstClose(text, start, i, open, close) >= 0
    ensures FirstClose(text + more, start, i, open, close) == FirstClose(text, start, i, open, close)
    decreases |text| - i
  {
    assert (text + more)[start..i] == text[start..i];
    assert (text + more)[start..i + 1] == text[start..i + 1];
    if !ClosesAt(text, start, i, open, close) {
      AppendStable(text, more, start, i + 1, open, close);
    }
  }

  method FindMatchingDelimiter(text: string, start: nat, open: char, close: char) returns (r: int)
    ensures r == FirstClose(text, start, start, open, close)
  {
    var depth := 0;
    var inString := false;
    var escaped := false;
    var i := start;
    assert start <= |text| ==> text[start..start] == "";
    while i < |text|
      invariant start <= i
      invariant i <= |text| || i == start
      invariant i <= |text| ==>
        && depth == Balance(text, start, i, open, close)
        && ModeAt(text, start, i) == (if escaped then Escaped else if inString then Inside else Outside)
      invariant escaped ==> inString
      invariant FirstClose(text, start, i, open, close) == FirstClose(text, start, start, open, close)
    {
      ScanStep(text, start, i, open, close);
      var ch := text[i];
      if escaped {
        escaped := false;
      } else if ch == '\\' && inString {
        escaped := true;
      } else if ch == '"' {
        inString := !inString;
      } else if inString {
      } else if ch == open {
        depth := depth + 1;
      } else if ch == close {
        depth := depth - 1;
        if depth == 0 {
          return i;
        }
      }
      i := i + 1;
    }
    return -1;
  }
}
