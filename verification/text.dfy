/**
 Strings as the two scripts see them: split into lines on '\n' (the only line
 terminator Python's `re` recognises for `^` and `.`), searched for substrings
 with `in`, and trimmed with `strip`/`rstrip`.

 `Lines` follows `str.split("\n")`: a text with n newlines has n + 1 lines, the
 last of which is the (possibly empty) unterminated tail. `Unlines` is its
 inverse.
 */
module Text {

  predicate StartsWith(s: string, prefix: string)
  {
    |prefix| <= |s| && s[..|prefix|] == prefix
  }

  /** Python's `p in s` on strings: `p` occurs in `s` at some position. */
  predicate Contains(s: string, p: string)
    decreases |s|
  {
    StartsWith(s, p) || (|s| > 0 && Contains(s[1..], p))
  }

  lemma {:induction false} ContainsAfter(a: string, b: string, p: string)
    requires Contains(b, p)
    ensures Contains(a + b, p)
    decreases |a|
  {
    if |a| > 0 {
      assert (a + b)[1..] == a[1..] + b;
      ContainsAfter(a[1..], b, p);
    } else {
      assert a + b == b;
    }
  }

  lemma {:induction false} ContainsBefore(a: string, b: string, p: string)
    requires Contains(a, p)
    ensures Contains(a + b, p)
    decreases |a|
  {
    if StartsWith(a, p) {
      assert (a + b)[..|p|] == a[..|p|];
    } else {
      assert (a + b)[1..] == a[1..] + b;
      ContainsBefore(a[1..], b, p);
    }
  }

  /** Index of the first '\n' of `s`, or |s| when there is none: the length of the first line. */
  function LineEnd(s: string): (k: nat)
    ensures k <= |s|
    ensures '\n' !in s[..k]
    ensures forall j | 0 <= j < k :: s[j] != '\n'
    ensures k < |s| ==> s[k] == '\n'
    decreases |s|
  {
    if |s| == 0 || s[0] == '\n' then 0
    else
      var k := 1 + LineEnd(s[1..]);
      assert s[..k] == [s[0]] + s[1..][..k - 1];
      k
  }

  /** The first line ends exactly where `a` does when `a` holds no newline and is
      followed by one (or by nothing). */
  lemma {:induction false} LineEndAt(a: string, rest: string)
    requires '\n' !in a
    requires |rest| == 0 || rest[0] == '\n'
    ensures LineEnd(a + rest) == |a|
    decreases |a|
  {
    if |a| == 0 {
      assert a + rest == rest;
    } else {
      assert a[0] in a;
      assert (a + rest)[1..] == a[1..] + rest;
      assert forall c | c in a[1..] :: c in a;
      LineEndAt(a[1..], rest);
    }
  }

  /** `s.split("\n")`. */
  function Lines(s: string): (ls: seq<string>)
    ensures |ls| >= 1
    ensures forall i | 0 <= i < |ls| :: '\n' !in ls[i]
    decreases |s|
  {
    var k := LineEnd(s);
    if k == |s| then [s] else [s[..k]] + Lines(s[k + 1..])
  }

  /** `"\n".join(ls)`. */
  function Unlines(ls: seq<string>): string
    requires |ls| >= 1
    decreases |ls|
  {
    if |ls| == 1 then ls[0] else ls[0] + "\n" + Unlines(ls[1..])
  }

  ghost predicate NoNewlines(ls: seq<string>)
  {
    forall i | 0 <= i < |ls| :: '\n' !in ls[i]
  }

  /** The lines of a text whose first line is terminated. */
  lemma {:induction false} LinesCons(s: string)
    requires LineEnd(s) < |s|
    ensures Lines(s) == [s[..LineEnd(s)]] + Lines(s[LineEnd(s) + 1..])
  {
    var k := LineEnd(s);
    assert k != |s|;
  }

  lemma {:induction false} UnlinesCons(line: string, ls: seq<string>)
    requires |ls| >= 1
    ensures Unlines([line] + ls) == line + "\n" + Unlines(ls)
  {
    assert ([line] + ls)[1..] == ls;
  }

  /** Joining the lines of a text gives the text back. */
  /** Joining a line cut at a newline back onto the text after it gives the text. */
  lemma {:induction false} UnlinesSplit(s: string, k: nat, ls: seq<string>)
    requires k < |s| && s[k] == '\n'
    requires |ls| >= 1 && Unlines(ls) == s[k + 1..]
    ensures Unlines([s[..k]] + ls) == s
  {
    UnlinesCons(s[..k], ls);
    assert s == s[..k] + [s[k]] + s[k + 1..];
  }

  lemma {:induction false} UnlinesLines(s: string)
    ensures Unlines(Lines(s)) == s
    decreases |s|
  {
    var k := LineEnd(s);
    if k < |s| {
      LinesCons(s);
      UnlinesLines(s[k + 1..]);
      UnlinesSplit(s, k, Lines(s[k + 1..]));
    } else {
      assert Lines(s) == [s];
    }
  }

  /** Splitting a join of newline-free lines gives the lines back. */
  lemma {:induction false} LinesUnlines(ls: seq<string>)
    requires |ls| >= 1
    requires NoNewlines(ls)
    ensures Lines(Unlines(ls)) == ls
    decreases |ls|
  {
    assert '\n' !in ls[0];
    if |ls| == 1 {
      LineEndAt(ls[0], "");
      assert ls[0] + "" == ls[0];
    } else {
      var tail := Unlines(ls[1..]);
      var s := ls[0] + "\n" + tail;
      assert s == ls[0] + ("\n" + tail);
      LineEndAt(ls[0], "\n" + tail);
      assert s[..|ls[0]|] == ls[0];
      assert s[|ls[0]| + 1..] == tail;
      LinesUnlines(ls[1..]);
      assert ls == [ls[0]] + ls[1..];
    }
  }

  lemma {:induction false} UnlinesAppend(xs: seq<string>, ys: seq<string>)
    requires |xs| >= 1 && |ys| >= 1
    ensures Unlines(xs + ys) == Unlines(xs) + "\n" + Unlines(ys)
    decreases |xs|
  {
    if |xs| == 1 {
      assert (xs + ys)[1..] == ys;
    } else {
      assert (xs + ys)[1..] == xs[1..] + ys;
      UnlinesAppend(xs[1..], ys);
    }
  }

  /** A newline between two texts separates their lines. */
  lemma {:induction false} LinesAppend(a: string, b: string)
    ensures Lines(a + "\n" + b) == Lines(a) + Lines(b)
  {
    UnlinesLines(a);
    UnlinesLines(b);
    UnlinesAppend(Lines(a), Lines(b));
    LinesUnlines(Lines(a) + Lines(b));
  }

  lemma {:induction false} LinesOfLine(s: string)
    requires '\n' !in s
    ensures Lines(s) == [s]
  {
    LineEndAt(s, "");
    assert s + "" == s;
  }

  /** A first line followed by one more terminated line splits into three lines,
      the last one empty. */
  lemma {:induction false} HeaderAndLine(header: string, line: string)
    requires '\n' !in header && '\n' !in line
    ensures Lines(header + "\n" + line + "\n") == [header, line, ""]
  {
    assert header + "\n" + line + "\n" == header + "\n" + (line + "\n" + "");
    LinesAppend(header, line + "\n" + "");
    LinesAppend(line, "");
    LinesOfLine(header);
    LinesOfLine(line);
    LinesOfLine("");
  }

  /** A substring of one line is a substring of the whole text. */
  lemma {:induction false} ContainsUnlines(ls: seq<string>, i: nat, p: string)
    requires |ls| >= 1 && i < |ls|
    requires Contains(ls[i], p)
    ensures Contains(Unlines(ls), p)
    decreases |ls|
  {
    if |ls| > 1 {
      if i == 0 {
        assert Unlines(ls) == ls[0] + ("\n" + Unlines(ls[1..]));
        ContainsBefore(ls[0], "\n" + Unlines(ls[1..]), p);
      } else {
        ContainsUnlines(ls[1..], i - 1, p);
        ContainsAfter(ls[0] + "\n", Unlines(ls[1..]), p);
      }
    }
  }

  predicate IsNewline(c: char)
  {
    c == '\n'
  }

  /** `s.lstrip(chars)` where `stripped` says which characters are in `chars`. */
  function TrimLeft(s: string, stripped: char -> bool): (r: string)
    ensures |r| <= |s|
    ensures r == s[|s| - |r|..]
    ensures forall i | 0 <= i < |s| - |r| :: stripped(s[i])
    ensures |r| == 0 || !stripped(r[0])
    decreases |s|
  {
    if |s| > 0 && stripped(s[0]) then TrimLeft(s[1..], stripped) else s
  }

  /** `s.rstrip(chars)` where `stripped` says which characters are in `chars`. */
  function TrimRight(s: string, stripped: char -> bool): (r: string)
    ensures |r| <= |s|
    ensures r == s[..|r|]
    ensures forall i | |r| <= i < |s| :: stripped(s[i])
    ensures |r| == 0 || !stripped(r[|r| - 1])
    decreases |s|
  {
    if |s| > 0 && stripped(s[|s| - 1]) then TrimRight(s[..|s| - 1], stripped) else s
  }

  /** `s.strip(chars)`, given the facts `TrimLeft` (giving `l`) and then
      `TrimRight` (giving `r`) ensure: what is kept is a slice of `s` whose
      surroundings are all in `chars` and whose ends are not. */
  lemma {:induction false} TrimBothFacts(s: string, l: string, r: string, stripped: char -> bool)
    requires |l| <= |s| && l == s[|s| - |l|..]
    requires forall k | 0 <= k < |s| - |l| :: stripped(s[k])
    requires |l| == 0 || !stripped(l[0])
    requires |r| <= |l| && r == l[..|r|]
    requires forall k | |r| <= k < |l| :: stripped(l[k])
    requires |r| == 0 || !stripped(r[|r| - 1])
    ensures |r| == 0 || (!stripped(r[0]) && !stripped(r[|r| - 1]))
    ensures exists i, j | 0 <= i <= j <= |s| ::
      && r == s[i..j]
      && (forall k | 0 <= k < i || j <= k < |s| :: stripped(s[k]))
  {
    assert |r| > 0 ==> r[0] == l[0];
    var i, j := |s| - |l|, |s| - |l| + |r|;
    assert r == s[i..j] && forall k | 0 <= k < i || j <= k < |s| :: stripped(s[k]) by {
      SuffixPrefixIsSlice(s, l, r, stripped);
    }
  }

  /** A prefix `r` of a suffix `l` of `s` is a slice of `s`; when the characters cut
      off on each side are all `stripped`, so are the characters of `s` around it. */
  lemma {:induction false} SuffixPrefixIsSlice(s: string, l: string, r: string, stripped: char -> bool)
    requires |l| <= |s| && l == s[|s| - |l|..]
    requires forall k | 0 <= k < |s| - |l| :: stripped(s[k])
    requires |r| <= |l| && r == l[..|r|]
    requires forall k | |r| <= k < |l| :: stripped(l[k])
    ensures r == s[|s| - |l|..|s| - |l| + |r|]
    ensures forall k | 0 <= k < |s| - |l| || |s| - |l| + |r| <= k < |s| :: stripped(s[k])
  {
    var i := |s| - |l|;
    forall k | i + |r| <= k < |s|
      ensures stripped(s[k])
    {
      assert s[k] == l[k - i];
    }
  }

  /** `s.rstrip("\n")`. */
  function TrimTrailingNewlines(s: string): string
  {
    TrimRight(s, IsNewline)
  }

  /** `n` empty lines. */
  function BlankLines(n: nat): seq<string>
  {
    if n == 0 then [] else BlankLines(n - 1) + [""]
  }

  /** A final newline is trimmed together with the newlines before it. */
  lemma {:induction false} TrimTrailingNewlinesStep(s: string)
    requires |s| > 0 && s[|s| - 1] == '\n'
    ensures TrimTrailingNewlines(s) == TrimTrailingNewlines(s[..|s| - 1])
  {
    assert IsNewline(s[|s| - 1]);
  }

  /** A final newline adds one empty last line. */
  lemma {:induction false} LinesNewlineEnd(s: string)
    requires |s| > 0 && s[|s| - 1] == '\n'
    ensures Lines(s) == Lines(s[..|s| - 1]) + [""]
  {
    assert s == s[..|s| - 1] + "\n" + "";
    LinesAppend(s[..|s| - 1], "");
    LinesOfLine("");
  }

  /** A text that does not end in a newline is its own trimmed form. */
  lemma {:induction false} TrimTrailingNewlinesNone(s: string)
    requires |s| == 0 || s[|s| - 1] != '\n'
    ensures TrimTrailingNewlines(s) == s
  {
    assert |s| == 0 || !IsNewline(s[|s| - 1]);
  }

  /** Removing the trailing newlines of a text drops exactly its trailing empty
      lines and keeps every other line, in order. */
  lemma {:induction false} TrimTrailingNewlinesLines(s: string)
    ensures Lines(s) == Lines(TrimTrailingNewlines(s)) + BlankLines(|s| - |TrimTrailingNewlines(s)|)
    decreases |s|
  {
    if |s| > 0 && s[|s| - 1] == '\n' {
      TrimTrailingNewlinesStep(s);
      LinesNewlineEnd(s);
      TrimTrailingNewlinesLines(s[..|s| - 1]);
    } else {
      TrimTrailingNewlinesNone(s);
    }
  }
}
