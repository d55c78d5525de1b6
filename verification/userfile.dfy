/**
 The text edits both scripts make to an AccountsService user record
 (`/var/lib/AccountsService/users/<name>`).

 Each regular expression is modelled twice:
 - as the scan Python's `re.sub` performs with `flags=re.M` (`^` holds at the
   start of the text and right after every '\n'; `.` is any character but
   '\n'; matches never overlap and scanning resumes where a match ended), and
 - as a statement about the text's lines,
 and a lemma shows the two agree on every input.
 */
module UserFile {
  import opened Text

  const IconKey := "Icon="

  /** The record written when none exists, for icon path `icon`. */
  function Template(icon: string): string
  {
    "[User]\n" + IconKey + icon + "\n"
  }

  /** A line the pattern `^Icon=` matches. */
  predicate IsIconLine(line: string)
  {
    StartsWith(line, IconKey)
  }

  /** The line `Icon=<icon>` that points the record at `icon`. */
  function IconLine(icon: string): string
  {
    IconKey + icon
  }

  /** Where the `re.sub` scan stands: `^` holds (at a line start), it does not
      (inside a line), or the scan is consuming the `.*` of a match. */
  datatype Position = LineStart | MidLine | InMatch

  /** The end of the first line of `s` is at `k`: no newline before it, and a
      newline at it unless the text ends there. */
  ghost predicate FirstLineEndsAt(s: string, k: nat)
  {
    && k <= |s|
    && (forall j | 0 <= j < k :: s[j] != '\n')
    && (k < |s| ==> s[k] == '\n')
  }

  lemma {:induction false} LineEndIsFirstLineEnd(s: string)
    ensures FirstLineEndsAt(s, LineEnd(s))
  {
  }

  /** Whether `^Icon=` matches at a line start depends only on that line. */
  lemma {:induction false} FirstLineIsIconLine(s: string, k: nat)
    requires FirstLineEndsAt(s, k)
    ensures IsIconLine(s[..k]) == IsIconLine(s)
    ensures IsIconLine(s) ==> k >= |IconKey|
  {
    if IsIconLine(s) {
      assert forall j | 0 <= j < 5 :: s[j] == IconKey[j];
      assert s[..k][..5] == s[..5];
    } else if k >= 5 {
      assert s[..k][..5] == s[..5];
    }
  }

  // ---------------------------------------------------------------------------
  // Apply side: re.sub(r"^Icon=.*", repl, content, flags=re.M)
  // ---------------------------------------------------------------------------

  /** The regex scan. At a line start where `Icon=` follows, a match begins: `repl`
      is emitted and the match's `.*` swallows everything up to the next '\n' (or
      the end), which is then copied and starts a new line. */
  function ReplaceScan(s: string, repl: string, at: Position): string
    decreases |s|
  {
    if |s| == 0 then []
    else if at == InMatch then
      if s[0] == '\n' then "\n" + ReplaceScan(s[1..], repl, LineStart)
      else ReplaceScan(s[1..], repl, InMatch)
    else if at == LineStart && IsIconLine(s) then
      repl + ReplaceScan(s[|IconKey|..], repl, InMatch)
    else
      [s[0]] + ReplaceScan(s[1..], repl, if s[0] == '\n' then LineStart else MidLine)
  }

  function ReplaceLine(line: string, repl: string): string
  {
    if IsIconLine(line) then repl else line
  }

  function ReplaceLines(ls: seq<string>, repl: string): seq<string>
  {
    seq(|ls|, i requires 0 <= i < |ls| => ReplaceLine(ls[i], repl))
  }

  /** Inside a line and outside a match, the scan copies up to the line's end. */
  lemma {:induction false} ReplaceScanCopies(s: string, i: nat, k: nat, repl: string)
    requires i <= k <= |s|
    requires forall j | i <= j < k :: s[j] != '\n'
    ensures ReplaceScan(s[i..], repl, MidLine) == s[i..k] + ReplaceScan(s[k..], repl, MidLine)
    decreases k - i
  {
    if i < k {
      assert s[i..][1..] == s[i + 1..];
      ReplaceScanCopies(s, i + 1, k, repl);
      assert s[i..k] == [s[i]] + s[i + 1..k];
    }
  }

  /** Inside a match, the scan drops everything up to the line's end. */
  lemma {:induction false} ReplaceScanSkips(s: string, i: nat, k: nat, repl: string)
    requires i <= k <= |s|
    requires forall j | i <= j < k :: s[j] != '\n'
    ensures ReplaceScan(s[i..], repl, InMatch) == ReplaceScan(s[k..], repl, InMatch)
    decreases k - i
  {
    if i < k {
      assert s[i..][1..] == s[i + 1..];
      ReplaceScanSkips(s, i + 1, k, repl);
    }
  }

  /** At the end of a line, the scan either stops or copies the newline and
      starts the next line. */
  lemma {:induction false} ReplaceScanLineBreak(s: string, k: nat, at: Position, repl: string)
    requires k <= |s| && (k < |s| ==> s[k] == '\n')
    requires at != LineStart
    ensures ReplaceScan(s[k..], repl, at)
      == if k == |s| then [] else "\n" + ReplaceScan(s[k + 1..], repl, LineStart)
  {
    if k < |s| {
      assert s[k..][1..] == s[k + 1..];
    }
  }

  /** From a line start, the scan rewrites the first line as a whole. */
  lemma {:induction false} ReplaceScanFirstLine(s: string, k: nat, repl: string)
    requires FirstLineEndsAt(s, k)
    ensures ReplaceScan(s, repl, LineStart)
      == ReplaceLine(s[..k], repl)
         + (if k == |s| then [] else "\n" + ReplaceScan(s[k + 1..], repl, LineStart))
  {
    FirstLineIsIconLine(s, k);
    if IsIconLine(s) {
      ReplaceScanSkips(s, |IconKey|, k, repl);
      ReplaceScanLineBreak(s, k, InMatch, repl);
    } else {
      assert ReplaceScan(s, repl, LineStart) == ReplaceScan(s, repl, MidLine);
      ReplaceScanCopies(s, 0, k, repl);
      assert s[0..] == s && s[0..k] == s[..k];
      ReplaceScanLineBreak(s, k, MidLine, repl);
    }
  }

  lemma {:induction false} ReplaceLinesCons(line: string, rest: seq<string>, repl: string)
    ensures ReplaceLines([line] + rest, repl) == [ReplaceLine(line, repl)] + ReplaceLines(rest, repl)
  {
  }

  /** On a text without a newline the scan rewrites its one line. */
  lemma {:induction false} ReplaceScanLastLine(s: string, repl: string)
    requires LineEnd(s) == |s|
    ensures ReplaceScan(s, repl, LineStart) == Unlines(ReplaceLines(Lines(s), repl))
  {
    LineEndIsFirstLineEnd(s);
    ReplaceScanFirstLine(s, |s|, repl);
    assert Lines(s) == [s] && s[..|s|] == s;
    assert ReplaceLines([s], repl) == [ReplaceLine(s, repl)];
  }

  /** If the scan agrees with the line-level reading after the first newline,
      it agrees on the whole text. */
  lemma {:induction false} ReplaceScanNextLine(s: string, repl: string)
    requires LineEnd(s) < |s|
    requires ReplaceScan(s[LineEnd(s) + 1..], repl, LineStart)
      == Unlines(ReplaceLines(Lines(s[LineEnd(s) + 1..]), repl))
    ensures ReplaceScan(s, repl, LineStart) == Unlines(ReplaceLines(Lines(s), repl))
  {
    var k := LineEnd(s);
    LineEndIsFirstLineEnd(s);
    ReplaceScanFirstLine(s, k, repl);
    var line, rest := s[..k], Lines(s[k + 1..]);
    LinesCons(s);
    ReplaceLinesCons(line, rest, repl);
    UnlinesCons(ReplaceLine(line, repl), ReplaceLines(rest, repl));
  }

  /** The scan and the line-level reading agree: every line that starts with `Icon=`
      is replaced by `repl` as a whole, every other line is kept. */
  lemma {:induction false} ReplaceScanLines(s: string, repl: string)
    ensures ReplaceScan(s, repl, LineStart) == Unlines(ReplaceLines(Lines(s), repl))
    decreases |s|
  {
    var k := LineEnd(s);
    if k == |s| {
      ReplaceScanLastLine(s, repl);
    } else {
      ReplaceScanLines(s[k + 1..], repl);
      ReplaceScanNextLine(s, repl);
    }
  }

  // ---------------------------------------------------------------------------
  // Uninstall side: re.sub(r"^Icon=.*\n", "", content, flags=re.M)
  // ---------------------------------------------------------------------------

  /** The regex scan. A match needs the line to start with `Icon=` AND a '\n' to
      follow (`.*` cannot cross one, so it is the line's own terminator); the
      match, newline included, is deleted and the next line starts. */
  function RemoveScan(s: string, at: Position): string
    decreases |s|
  {
    if |s| == 0 then []
    else if at == InMatch then
      if s[0] == '\n' then RemoveScan(s[1..], LineStart)
      else RemoveScan(s[1..], InMatch)
    else if at == LineStart && IsIconLine(s) && '\n' in s then
      RemoveScan(s[|IconKey|..], InMatch)
    else
      [s[0]] + RemoveScan(s[1..], if s[0] == '\n' then LineStart else MidLine)
  }

  /** The lines of `ls` that do not start with `Icon=`, in their original order. */
  function NonIconLines(ls: seq<string>): (out: seq<string>)
    ensures |out| <= |ls|
    ensures forall i | 0 <= i < |out| :: !IsIconLine(out[i])
    decreases |ls|
  {
    if |ls| == 0 then []
    else
      var rest := NonIconLines(ls[1..]);
      if IsIconLine(ls[0]) then rest else [ls[0]] + rest
  }

  /** Filtering distributes over concatenation: the kept lines stay in order. */
  lemma {:induction false} NonIconLinesAppend(xs: seq<string>, ys: seq<string>)
    ensures NonIconLines(xs + ys) == NonIconLines(xs) + NonIconLines(ys)
    decreases |xs|
  {
    if |xs| == 0 {
      assert xs + ys == ys;
    } else {
      assert (xs + ys)[1..] == xs[1..] + ys;
      NonIconLinesAppend(xs[1..], ys);
    }
  }

  /** A list of lines without `Icon=` lines is left as it is. */
  lemma {:induction false} NonIconLinesNone(ls: seq<string>)
    requires forall i | 0 <= i < |ls| :: !IsIconLine(ls[i])
    ensures NonIconLines(ls) == ls
    decreases |ls|
  {
    if |ls| > 0 {
      NonIconLinesNone(ls[1..]);
      assert ls == [ls[0]] + ls[1..];
    }
  }

  /** Line-level reading of the removal: the newline-terminated lines (all but the
      last) lose their `Icon=` lines; the unterminated last line is kept. */
  function RemoveLines(ls: seq<string>): (out: seq<string>)
    requires |ls| >= 1
    ensures |out| >= 1
  {
    NonIconLines(ls[..|ls| - 1]) + [ls[|ls| - 1]]
  }

  lemma {:induction false} RemoveScanCopies(s: string, i: nat, k: nat)
    requires i <= k <= |s|
    requires forall j | i <= j < k :: s[j] != '\n'
    ensures RemoveScan(s[i..], MidLine) == s[i..k] + RemoveScan(s[k..], MidLine)
    decreases k - i
  {
    if i < k {
      assert s[i..][1..] == s[i + 1..];
      RemoveScanCopies(s, i + 1, k);
      assert s[i..k] == [s[i]] + s[i + 1..k];
    }
  }

  lemma {:induction false} RemoveScanSkips(s: string, i: nat, k: nat)
    requires i <= k <= |s|
    requires forall j | i <= j < k :: s[j] != '\n'
    ensures RemoveScan(s[i..], InMatch) == RemoveScan(s[k..], InMatch)
    decreases k - i
  {
    if i < k {
      assert s[i..][1..] == s[i + 1..];
      RemoveScanSkips(s, i + 1, k);
    }
  }

  /** At the end of a line outside a match, the scan either stops or keeps the
      newline and starts the next line. */
  lemma {:induction false} RemoveScanLineBreak(s: string, k: nat)
    requires k <= |s| && (k < |s| ==> s[k] == '\n')
    ensures RemoveScan(s[k..], MidLine)
      == if k == |s| then [] else "\n" + RemoveScan(s[k + 1..], LineStart)
  {
    if k < |s| {
      assert s[k..][1..] == s[k + 1..];
    }
  }

  /** A terminated first line starting with `Icon=` is deleted with its newline. */
  lemma {:induction false} RemoveScanIconLine(s: string, k: nat)
    requires FirstLineEndsAt(s, k) && k < |s| && IsIconLine(s)
    ensures RemoveScan(s, LineStart) == RemoveScan(s[k + 1..], LineStart)
  {
    FirstLineIsIconLine(s, k);
    assert s[k] in s;
    RemoveScanSkips(s, |IconKey|, k);
    assert s[k..][1..] == s[k + 1..];
  }

  /** Outside a match, a first line that is not removed is copied as it is. */
  lemma {:induction false} RemoveScanPlainLine(s: string, k: nat)
    requires FirstLineEndsAt(s, k) && !(k < |s| && IsIconLine(s))
    ensures RemoveScan(s, LineStart) == s[..k] + RemoveScan(s[k..], MidLine)
  {
    assert '\n' in s ==> k < |s| by {
      if '\n' in s {
        var j :| 0 <= j < |s| && s[j] == '\n';
        assert !(j < k);
      }
    }
    assert RemoveScan(s, LineStart) == RemoveScan(s, MidLine);
    RemoveScanCopies(s, 0, k);
    assert s[0..] == s && s[0..k] == s[..k];
  }

  /** A terminated first line that does not start with `Icon=` is kept with its newline. */
  lemma {:induction false} RemoveScanKeptLine(s: string, k: nat)
    requires FirstLineEndsAt(s, k) && k < |s| && !IsIconLine(s)
    ensures RemoveScan(s, LineStart) == s[..k] + "\n" + RemoveScan(s[k + 1..], LineStart)
  {
    RemoveScanPlainLine(s, k);
    RemoveScanLineBreak(s, k);
  }

  /** An unterminated first line is the whole text, and it is kept. */
  lemma {:induction false} RemoveScanLastLine(s: string)
    requires FirstLineEndsAt(s, |s|)
    ensures RemoveScan(s, LineStart) == s
  {
    RemoveScanPlainLine(s, |s|);
    assert s[|s|..] == [];
    assert s[..|s|] + [] == s;
  }

  /** From a line start, a terminated first line is deleted when it starts with
      `Icon=` and kept, newline included, otherwise; an unterminated one is kept. */
  lemma {:induction false} RemoveScanFirstLine(s: string, k: nat)
    requires FirstLineEndsAt(s, k)
    ensures k == |s| ==> RemoveScan(s, LineStart) == s
    ensures k < |s| ==>
      RemoveScan(s, LineStart)
      == (if IsIconLine(s[..k]) then [] else s[..k] + "\n") + RemoveScan(s[k + 1..], LineStart)
  {
    FirstLineIsIconLine(s, k);
    if k == |s| {
      RemoveScanLastLine(s);
    } else if IsIconLine(s) {
      RemoveScanIconLine(s, k);
      assert [] + RemoveScan(s[k + 1..], LineStart) == RemoveScan(s[k + 1..], LineStart);
    } else {
      RemoveScanKeptLine(s, k);
    }
  }

  lemma {:induction false} RemoveLinesCons(line: string, rest: seq<string>)
    requires |rest| >= 1
    ensures RemoveLines([line] + rest) == NonIconLines([line]) + RemoveLines(rest)
  {
    assert ([line] + rest)[..|rest|] == [line] + rest[..|rest| - 1];
    NonIconLinesAppend([line], rest[..|rest| - 1]);
  }

  /** The scan and the line-level reading agree on every text. */
  lemma {:induction false} RemoveScanLines(s: string)
    ensures RemoveScan(s, LineStart) == Unlines(RemoveLines(Lines(s)))
    decreases |s|
  {
    var k := LineEnd(s);
    var line := s[..k];
    LineEndIsFirstLineEnd(s);
    RemoveScanFirstLine(s, k);
    if k == |s| {
      assert Lines(s) == [s];
      assert RemoveLines([s]) == [s];
    } else {
      var rest := Lines(s[k + 1..]);
      var out := RemoveLines(rest);
      assert RemoveLines(Lines(s)) == NonIconLines([line]) + out by {
        LinesCons(s);
        RemoveLinesCons(line, rest);
      }
      assert RemoveScan(s[k + 1..], LineStart) == Unlines(out) by {
        RemoveScanLines(s[k + 1..]);
      }
      assert [line][1..] == [];
      if IsIconLine(line) {
        assert NonIconLines([line]) == [];
        assert [] + out == out;
      } else {
        assert NonIconLines([line]) == [line];
        UnlinesCons(line, out);
      }
    }
  }

  // ---------------------------------------------------------------------------
  // The two edits and their properties
  // ---------------------------------------------------------------------------

  /** The rewrite `change_gnome_profile_icon` makes to the record's text so that it
      points at `icon`: a substring test for `Icon` picks between replacing every
      `Icon=` line and appending one. */
  function UpdateIcon(content: string, icon: string): string
  {
    if Contains(content, "Icon") then ReplaceScan(content, IconLine(icon), LineStart)
    else TrimTrailingNewlines(content) + "\n" + IconLine(icon)
  }

  /** The rewrite `remove_profile_icon` makes to the record's text: every line but
      the last loses its `Icon=` lines, in the line-level reading. */
  function RemoveIcon(content: string): string
  {
    RemoveScan(content, LineStart)
  }

  /** Some line of the text starts with `Icon=`. */
  ghost predicate HasIconLine(content: string)
  {
    exists i | 0 <= i < |Lines(content)| :: IsIconLine(Lines(content)[i])
  }

  /** The record points at `icon`: it has an `Icon=` line, and every `Icon=` line
      is exactly `Icon=<icon>`. */
  ghost predicate PointsAt(content: string, icon: string)
  {
    && HasIconLine(content)
    && forall i | 0 <= i < |Lines(content)| :: IsIconLine(Lines(content)[i]) ==> Lines(content)[i] == IconLine(icon)
  }

  /** An `Icon=` line contains the substring `Icon`. */
  lemma {:induction false} IconLineContainsIcon(line: string)
    requires IsIconLine(line)
    ensures Contains(line, "Icon")
  {
    assert line[..4] == line[..5][..4];
  }

  /** The line written for an icon path without a newline is one `Icon=` line. */
  lemma {:induction false} IconLineFacts(icon: string)
    requires '\n' !in icon
    ensures IsIconLine(IconLine(icon))
    ensures Contains(IconLine(icon), "Icon")
    ensures '\n' !in IconLine(icon)
  {
    assert IconLine(icon)[..5] == IconKey;
    IconLineContainsIcon(IconLine(icon));
  }

  /** A text without the substring `Icon` has no `Icon=` line. */
  lemma {:induction false} NoIconNoIconLines(s: string)
    requires !Contains(s, "Icon")
    ensures forall i | 0 <= i < |Lines(s)| :: !IsIconLine(Lines(s)[i])
  {
    forall i | 0 <= i < |Lines(s)|
      ensures !IsIconLine(Lines(s)[i])
    {
      if IsIconLine(Lines(s)[i]) {
        IconLineContainsIcon(Lines(s)[i]);
        ContainsUnlines(Lines(s), i, "Icon");
        UnlinesLines(s);
        assert false;
      }
    }
  }

  /** A text with an `Icon=` line contains the substring `Icon`. */
  lemma {:induction false} IconLineMeansIcon(s: string, i: nat)
    requires i < |Lines(s)| && IsIconLine(Lines(s)[i])
    ensures Contains(s, "Icon")
  {
    IconLineContainsIcon(Lines(s)[i]);
    ContainsUnlines(Lines(s), i, "Icon");
    UnlinesLines(s);
  }

  lemma {:induction false} ReplaceLinesNoNewlines(ls: seq<string>, repl: string)
    requires NoNewlines(ls) && '\n' !in repl
    ensures NoNewlines(ReplaceLines(ls, repl))
  {
  }

  /** Replace branch, line by line: the line count is kept, every `Icon=` line
      becomes `Icon=<icon>`, every other line is kept where it was. */
  lemma {:induction false} UpdateReplacesIconLines(content: string, icon: string)
    requires Contains(content, "Icon")
    requires '\n' !in icon
    ensures var before, after := Lines(content), Lines(UpdateIcon(content, icon));
      && |after| == |before|
      && forall i | 0 <= i < |before| ::
           after[i] == if IsIconLine(before[i]) then IconLine(icon) else before[i]
  {
    IconLineFacts(icon);
    ReplaceScanLines(content, IconLine(icon));
    ReplaceLinesNoNewlines(Lines(content), IconLine(icon));
    LinesUnlines(ReplaceLines(Lines(content), IconLine(icon)));
  }

  /** The text the append branch builds splits into the kept lines and the new one. */
  lemma {:induction false} AppendedLines(trimmed: string, icon: string)
    requires '\n' !in icon
    ensures Lines(trimmed + "\n" + IconLine(icon)) == Lines(trimmed) + [IconLine(icon)]
  {
    IconLineFacts(icon);
    LinesAppend(trimmed, IconLine(icon));
    LinesOfLine(IconLine(icon));
  }

  /** Dropping trailing newlines cannot create an occurrence of `Icon`. */
  lemma {:induction false} TrimmedHasNoIcon(content: string)
    requires !Contains(content, "Icon")
    ensures !Contains(TrimTrailingNewlines(content), "Icon")
  {
    var trimmed := TrimTrailingNewlines(content);
    assert content == trimmed + content[|trimmed|..];
    if Contains(trimmed, "Icon") {
      ContainsBefore(trimmed, content[|trimmed|..], "Icon");
    }
  }

  lemma {:induction false} AppendedEndsWithIconLine(trimmed: string, icon: string)
    requires '\n' !in icon
    ensures var r := trimmed + "\n" + IconLine(icon); r[|r| - 1] != '\n'
  {
    var line := IconLine(icon);
    IconLineFacts(icon);
    assert (trimmed + "\n" + line)[|trimmed + "\n" + line| - 1] == line[|line| - 1];
    assert line[|line| - 1] in line;
  }

  /** Append branch: trailing newlines are dropped and `Icon=<icon>` becomes the
      last line, unterminated; the earlier lines are those of the record without
      its trailing blank lines, and the new line is the only `Icon=` line. */
  lemma {:induction false} UpdateAppendsIconLine(content: string, icon: string)
    requires !Contains(content, "Icon")
    requires '\n' !in icon
    ensures var trimmed, after := TrimTrailingNewlines(content), Lines(UpdateIcon(content, icon));
      && Lines(content) == Lines(trimmed) + BlankLines(|content| - |trimmed|)
      && after == Lines(trimmed) + [IconLine(icon)]
      && (forall i | 0 <= i < |after| :: IsIconLine(after[i]) <==> i == |after| - 1)
      && UpdateIcon(content, icon)[|UpdateIcon(content, icon)| - 1] != '\n'
  {
    var trimmed := TrimTrailingNewlines(content);
    TrimTrailingNewlinesLines(content);
    AppendedLines(trimmed, icon);
    TrimmedHasNoIcon(content);
    NoIconNoIconLines(trimmed);
    IconLineFacts(icon);
    AppendedEndsWithIconLine(trimmed, icon);
  }

  /** The substring guard is not line-anchored: when `Icon` occurs but no line
      starts with `Icon=` (an `IconTheme=` key, say), the record is returned
      unchanged and still has no `Icon=` line. */
  lemma {:induction false} UpdateWithoutIconLineKeepsText(content: string, icon: string)
    requires Contains(content, "Icon")
    requires !HasIconLine(content)
    ensures UpdateIcon(content, icon) == content
    ensures !HasIconLine(UpdateIcon(content, icon))
  {
    var ls := Lines(content);
    ReplaceScanLines(content, IconLine(icon));
    assert ReplaceLines(ls, IconLine(icon)) == ls;
    UnlinesLines(content);
  }

  /** After the update the record points at `icon` unless the guard's corner case
      applies (`Icon` occurs but no line starts with `Icon=`). */
  lemma {:induction false} UpdatePointsAtIcon(content: string, icon: string)
    requires '\n' !in icon
    requires !Contains(content, "Icon") || HasIconLine(content)
    ensures PointsAt(UpdateIcon(content, icon), icon)
  {
    var r := UpdateIcon(content, icon);
    IconLineFacts(icon);
    if Contains(content, "Icon") {
      UpdateReplacesIconLines(content, icon);
      var i :| 0 <= i < |Lines(content)| && IsIconLine(Lines(content)[i]);
      assert IsIconLine(Lines(r)[i]);
      forall j | 0 <= j < |Lines(r)| && IsIconLine(Lines(r)[j])
        ensures Lines(r)[j] == IconLine(icon)
      {
      }
    } else {
      UpdateAppendsIconLine(content, icon);
      assert IsIconLine(Lines(r)[|Lines(r)| - 1]);
    }
  }

  /** Updating twice is updating once. */
  /** A record whose every `Icon=` line already names `icon` is left as it is. */
  lemma {:induction false} UpdateKeepsPointing(content: string, icon: string)
    requires PointsAt(content, icon)
    ensures UpdateIcon(content, icon) == content
  {
    var ls := Lines(content);
    var i :| 0 <= i < |ls| && IsIconLine(ls[i]);
    IconLineMeansIcon(content, i);
    ReplaceScanLines(content, IconLine(icon));
    assert ReplaceLines(ls, IconLine(icon)) == ls by {
      forall j | 0 <= j < |ls| ensures ReplaceLine(ls[j], IconLine(icon)) == ls[j] {
      }
    }
    UnlinesLines(content);
  }

  lemma {:induction false} UpdateIdempotent(content: string, icon: string)
    requires '\n' !in icon
    ensures UpdateIcon(UpdateIcon(content, icon), icon) == UpdateIcon(content, icon)
  {
    if Contains(content, "Icon") && !HasIconLine(content) {
      UpdateWithoutIconLineKeepsText(content, icon);
    } else {
      UpdatePointsAtIcon(content, icon);
      UpdateKeepsPointing(UpdateIcon(content, icon), icon);
    }
  }

  lemma {:induction false} TemplateLines(icon: string)
    requires '\n' !in icon
    ensures Lines(Template(icon)) == ["[User]", IconLine(icon), ""]
  {
    IconLineFacts(icon);
    assert Template(icon) == "[User]" + "\n" + IconLine(icon) + "\n";
    HeaderAndLine("[User]", IconLine(icon));
  }

  /** The freshly created record already points at the icon, so the update that
      follows its creation leaves it as created. */
  lemma {:induction false} UpdateKeepsTemplate(icon: string)
    requires '\n' !in icon
    ensures UpdateIcon(Template(icon), icon) == Template(icon)
  {
    IconLineFacts(icon);
    TemplateLines(icon);
    var t := Template(icon);
    IconLineMeansIcon(t, 1);
    ReplaceScanLines(t, IconLine(icon));
    assert ReplaceLines(Lines(t), IconLine(icon)) == Lines(t);
    UnlinesLines(t);
  }

  lemma {:induction false} NonIconLinesNoNewlines(ls: seq<string>)
    requires NoNewlines(ls)
    ensures NoNewlines(NonIconLines(ls))
    decreases |ls|
  {
    if |ls| > 0 {
      NonIconLinesNoNewlines(ls[1..]);
    }
  }

  /** Removal, line by line: the newline-terminated `Icon=` lines are gone, every
      other line is kept in its order, and the last, unterminated line is kept
      whatever it holds. */
  lemma {:induction false} RemoveIconLines(content: string)
    ensures var before := Lines(content);
      Lines(RemoveIcon(content)) == NonIconLines(before[..|before| - 1]) + [before[|before| - 1]]
  {
    var before := Lines(content);
    RemoveScanLines(content);
    NonIconLinesNoNewlines(before[..|before| - 1]);
    LinesUnlines(RemoveLines(before));
  }

  /** After removal no newline-terminated line starts with `Icon=`. */
  lemma {:induction false} RemoveLeavesNoTerminatedIconLine(content: string)
    ensures var after := Lines(RemoveIcon(content));
      forall i | 0 <= i < |after| - 1 :: !IsIconLine(after[i])
  {
    RemoveIconLines(content);
  }

  /** Removing twice is removing once. */
  lemma {:induction false} RemoveIdempotent(content: string)
    ensures RemoveIcon(RemoveIcon(content)) == RemoveIcon(content)
  {
    var r := RemoveIcon(content);
    var before := Lines(content);
    var kept := NonIconLines(before[..|before| - 1]);
    RemoveIconLines(content);
    assert Lines(r)[..|Lines(r)| - 1] == kept;
    NonIconLinesNone(kept);
    RemoveScanLines(r);
    assert RemoveLines(Lines(r)) == Lines(r);
    UnlinesLines(r);
  }

  /** On the freshly created record, removal leaves only the `[User]` header line. */
  lemma {:induction false} RemoveFromTemplate(icon: string)
    requires '\n' !in icon
    ensures RemoveIcon(Template(icon)) == "[User]\n"
  {
    IconLineFacts(icon);
    TemplateLines(icon);
    var t := Template(icon);
    RemoveScanLines(t);
    assert Lines(t)[..2] == ["[User]", IconLine(icon)];
    assert NonIconLines(["[User]", IconLine(icon)]) == ["[User]"] by {
      assert !IsIconLine("[User]");
      assert ["[User]", IconLine(icon)][1..] == [IconLine(icon)];
      assert NonIconLines([IconLine(icon)]) == [];
    }
    assert RemoveLines(Lines(t)) == ["[User]", ""];
  }

  /** The line the append branch adds has no trailing newline, so removal does not
      delete it: on such a record removal changes nothing at all. */
  lemma {:induction false} RemoveKeepsAppendedIconLine(content: string, icon: string)
    requires !Contains(content, "Icon")
    requires '\n' !in icon
    ensures RemoveIcon(UpdateIcon(content, icon)) == UpdateIcon(content, icon)
    ensures HasIconLine(RemoveIcon(UpdateIcon(content, icon)))
  {
    var r := UpdateIcon(content, icon);
    var trimmed := TrimTrailingNewlines(content);
    UpdateAppendsIconLine(content, icon);
    var ls := Lines(r);
    assert ls[..|ls| - 1] == Lines(trimmed);
    NonIconLinesNone(Lines(trimmed));
    RemoveScanLines(r);
    assert RemoveLines(ls) == ls;
    UnlinesLines(r);
    assert IsIconLine(ls[|ls| - 1]);
  }
}
