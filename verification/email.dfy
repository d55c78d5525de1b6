/**
 Normalisation of the email address before hashing: `email.strip().lower()`.

 `strip()` with no argument removes every character for which Python's
 `str.isspace` holds; `IsSpace` lists all of them. `lower()` is modelled on
 ASCII letters only; every other character is left as it is.
 */
module Email {
  import opened Text

  /** Python's `str.isspace` for a single character. */
  predicate IsSpace(c: char)
  {
    || c == ' ' || c == '\t' || c == '\n' || c == '\r'
    || c == '\U{000B}' || c == '\U{000C}'                 // vertical tab, form feed
    || ('\U{001C}' <= c <= '\U{001F}')                    // file, group, record, unit separators
    || c == '\U{0085}' || c == '\U{00A0}' || c == '\U{1680}'
    || ('\U{2000}' <= c <= '\U{200A}')
    || c == '\U{2028}' || c == '\U{2029}' || c == '\U{202F}' || c == '\U{205F}' || c == '\U{3000}'
  }

  predicate IsUpper(c: char)
  {
    'A' <= c <= 'Z'
  }

  function LowerChar(c: char): char
  {
    if IsUpper(c) then (c as int + 32) as char else c
  }

  /** `s.lower()` on ASCII letters. */
  function Lower(s: string): string
  {
    seq(|s|, i requires 0 <= i < |s| => LowerChar(s[i]))
  }

  /** `s.strip()`: the slice of `s` left once the runs of spaces at both ends are
      cut off. */
  function Strip(s: string): (r: string)
    ensures |r| == 0 || (!IsSpace(r[0]) && !IsSpace(r[|r| - 1]))
    ensures exists i, j | 0 <= i <= j <= |s| ::
      && r == s[i..j]
      && (forall k | 0 <= k < i || j <= k < |s| :: IsSpace(s[k]))
  {
    var l := TrimLeft(s, IsSpace);
    var r := TrimRight(l, IsSpace);
    TrimBothFacts(s, l, r, IsSpace);
    r
  }

  /** The lowered form of a stripped address is the lowered slice `Strip` keeps. */
  lemma {:induction false} StripLowerSlice(email: string)
    ensures exists i, j | 0 <= i <= j <= |email| ::
      && Lower(Strip(email)) == Lower(email[i..j])
      && (forall k | 0 <= k < i || j <= k < |email| :: IsSpace(email[k]))
  {
    var i, j :| 0 <= i <= j <= |email| && Strip(email) == email[i..j]
      && (forall k | 0 <= k < i || j <= k < |email| :: IsSpace(email[k]));
  }

  /** `s.strip().lower()`, the form of the address that is hashed: the lowered
      slice of `email` left once the surrounding spaces are cut off. */
  function Normalise(email: string): (r: string)
    ensures |r| == 0 || (!IsSpace(r[0]) && !IsSpace(r[|r| - 1]))
    ensures forall i | 0 <= i < |r| :: !IsUpper(r[i])
    ensures exists i, j | 0 <= i <= j <= |email| ::
      && r == Lower(email[i..j])
      && (forall k | 0 <= k < i || j <= k < |email| :: IsSpace(email[k]))
  {
    NormaliseFacts(email);
    Lower(Strip(email))
  }

  /** The three facts of `Normalise`'s contract, about the lowered stripped text. */
  lemma {:induction false} NormaliseFacts(email: string)
    ensures var r := Lower(Strip(email));
      && (|r| == 0 || (!IsSpace(r[0]) && !IsSpace(r[|r| - 1])))
      && (forall i | 0 <= i < |r| :: !IsUpper(r[i]))
      && (exists i, j | 0 <= i <= j <= |email| ::
            && r == Lower(email[i..j])
            && (forall k | 0 <= k < i || j <= k < |email| :: IsSpace(email[k])))
  {
    var t := Strip(email);
    LowerNotUpper(t);
    LowerKeepsEnds(t);
    StripLowerSlice(email);
  }

  /** Lowering a text whose ends are not spaces leaves ends that are not spaces. */
  lemma {:induction false} LowerKeepsEnds(t: string)
    requires |t| == 0 || (!IsSpace(t[0]) && !IsSpace(t[|t| - 1]))
    ensures var l := Lower(t); |l| == 0 || (!IsSpace(l[0]) && !IsSpace(l[|l| - 1]))
  {
    if |t| > 0 {
      LowerKeepsSpaces(t[0]);
      LowerKeepsSpaces(t[|t| - 1]);
    }
  }

  lemma {:induction false} LowerNotUpper(s: string)
    ensures forall i | 0 <= i < |s| :: !IsUpper(Lower(s)[i])
  {
  }

  /** Lowering a text without capitals leaves it as it is. */
  lemma {:induction false} LowerWithoutUpper(s: string)
    requires forall i | 0 <= i < |s| :: !IsUpper(s[i])
    ensures Lower(s) == s
  {
  }

  /** Lowering never turns a space into a non-space or back. */
  lemma {:induction false} LowerKeepsSpaces(c: char)
    ensures IsSpace(LowerChar(c)) == IsSpace(c)
  {
  }

  /** Trimming from the left by any character class that lowering respects
      commutes with lowering. */
  lemma {:induction false} TrimLeftLower(s: string, stripped: char -> bool)
    requires forall c :: stripped(LowerChar(c)) == stripped(c)
    ensures TrimLeft(Lower(s), stripped) == Lower(TrimLeft(s, stripped))
    decreases |s|
  {
    if |s| > 0 {
      assert Lower(s)[0] == LowerChar(s[0]);
      assert Lower(s)[1..] == Lower(s[1..]);
      TrimLeftLower(s[1..], stripped);
    }
  }

  /** The same from the right. */
  lemma {:induction false} TrimRightLower(s: string, stripped: char -> bool)
    requires forall c :: stripped(LowerChar(c)) == stripped(c)
    ensures TrimRight(Lower(s), stripped) == Lower(TrimRight(s, stripped))
    decreases |s|
  {
    if |s| > 0 {
      assert Lower(s)[|s| - 1] == LowerChar(s[|s| - 1]);
      assert Lower(s)[..|s| - 1] == Lower(s[..|s| - 1]);
      TrimRightLower(s[..|s| - 1], stripped);
    }
  }

  /** Stripping and lowering commute, so the order Python applies them in does not matter. */
  lemma {:induction false} StripLowerCommute(s: string)
    ensures Strip(Lower(s)) == Lower(Strip(s))
  {
    forall c ensures IsSpace(LowerChar(c)) == IsSpace(c) {
      LowerKeepsSpaces(c);
    }
    TrimLeftLower(s, IsSpace);
    TrimRightLower(TrimLeft(s, IsSpace), IsSpace);
  }

  /** Stripping a string that neither starts nor ends with a space changes nothing. */
  lemma {:induction false} StripTrimmed(s: string)
    requires |s| == 0 || (!IsSpace(s[0]) && !IsSpace(s[|s| - 1]))
    ensures Strip(s) == s
  {
  }

  /** Normalisation is idempotent: a normalised address normalises to itself. */
  lemma {:induction false} NormaliseIdempotent(email: string)
    ensures Normalise(Normalise(email)) == Normalise(email)
  {
    var n := Normalise(email);
    StripTrimmed(n);
    LowerWithoutUpper(n);
  }

  lemma {:induction false} TrimLeftPadding(pad: string, s: string)
    requires forall i | 0 <= i < |pad| :: IsSpace(pad[i])
    ensures TrimLeft(pad + s, IsSpace) == TrimLeft(s, IsSpace)
    decreases |pad|
  {
    if |pad| == 0 {
      assert pad + s == s;
    } else {
      assert (pad + s)[1..] == pad[1..] + s;
      TrimLeftPadding(pad[1..], s);
    }
  }

  lemma {:induction false} TrimRightPadding(s: string, pad: string)
    requires forall i | 0 <= i < |pad| :: IsSpace(pad[i])
    ensures TrimRight(s + pad, IsSpace) == TrimRight(s, IsSpace)
    decreases |pad|
  {
    if |pad| == 0 {
      assert s + pad == s;
    } else {
      assert (s + pad)[..|s + pad| - 1] == s + pad[..|pad| - 1];
      TrimRightPadding(s, pad[..|pad| - 1]);
    }
  }

  /** Surrounding whitespace does not change the stripped address. */
  lemma {:induction false} StripPadding(pre: string, s: string, post: string)
    requires forall i | 0 <= i < |pre| :: IsSpace(pre[i])
    requires forall i | 0 <= i < |post| :: IsSpace(post[i])
    ensures Strip(pre + s + post) == Strip(s)
  {
    assert pre + s + post == pre + (s + post);
    TrimLeftPadding(pre, s + post);
    var l := TrimLeft(s, IsSpace);
    if |l| == 0 {
      assert forall i | 0 <= i < |s| :: IsSpace(s[i]);
      TrimLeftPadding(s, post);
      assert post + [] == post;
      TrimLeftPadding(post, []);
    } else {
      TrimLeftSuffix(s, post);
      TrimRightPadding(l, post);
    }
  }

  /** Trimming the left of `s + t` stops inside `s` when `s` is not all spaces. */
  lemma {:induction false} TrimLeftSuffix(s: string, t: string)
    requires |TrimLeft(s, IsSpace)| > 0
    ensures TrimLeft(s + t, IsSpace) == TrimLeft(s, IsSpace) + t
    decreases |s|
  {
    if IsSpace(s[0]) {
      assert (s + t)[1..] == s[1..] + t;
      TrimLeftSuffix(s[1..], t);
    }
  }

  /** Addresses that differ only in letter case and surrounding whitespace
      normalise to the same string. */
  lemma {:induction false} NormaliseIgnoresCaseAndPadding(pre: string, a: string, b: string, post: string)
    requires forall i | 0 <= i < |pre| :: IsSpace(pre[i])
    requires forall i | 0 <= i < |post| :: IsSpace(post[i])
    requires Lower(a) == Lower(b)
    ensures Normalise(pre + a + post) == Normalise(b)
  {
    StripPadding(pre, a, post);
    StripLowerCommute(a);
    StripLowerCommute(b);
  }
}
