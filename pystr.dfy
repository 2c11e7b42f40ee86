/** The few Python `str` operations the bot relies on, modelled on `seq<char>`:
    `splitlines()`, `replace(pat, "")`, `strip()`, `split()`, `int(s)` and `str(n)`. */
module PyStr {

  datatype Option<T> = None | Some(value: T)

  /** Python's `str.isspace` for one character. */
  predicate IsSpace(c: char) {
    || ('\t' <= c <= '\r')
    || ('\U{1C}' <= c <= '\U{1F}')
    || c == ' ' || c == '\U{85}' || c == '\U{A0}' || c == '\U{1680}'
    || ('\U{2000}' <= c <= '\U{200A}')
    || c == '\U{2028}' || c == '\U{2029}' || c == '\U{202F}' || c == '\U{205F}' || c == '\U{3000}'
  }

  /** The characters at which Python's `str.splitlines` breaks a line. */
  predicate IsLineBreak(c: char) {
    || c == '\n' || c == '\r' || c == '\U{0B}' || c == '\U{0C}'
    || c == '\U{1C}' || c == '\U{1D}' || c == '\U{1E}' || c == '\U{85}'
    || c == '\U{2028}' || c == '\U{2029}'
  }

  lemma LineBreakIsSpace(c: char)
    requires IsLineBreak(c)
    ensures IsSpace(c)
  {}

  predicate NoLineBreak(s: string) {
    forall k :: 0 <= k < |s| ==> !IsLineBreak(s[k])
  }

  predicate NoSpace(s: string) {
    forall k :: 0 <= k < |s| ==> !IsSpace(s[k])
  }

  predicate AllSpace(s: string) {
    forall k :: 0 <= k < |s| ==> IsSpace(s[k])
  }

  /** Neither end of `s` is whitespace: `s` is its own `strip()`. */
  predicate IsStripped(s: string) {
    s == [] || (!IsSpace(s[0]) && !IsSpace(s[|s| - 1]))
  }

  // ---------------------------------------------------------------------------
  // splitlines()

  /** Index of the first line break in `s`, or `|s|` when there is none. */
  function FirstBreak(s: string): (i: nat)
    ensures i <= |s|
    ensures forall k :: 0 <= k < i ==> !IsLineBreak(s[k])
    ensures i < |s| ==> IsLineBreak(s[i])
  {
    if s == [] then 0
    else if IsLineBreak(s[0]) then 0
    else 1 + FirstBreak(s[1..])
  }

  /** Length of the line break starting at `s[i]`: "\r\n" is one break of two characters. */
  function BreakLength(s: string, i: nat): nat
    requires i < |s|
  {
    if s[i] == '\r' && i + 1 < |s| && s[i + 1] == '\n' then 2 else 1
  }

  /** Python's `s.splitlines()`: the lines of `s` without their breaks; a final break
      does not open an empty last line, and the empty string has no lines. */
  function SplitLines(s: string): (lines: seq<string>)
    ensures forall k :: 0 <= k < |lines| ==> NoLineBreak(lines[k])
    ensures s == [] <==> lines == []
    decreases |s|
  {
    if s == [] then []
    else
      var i := FirstBreak(s);
      if i == |s| then [s]
      else [s[..i]] + SplitLines(s[i + BreakLength(s, i)..])
  }

  lemma {:induction false} FirstBreakOfConcat(a: string, t: string)
    requires NoLineBreak(a)
    requires t != [] && IsLineBreak(t[0])
    ensures FirstBreak(a + t) == |a|
    decreases |a|
  {
    if a == [] {
      assert a + t == t;
    } else {
      assert (a + t)[0] == a[0];
      assert (a + t)[1..] == a[1..] + t;
      FirstBreakOfConcat(a[1..], t);
    }
  }

  /** A line without breaks followed by a break is the first line. */
  lemma {:induction false} SplitLinesCons(a: string, t: string)
    requires NoLineBreak(a)
    requires t != [] && IsLineBreak(t[0])
    ensures SplitLines(a + t) == [a] + SplitLines(t[BreakLength(t, 0)..])
  {
    var s := a + t;
    FirstBreakOfConcat(a, t);
    assert s[..|a|] == a;
    assert BreakLength(s, |a|) == BreakLength(t, 0) by {
      assert s[|a|] == t[0];
      if 1 < |t| { assert s[|a| + 1] == t[1]; }
    }
    assert s[|a| + BreakLength(t, 0)..] == t[BreakLength(t, 0)..];
  }

  /** A non-empty string without breaks is exactly one line. */
  lemma SplitLinesSingle(a: string)
    requires a != [] && NoLineBreak(a)
    ensures SplitLines(a) == [a]
  {
    assert FirstBreak(a) == |a|;
  }

  /** The line `a` followed by "\n" is the first line, whatever comes after. */
  lemma SplitLinesNewline(a: string, r: string)
    requires NoLineBreak(a)
    ensures SplitLines(a + "\n" + r) == [a] + SplitLines(r)
  {
    assert a + "\n" + r == a + ("\n" + r);
    SplitLinesCons(a, "\n" + r);
    assert ("\n" + r)[1..] == r;
  }

  /** A leading "\n" is an empty first line. */
  lemma SplitLinesBlank(r: string)
    ensures SplitLines("\n" + r) == [""] + SplitLines(r)
  {
    SplitLinesNewline("", r);
    assert "" + "\n" + r == "\n" + r;
  }

  /** `"\n".join(lines)`. */
  function Join(lines: seq<string>): string {
    if lines == [] then ""
    else if |lines| == 1 then lines[0]
    else lines[0] + "\n" + Join(lines[1..])
  }

  /** Joining lines with "\n" and splitting them again gives the lines back. */
  lemma {:induction false} SplitLinesJoin(lines: seq<string>, r: string)
    requires lines != []
    requires forall k :: 0 <= k < |lines| ==> NoLineBreak(lines[k])
    ensures SplitLines(Join(lines) + "\n" + r) == lines + SplitLines(r)
  {
    if |lines| == 1 {
      SplitLinesNewline(lines[0], r);
    } else {
      var rest := lines[1..];
      assert Join(lines) == lines[0] + "\n" + Join(rest);
      calc {
        SplitLines(Join(lines) + "\n" + r);
        { assert Join(lines) + "\n" + r == lines[0] + "\n" + (Join(rest) + "\n" + r); }
        SplitLines(lines[0] + "\n" + (Join(rest) + "\n" + r));
        { SplitLinesNewline(lines[0], Join(rest) + "\n" + r); }
        [lines[0]] + SplitLines(Join(rest) + "\n" + r);
        { SplitLinesJoin(rest, r); }
        [lines[0]] + (rest + SplitLines(r));
        { assert [lines[0]] + rest == lines; }
        lines + SplitLines(r);
      }
    }
  }

  lemma NoLineBreakConcat(a: string, b: string)
    requires NoLineBreak(a) && NoLineBreak(b)
    ensures NoLineBreak(a + b)
  {
    forall k | 0 <= k < |a + b| ensures !IsLineBreak((a + b)[k]) {
      if k < |a| { assert (a + b)[k] == a[k]; } else { assert (a + b)[k] == b[k - |a|]; }
    }
  }

  lemma NoLineBreakSlice(s: string, i: nat, j: nat)
    requires NoLineBreak(s) && i <= j <= |s|
    ensures NoLineBreak(s[i..j])
  {
    forall k | 0 <= k < j - i ensures !IsLineBreak(s[i..j][k]) {
      assert s[i..j][k] == s[i + k];
    }
  }

  // ---------------------------------------------------------------------------
  // replace(pat, "")

  predicate OccursAt(s: string, pat: string, i: nat) {
    i + |pat| <= |s| && s[i..i + |pat|] == pat
  }

  ghost predicate Occurs(s: string, pat: string) {
    exists i: nat :: OccursAt(s, pat, i)
  }

  /** Python's `s.replace(pat, "")`: scanning left to right, every non-overlapping
      occurrence of `pat` is deleted; what the deletions bring together is not rescanned. */
  function RemoveAll(s: string, pat: string): (r: string)
    requires pat != []
    ensures |r| <= |s|
    decreases |s|
  {
    if |s| < |pat| then s
    else if s[..|pat|] == pat then RemoveAll(s[|pat|..], pat)
    else [s[0]] + RemoveAll(s[1..], pat)
  }

  /** Text without an occurrence of the pattern is left as it is. */
  lemma {:induction false} RemoveAllAbsent(s: string, pat: string)
    requires pat != [] && !Occurs(s, pat)
    ensures RemoveAll(s, pat) == s
    decreases |s|
  {
    if |s| >= |pat| {
      assert !OccursAt(s, pat, 0);
      assert !Occurs(s[1..], pat) by {
        forall i: nat | OccursAt(s[1..], pat, i) ensures OccursAt(s, pat, i + 1) {
          assert s[1..][i..i + |pat|] == s[i + 1..i + 1 + |pat|];
        }
      }
      RemoveAllAbsent(s[1..], pat);
      assert [s[0]] + s[1..] == s;
    }
  }

  /** A leading occurrence is deleted and scanning resumes right after it. */
  lemma RemoveAllLeading(pat: string, s: string)
    requires pat != []
    ensures RemoveAll(pat + s, pat) == RemoveAll(s, pat)
  {
    assert (pat + s)[..|pat|] == pat;
    assert (pat + s)[|pat|..] == s;
  }

  /** The leftmost occurrence is deleted: the text before it is kept and scanning
      resumes right after it. With `RemoveAllAbsent` this determines the result of
      `replace(pat, "")` on every text. */
  lemma {:induction false} RemoveAllFirst(a: string, pat: string, b: string)
    requires pat != []
    requires forall i :: 0 <= i < |a| ==> !OccursAt(a + pat + b, pat, i)
    ensures RemoveAll(a + pat + b, pat) == a + RemoveAll(b, pat)
    decreases |a|
  {
    var s := a + pat + b;
    if a == [] {
      assert s == pat + b;
      RemoveAllLeading(pat, b);
    } else {
      assert !OccursAt(s, pat, 0);
      assert s[1..] == a[1..] + pat + b;
      forall i | 0 <= i < |a| - 1 ensures !OccursAt(a[1..] + pat + b, pat, i) {
        assert !OccursAt(s, pat, i + 1);
        assert s[i + 1..i + 1 + |pat|] == s[1..][i..i + |pat|];
      }
      RemoveAllFirst(a[1..], pat, b);
      assert [a[0]] + (a[1..] + RemoveAll(b, pat)) == a + RemoveAll(b, pat);
    }
  }

  /** Text whose prefix never holds the pattern's first character has an occurrence
      only where the rest has one. */
  lemma AbsentAfterPrefix(a: string, b: string, pat: string)
    requires pat != [] && !Occurs(b, pat)
    requires forall k :: 0 <= k < |a| ==> a[k] != pat[0]
    ensures !Occurs(a + b, pat)
  {
    var x := a + b;
    forall i: nat ensures !OccursAt(x, pat, i) {
      if i + |pat| <= |x| {
        if i < |a| {
          assert x[i..i + |pat|][0] == a[i];
        } else {
          assert x[i..i + |pat|] == b[i - |a|..i - |a| + |pat|];
          assert !OccursAt(b, pat, i - |a|);
        }
      }
    }
  }

  // ---------------------------------------------------------------------------
  // strip() and split()

  function TrimLeft(s: string): (r: string)
    ensures |r| <= |s| && r == s[|s| - |r|..]
    ensures AllSpace(s[..|s| - |r|])
    ensures r == [] || !IsSpace(r[0])
  {
    if s != [] && IsSpace(s[0]) then
      var r := TrimLeft(s[1..]);
      assert s[..|s| - |r|] == [s[0]] + s[1..][..|s| - 1 - |r|];
      r
    else s
  }

  function TrimRight(s: string): (r: string)
    ensures |r| <= |s| && r == s[..|r|]
    ensures AllSpace(s[|r|..])
    ensures r == [] || !IsSpace(r[|r| - 1])
  {
    if s != [] && IsSpace(s[|s| - 1]) then
      var r := TrimRight(s[..|s| - 1]);
      assert s[|r|..] == s[..|s| - 1][|r|..] + [s[|s| - 1]];
      r
    else s
  }

  /** Python's `s.strip()`: `s` without its leading and trailing whitespace. */
  function Strip(s: string): (r: string)
    ensures IsStripped(r)
    ensures |r| <= |s|
  {
    var t := TrimLeft(s);
    var r := TrimRight(t);
    assert r != [] ==> r[0] == t[0];
    r
  }

  lemma {:induction false} TrimLeftSpaces(p: string, d: string)
    requires AllSpace(p) && (d == [] || !IsSpace(d[0]))
    ensures TrimLeft(p + d) == d
    decreases |p|
  {
    if p == [] {
      assert p + d == d;
    } else {
      assert (p + d)[0] == p[0];
      assert (p + d)[1..] == p[1..] + d;
      TrimLeftSpaces(p[1..], d);
    }
  }

  lemma {:induction false} TrimRightSpaces(d: string, q: string)
    requires AllSpace(q) && (d == [] || !IsSpace(d[|d| - 1]))
    ensures TrimRight(d + q) == d
    decreases |q|
  {
    if q == [] {
      assert d + q == d;
    } else {
      var n := |d + q|;
      assert (d + q)[n - 1] == q[|q| - 1];
      assert (d + q)[..n - 1] == d + q[..|q| - 1];
      TrimRightSpaces(d, q[..|q| - 1]);
    }
  }

  /** Trailing whitespace is trimmed from the end only: text ending in a non-space
      character is kept whole in front. */
  lemma {:induction false} TrimRightAfter(s: string, rest: string)
    requires s == [] || !IsSpace(s[|s| - 1])
    ensures TrimRight(s + rest) == s + TrimRight(rest)
    decreases |rest|
  {
    if rest == [] {
      assert s + rest == s;
      assert s + [] == s;
    } else {
      var n := |s + rest|;
      assert (s + rest)[n - 1] == rest[|rest| - 1];
      if IsSpace(rest[|rest| - 1]) {
        assert (s + rest)[..n - 1] == s + rest[..|rest| - 1];
        TrimRightAfter(s, rest[..|rest| - 1]);
      }
    }
  }

  /** `strip()` removes exactly the surrounding whitespace: it gives back any stripped text
      however much whitespace surrounds it. */
  lemma StripSurrounded(p: string, d: string, q: string)
    requires AllSpace(p) && AllSpace(q) && IsStripped(d)
    ensures Strip(p + d + q) == d
  {
    if d == [] {
      assert p + d + q == p + q;
      assert AllSpace(p + q) by {
        forall k | 0 <= k < |p + q| ensures IsSpace((p + q)[k]) {
          if k < |p| { assert (p + q)[k] == p[k]; } else { assert (p + q)[k] == q[k - |p|]; }
        }
      }
      TrimLeftSpaces(p + q, []);
      assert p + q + [] == p + q;
    } else {
      assert p + d + q == p + (d + q);
      assert (d + q)[0] == d[0];
      TrimLeftSpaces(p, d + q);
      TrimRightSpaces(d, q);
    }
  }

  /** `strip()` cannot introduce a line break. */
  lemma StripKeepsNoLineBreak(s: string)
    requires NoLineBreak(s)
    ensures NoLineBreak(Strip(s))
  {
    var l := TrimLeft(s);
    NoLineBreakSlice(s, |s| - |l|, |s|);
    assert l == s[|s| - |l|..|s|];
    var r := TrimRight(l);
    NoLineBreakSlice(l, 0, |r|);
    assert r == l[0..|r|];
  }

  /** `strip()` leaves nothing exactly of blank text. */
  lemma StripBlank(t: string)
    ensures Strip(t) == [] <==> AllSpace(t)
  {
    if AllSpace(t) {
      StripSurrounded(t, [], []);
      assert t + [] + [] == t;
    }
    if Strip(t) == [] {
      var l := TrimLeft(t);
      var n := |t| - |l|;
      assert l[0..] == l;
      forall k | 0 <= k < |t| ensures IsSpace(t[k]) {
        if k < n {
          assert t[k] == t[..n][k];
        } else {
          assert t[k] == l[k - n];
        }
      }
    }
  }

  /** Index of the first whitespace character in `s`, or `|s|`. */
  function WordEnd(s: string): (n: nat)
    ensures n <= |s| && NoSpace(s[..n])
    ensures n < |s| ==> IsSpace(s[n])
    ensures NoSpace(s) ==> n == |s|
  {
    if s == [] || IsSpace(s[0]) then 0
    else
      var n := 1 + WordEnd(s[1..]);
      assert s[..n] == [s[0]] + s[1..][..n - 1];
      n
  }

  /** Python's `s.split()` with no separator: the maximal runs of non-whitespace. */
  function Words(s: string): (ws: seq<string>)
    ensures forall w <- ws :: w != [] && NoSpace(w)
    decreases |s|
  {
    var t := TrimLeft(s);
    if t == [] then []
    else
      var n := WordEnd(t);
      assert n > 0 by { assert !IsSpace(t[0]); }
      var first := t[..n];
      var rest := Words(t[n..]);
      assert forall w <- [first] + rest :: w == first || w in rest;
      [first] + rest
  }

  /** `split()` finds no word exactly in blank text. */
  lemma WordsEmpty(s: string)
    ensures Words(s) == [] <==> AllSpace(s)
  {
    var t := TrimLeft(s);
    if t == [] {
      assert s[..|s|] == s;
    } else {
      assert s[|s| - |t|] == t[0];
    }
  }

  lemma {:induction false} WordEndOfConcat(w: string, r: string)
    requires NoSpace(w) && (r == [] || IsSpace(r[0]))
    ensures WordEnd(w + r) == |w|
    decreases |w|
  {
    if w == [] {
      assert w + r == r;
    } else {
      assert (w + r)[0] == w[0];
      assert (w + r)[1..] == w[1..] + r;
      assert NoSpace(w[1..]) by {
        forall k | 0 <= k < |w| - 1 ensures !IsSpace(w[1..][k]) {
          assert w[1..][k] == w[k + 1];
        }
      }
      WordEndOfConcat(w[1..], r);
    }
  }

  /** The first word of `split()` runs up to the first whitespace. */
  lemma WordsFirst(w: string, r: string)
    requires w != [] && NoSpace(w) && (r == [] || IsSpace(r[0]))
    ensures Words(w + r) != [] && Words(w + r)[0] == w
  {
    assert (w + r)[0] == w[0];
    TrimLeftSpaces([], w + r);
    assert [] + (w + r) == w + r;
    WordEndOfConcat(w, r);
    assert (w + r)[..|w|] == w;
  }

  // ---------------------------------------------------------------------------
  // str(n) and int(s)

  predicate IsDigit(c: char) {
    '0' <= c <= '9'
  }

  function DigitChar(d: nat): (c: char)
    requires d < 10
    ensures IsDigit(c)
  {
    "0123456789"[d]
  }

  function DigitValue(c: char): nat
    requires IsDigit(c)
  {
    c as int - '0' as int
  }

  /** Python's `str(n)` for `n >= 0`: decimal digits, no leading zero. */
  function NatToString(n: nat): (s: string)
    ensures s != [] && forall k :: 0 <= k < |s| ==> IsDigit(s[k])
  {
    if n < 10 then [DigitChar(n)] else NatToString(n / 10) + [DigitChar(n % 10)]
  }

  /** Python's `str(n)`. */
  function IntToString(n: int): string {
    if n < 0 then "-" + NatToString(-n) else NatToString(n)
  }

  /** Value of a string of decimal digits, most significant first. */
  function DigitsValue(s: string): nat
    requires forall k :: 0 <= k < |s| ==> IsDigit(s[k])
  {
    if s == [] then 0 else 10 * DigitsValue(s[..|s| - 1]) + DigitValue(s[|s| - 1])
  }

  /** The digits of a Python decimal literal: ASCII digits, with single underscores
      allowed between two digits ("1_000"). */
  predicate IsDigitBody(s: string) {
    && s != [] && IsDigit(s[0]) && IsDigit(s[|s| - 1])
    && (forall k :: 0 <= k < |s| ==> IsDigit(s[k]) || s[k] == '_')
    && (forall i, j :: 0 <= i < |s| && 0 <= j < |s| && j == i + 1 ==> !(s[i] == '_' && s[j] == '_'))
  }

  function DropUnderscores(s: string): (r: string)
    requires forall k :: 0 <= k < |s| ==> IsDigit(s[k]) || s[k] == '_'
    ensures forall k :: 0 <= k < |r| ==> IsDigit(r[k])
    ensures (forall k :: 0 <= k < |s| ==> IsDigit(s[k])) ==> r == s
  {
    if s == [] then []
    else (if s[0] == '_' then [] else [s[0]]) + DropUnderscores(s[1..])
  }

  /** The value of a decimal literal without sign; None when `body` is not one. */
  function ParseDigits(body: string): Option<nat> {
    if IsDigitBody(body) then Some(DigitsValue(DropUnderscores(body))) else None
  }

  /** A decimal literal with an optional leading '+' or '-'. */
  function ParseSigned(t: string): Option<int> {
    if t != [] && t[0] == '-' then
      match ParseDigits(t[1..])
      case Some(v) => Some(-(v as int))
      case None => None
    else if t != [] && t[0] == '+' then
      match ParseDigits(t[1..])
      case Some(v) => Some(v)
      case None => None
    else
      match ParseDigits(t)
      case Some(v) => Some(v)
      case None => None
  }

  /** Python's `int(s)` for base 10: surrounding whitespace, an optional sign, then
      digits with single underscores between them; anything else is a ValueError (None). */
  function ParseInt(s: string): Option<int> {
    ParseSigned(Strip(s))
  }

  lemma {:induction false} DigitsValueOfNat(n: nat)
    ensures DigitsValue(NatToString(n)) == n
    decreases n
  {
    if n >= 10 {
      var s := NatToString(n);
      assert s[..|s| - 1] == NatToString(n / 10);
      DigitsValueOfNat(n / 10);
    }
  }

  /** The digits of `str(m)` form a decimal literal whose value is `m`. */
  lemma {:induction false} NatStringLiteral(m: nat)
    ensures IsDigitBody(NatToString(m))
    ensures DigitsValue(DropUnderscores(NatToString(m))) == m
  {
    DigitsValueOfNat(m);
  }

  lemma {:induction false} NatStringStripped(m: nat)
    ensures Strip(NatToString(m)) == NatToString(m)
  {
    var s := NatToString(m);
    assert !IsSpace(s[0]) && !IsSpace(s[|s| - 1]);
    StripSurrounded([], s, []);
    assert [] + s + [] == s;
  }

  lemma {:induction false} NegStringStripped(m: nat)
    ensures Strip("-" + NatToString(m)) == "-" + NatToString(m)
  {
    var s := "-" + NatToString(m);
    assert s[|s| - 1] == NatToString(m)[|NatToString(m)| - 1];
    assert IsStripped(s);
    StripSurrounded([], s, []);
    assert [] + s + [] == s;
  }

  lemma {:induction false} SignedOfNat(m: nat)
    ensures ParseSigned(NatToString(m)) == Some(m as int)
  {
    var s := NatToString(m);
    NatStringLiteral(m);
    assert s[0] != '-' && s[0] != '+';
    assert ParseDigits(s) == Some(m);
  }

  lemma {:induction false} SignedOfNegative(m: nat)
    ensures ParseSigned("-" + NatToString(m)) == Some(-(m as int))
  {
    var s := "-" + NatToString(m);
    assert s[1..] == NatToString(m);
    NatStringLiteral(m);
    assert ParseDigits(s[1..]) == Some(m);
  }

  /** `int(str(n)) == n`. */
  lemma {:induction false} ParseIntOfString(n: int)
    ensures ParseInt(IntToString(n)) == Some(n)
  {
    if n < 0 {
      var m: nat := -n;
      var s := "-" + NatToString(m);
      assert IntToString(n) == s;
      NegStringStripped(m);
      SignedOfNegative(m);
      assert ParseInt(s) == ParseSigned(s);
    } else {
      var s := NatToString(n);
      NatStringStripped(n);
      SignedOfNat(n);
      assert ParseInt(s) == ParseSigned(s);
    }
  }

  /** `str` is injective on integers, so `str(user_id)` keys never collide. */
  lemma {:induction false} IntToStringInjective(a: int, b: int)
    requires IntToString(a) == IntToString(b)
    ensures a == b
  {
    ParseIntOfString(a);
    ParseIntOfString(b);
  }
}
