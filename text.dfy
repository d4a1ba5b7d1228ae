/** String operations of Python's `str` that the scraper relies on: `strip`,
    `replace(pat, "")`, runs of characters (what `.*`, `\d+` range over) and
    `str(n)` for a natural number. */
module Text {

  /** Python's `str.isspace()`: the characters that `str.strip()` removes. */
  predicate IsSpace(c: char) {
    var n := c as int;
    (0x09 <= n <= 0x0D) || (0x1C <= n <= 0x20) || n == 0x85 || n == 0xA0 || n == 0x1680
    || (0x2000 <= n <= 0x200A) || n == 0x2028 || n == 0x2029 || n == 0x202F
    || n == 0x205F || n == 0x3000
  }

  /** On ASCII, `isspace` holds for tab, line feed, vertical tab, form feed,
      carriage return, the four information separators and the space. */
  lemma IsSpaceAscii(c: char)
    requires c as int < 0x80
    ensures IsSpace(c) <==> c as int in {9, 10, 11, 12, 13, 28, 29, 30, 31, 32}
  {
  }

  /** The ASCII decimal digits. */
  predicate IsDigit(c: char) {
    '0' <= c <= '9'
  }

  /** What the regular-expression `.` matches: anything but a line feed. */
  predicate NotNewline(c: char) {
    c != '\n'
  }

  /** Every character of `s` satisfies `p`. */
  predicate All(s: string, p: char -> bool) {
    forall i :: 0 <= i < |s| ==> p(s[i])
  }

  /** `s[i..j]` is a run of characters satisfying `p`. */
  predicate Span(s: string, i: nat, j: nat, p: char -> bool) {
    i <= j <= |s| && forall t :: i <= t < j ==> p(s[t])
  }

  /** Neither the first nor the last character of `s` satisfies `p`. */
  predicate Bare(s: string, p: char -> bool) {
    |s| > 0 ==> !p(s[0]) && !p(s[|s| - 1])
  }

  /** The end of the longest run of `p`-characters that starts at `i`. */
  function RunEnd(s: string, i: nat, p: char -> bool): (r: nat)
    requires i <= |s|
    ensures Span(s, i, r, p)
    ensures r < |s| ==> !p(s[r])
    decreases |s| - i
  {
    if i == |s| || !p(s[i]) then i else RunEnd(s, i + 1, p)
  }

  /** A run, cut out of `s`. */
  lemma SpanSlice(s: string, i: nat, j: nat, p: char -> bool)
    requires Span(s, i, j, p)
    ensures All(s[i..j], p)
  {
    assert forall t :: 0 <= t < j - i ==> s[i..j][t] == s[i + t];
  }

  /** A run that starts at `i` never reaches past the longest one. */
  lemma SpanWithinRun(s: string, i: nat, j: nat, p: char -> bool)
    requires Span(s, i, j, p)
    ensures j <= RunEnd(s, i, p)
  {
  }

  // ---------------------------------------------------------------------------
  // str.strip

  /** The number of leading `p`-characters of `s`. */
  function LeadLen(s: string, p: char -> bool): (n: nat)
    ensures n <= |s| && Span(s, 0, n, p)
    ensures n < |s| ==> !p(s[n])
  {
    RunEnd(s, 0, p)
  }

  /** The number of trailing `p`-characters of `s`. */
  function TrailLen(s: string, p: char -> bool): (n: nat)
    ensures n <= |s| && Span(s, |s| - n, |s|, p)
    ensures n < |s| ==> !p(s[|s| - 1 - n])
  {
    if |s| == 0 || !p(s[|s| - 1]) then 0 else TrailLen(s[..|s| - 1], p) + 1
  }

  /** `r` is `s` with its leading and trailing `p`-characters removed, and `r`
      starts at index `a` of `s`: what `strip` promises, independently of how
      it is computed. */
  ghost predicate StrippedAt(s: string, p: char -> bool, a: nat, r: string) {
    && a + |r| <= |s|
    && r == s[a..a + |r|]
    && Span(s, 0, a, p)
    && Span(s, a + |r|, |s|, p)
    && Bare(r, p)
  }

  /** Python's `s.strip(chars)`, with the set of `chars` given as `p`. */
  function Strip(s: string, p: char -> bool): (r: string)
    ensures StrippedAt(s, p, LeadLen(s, p), r)
  {
    var a := LeadLen(s, p);
    var t := s[a..];
    var n := TrailLen(t, p);
    assert forall i :: |t| - n <= i < |t| ==> t[i] == s[a + i];
    t[..|t| - n]
  }

  /** `s.strip()`: removes surrounding whitespace. */
  function StripWs(s: string): (r: string)
    ensures Bare(r, IsSpace)
  {
    Strip(s, IsSpace)
  }

  /** The characterisation fixes the result: at most one string is `s`
      stripped of `p`. */
  lemma StripUnique(s: string, p: char -> bool, a: nat, r: string, b: nat, q: string)
    requires StrippedAt(s, p, a, r) && StrippedAt(s, p, b, q)
    ensures r == q
  {
    FirstKept(s, p, a, r, b, q);
    FirstKept(s, p, b, q, a, r);
  }

  /** Where a stripped result starts and ends is forced by its bare ends. */
  lemma FirstKept(s: string, p: char -> bool, a: nat, r: string, b: nat, q: string)
    requires StrippedAt(s, p, a, r) && StrippedAt(s, p, b, q)
    ensures r != [] ==> q != [] && a <= b && b + |q| <= a + |r|
  {
  }

  /** Stripping twice is stripping once. */
  lemma StripIdempotent(s: string, p: char -> bool)
    ensures Strip(Strip(s, p), p) == Strip(s, p)
  {
    var r := Strip(s, p);
    assert StrippedAt(r, p, 0, r);
    StripUnique(r, p, 0, r, LeadLen(r, p), Strip(r, p));
  }

  /** Stripping changes nothing exactly when `s` has no `p`-character at
      either end. */
  lemma StripIdentity(s: string, p: char -> bool)
    ensures Strip(s, p) == s <==> Bare(s, p)
  {
    if Bare(s, p) {
      assert StrippedAt(s, p, 0, s);
      StripUnique(s, p, 0, s, LeadLen(s, p), Strip(s, p));
    }
  }

  // ---------------------------------------------------------------------------
  // str.replace(pat, "")

  /** `pat` occurs somewhere in `s`. */
  ghost predicate Occurs(pat: string, s: string) {
    exists i :: OccursAt(pat, s, i)
  }

  /** `pat` occurs in `s` at index `i`. */
  predicate OccursAt(pat: string, s: string, i: nat) {
    i + |pat| <= |s| && s[i..i + |pat|] == pat
  }

  /** Python's `s.replace(pat, "")`: a left-to-right scan that deletes each
      non-overlapping occurrence of `pat`. */
  function RemoveAll(s: string, pat: string): (r: string)
    requires |pat| > 0
    ensures |r| <= |s|
    decreases |s|
  {
    if |s| < |pat| then s
    else if s[..|pat|] == pat then RemoveAll(s[|pat|..], pat)
    else [s[0]] + RemoveAll(s[1..], pat)
  }

  /** The text is left as it is exactly when `pat` does not occur in it. */
  lemma {:induction false} RemoveAllUnchanged(s: string, pat: string)
    requires |pat| > 0
    ensures RemoveAll(s, pat) == s <==> !Occurs(pat, s)
    decreases |s|
  {
    if |s| < |pat| {
    } else if s[..|pat|] == pat {
      assert OccursAt(pat, s, 0);
    } else {
      RemoveAllUnchanged(s[1..], pat);
      if Occurs(pat, s) {
        var i: nat :| OccursAt(pat, s, i);
        assert s[1..][i - 1..i - 1 + |pat|] == s[i..i + |pat|];
        assert OccursAt(pat, s[1..], i - 1);
      }
      if Occurs(pat, s[1..]) {
        var i: nat :| OccursAt(pat, s[1..], i);
        assert s[i + 1..i + 1 + |pat|] == s[1..][i..i + |pat|];
        assert OccursAt(pat, s, i + 1);
      }
      assert s == [s[0]] + s[1..];
    }
  }

  /** The scan is single-pass: deleting one occurrence can join the pieces of
      another, which then stays. */
  lemma RemoveAllSinglePass()
    ensures RemoveAll("&nb&nbsp;sp;", "&nbsp;") == "&nbsp;"
  {
    var pat := "&nbsp;";
    var s := "&nb&nbsp;sp;";
    assert RemoveAll("sp;", pat) == "sp;";
    assert s[3..] == pat + "sp;";
    assert RemoveAll(s[3..], pat) == RemoveAll("sp;", pat);
    assert s[2..][..6][0] != pat[0];
    assert RemoveAll(s[2..], pat) == "b" + RemoveAll(s[3..], pat);
    assert s[1..][..6][0] != pat[0];
    assert RemoveAll(s[1..], pat) == "n" + RemoveAll(s[2..], pat);
    assert s[..6][3] != pat[3];
    assert RemoveAll(s, pat) == "&" + RemoveAll(s[1..], pat);
  }

  /** A prefix in which the first character of `pat` does not occur passes
      through the replacement unchanged. */
  lemma {:induction false} RemoveAllKeeps(a: string, r: string, pat: string)
    requires |pat| > 0
    requires forall t :: 0 <= t < |a| ==> a[t] != pat[0]
    ensures RemoveAll(a + r, pat) == a + RemoveAll(r, pat)
    decreases |a|
  {
    if |a| == 0 {
      assert a + r == r;
    } else {
      assert (a + r)[0] == a[0];
      assert (a + r)[1..] == a[1..] + r;
      RemoveAllKeeps(a[1..], r, pat);
      if |a + r| >= |pat| {
        assert (a + r)[..|pat|][0] != pat[0];
      }
    }
  }

  /** An occurrence at the front is deleted. */
  lemma RemoveAllDrops(r: string, pat: string)
    requires |pat| > 0
    ensures RemoveAll(pat + r, pat) == RemoveAll(r, pat)
  {
    assert (pat + r)[..|pat|] == pat;
    assert (pat + r)[|pat|..] == r;
  }

  // ---------------------------------------------------------------------------
  // str(n)

  function DigitChar(d: nat): (c: char)
    requires d < 10
    ensures IsDigit(c) && c as int - '0' as int == d
  {
    ('0' as int + d) as char
  }

  /** The value of a string of decimal digits. */
  function DecimalValue(s: string): nat
    requires All(s, IsDigit)
  {
    if s == [] then 0
    else DecimalValue(s[..|s| - 1]) * 10 + (s[|s| - 1] as int - '0' as int)
  }

  /** Python's `str(n)` for a natural number: decimal digits, no leading zero. */
  function Decimal(n: nat): (s: string)
    ensures |s| > 0 && All(s, IsDigit)
    ensures s[0] == '0' ==> n == 0 && |s| == 1
    decreases n
  {
    if n < 10 then [DigitChar(n)] else Decimal(n / 10) + [DigitChar(n % 10)]
  }

  /** Reading the digits back gives the number. */
  lemma {:induction false} DecimalRoundTrip(n: nat)
    ensures DecimalValue(Decimal(n)) == n
    decreases n
  {
    if n >= 10 {
      DecimalRoundTrip(n / 10);
      var s := Decimal(n);
      assert s[..|s| - 1] == Decimal(n / 10);
    }
  }

  /** Distinct numbers have distinct decimal strings. */
  lemma DecimalInjective(m: nat, n: nat)
    requires Decimal(m) == Decimal(n)
    ensures m == n
  {
    DecimalRoundTrip(m);
    DecimalRoundTrip(n);
  }
}
