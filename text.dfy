/** Character classes, case folding, `strip()` and decimal numbers: the
    pieces the line patterns of analyze.py and fix.py are built from. */
module Text {

  /** Whitespace as Python's `str.isspace` knows it; `\s` in a `str` pattern
      and `str.strip()` both use this set. */
  predicate IsSpace(c: char) {
    var n := c as int;
    (9 <= n <= 13) || (28 <= n <= 32) || n == 0x85 || n == 0xA0 || n == 0x1680
    || (0x2000 <= n <= 0x200A) || n == 0x2028 || n == 0x2029 || n == 0x202F
    || n == 0x205F || n == 0x3000
  }

  /** `\d`, restricted to the ASCII digits. */
  predicate IsDigit(c: char) {
    '0' <= c <= '9'
  }

  /** `[^"]` */
  predicate NotQuote(c: char) {
    c != '"'
  }

  predicate AllDigits(s: string) {
    forall k :: 0 <= k < |s| ==> IsDigit(s[k])
  }

  predicate AllSpaces(s: string) {
    forall k :: 0 <= k < |s| ==> IsSpace(s[k])
  }

  /** What a `([^"]+)` group can capture: a non-empty run without quotes. */
  predicate QuoteFree(s: string) {
    s != [] && forall k :: 0 <= k < |s| ==> s[k] != '"'
  }

  /** `str.lower()`, as an ASCII case fold. */
  function LowerChar(c: char): char {
    if 'A' <= c <= 'Z' then (c as int + 32) as char else c
  }

  function Lower(s: string): string {
    seq(|s|, i requires 0 <= i < |s| => LowerChar(s[i]))
  }

  predicate StartsWith(s: string, prefix: string) {
    |prefix| <= |s| && s[..|prefix|] == prefix
  }

  /** The length of the longest prefix of `t` whose characters all satisfy
      `p`: what a greedy `p*` consumes at the start of `t`. */
  function Run(t: string, p: char -> bool): (n: nat)
    ensures n <= |t|
    ensures forall k :: 0 <= k < n ==> p(t[k])
    ensures n < |t| ==> !p(t[n])
  {
    if t != [] && p(t[0]) then 1 + Run(t[1..], p) else 0
  }

  /** A run that fills `a` and is not continued by the first character of
      `b` ends exactly at the end of `a`. */
  lemma {:induction false} RunOver(a: string, b: string, p: char -> bool)
    requires forall k :: 0 <= k < |a| ==> p(a[k])
    requires b == [] || !p(b[0])
    ensures Run(a + b, p) == |a|
  {
    if a != [] {
      assert (a + b)[0] == a[0];
      assert (a + b)[1..] == a[1..] + b;
      RunOver(a[1..], b, p);
    } else {
      assert a + b == b;
    }
  }

  // ---------------------------------------------------------------------
  // Decimal numbers: `int()` of a digit string and `str()` of a number
  // ---------------------------------------------------------------------

  function DigitValue(c: char): nat
    requires IsDigit(c)
  {
    c as int - '0' as int
  }

  function DigitChar(d: nat): (c: char)
    requires d < 10
    ensures IsDigit(c) && DigitValue(c) == d
  {
    ('0' as int + d) as char
  }

  /** `int(ds)` for a string of ASCII digits (leading zeros allowed). */
  function DecimalValue(ds: string): nat
    requires AllDigits(ds)
  {
    if ds == [] then 0
    else DecimalValue(ds[..|ds| - 1]) * 10 + DigitValue(ds[|ds| - 1])
  }

  /** `str(n)`: the shortest decimal spelling of `n`. */
  function Decimal(n: nat): (ds: string)
    ensures ds != [] && AllDigits(ds)
  {
    if n < 10 then [DigitChar(n)] else Decimal(n / 10) + [DigitChar(n % 10)]
  }

  /** Reading back what `Decimal` writes gives the number again. */
  lemma {:induction false} DecimalRoundTrip(n: nat)
    ensures DecimalValue(Decimal(n)) == n
  {
    if n >= 10 {
      var ds := Decimal(n);
      assert ds[..|ds| - 1] == Decimal(n / 10);
      DecimalRoundTrip(n / 10);
    }
  }

  // ---------------------------------------------------------------------
  // `line.strip().startswith("--")`
  // ---------------------------------------------------------------------

  function TrimLeft(s: string): (r: string)
    ensures r == [] || !IsSpace(r[0])
    ensures |r| <= |s|
  {
    if s != [] && IsSpace(s[0]) then TrimLeft(s[1..]) else s
  }

  function TrimRight(s: string): (r: string)
    ensures r == [] || !IsSpace(r[|r| - 1])
    ensures |r| <= |s| && r == s[..|r|]
  {
    if s != [] && IsSpace(s[|s| - 1]) then TrimRight(s[..|s| - 1]) else s
  }

  /** `str.strip()` */
  function Strip(s: string): string {
    TrimRight(TrimLeft(s))
  }

  /** The test both `parse_gearswap` and `apply_fixes` use to skip a line. */
  predicate IsComment(line: string) {
    StartsWith(Strip(line), "--")
  }

  /** Stripping the right end never decides the test: a line is a comment
      exactly when its first two non-blank characters are `--`. */
  lemma CommentByLeftTrim(line: string)
    ensures IsComment(line) <==> StartsWith(TrimLeft(line), "--")
  {
    var t := TrimLeft(line);
    if StartsWith(t, "--") {
      TrimRightKeeps(t, 2);
    }
  }

  /** Trailing blanks are all TrimRight removes: a prefix ending in a
      non-blank character survives. */
  lemma {:induction false} TrimRightKeeps(s: string, n: nat)
    requires 0 < n <= |s| && !IsSpace(s[n - 1])
    ensures StartsWith(TrimRight(s), s[..n])
    decreases |s|
  {
    if IsSpace(s[|s| - 1]) {
      assert n < |s|;
      TrimRightKeeps(s[..|s| - 1], n);
      assert s[..|s| - 1][..n] == s[..n];
    }
  }

  /** Left-trimming a concatenation whose first part holds a non-blank
      character trims only the first part. */
  lemma {:induction false} TrimLeftConcat(a: string, b: string)
    ensures TrimLeft(a) != [] ==> TrimLeft(a + b) == TrimLeft(a) + b
    ensures TrimLeft(a) == [] ==> TrimLeft(a + b) == TrimLeft(b)
  {
    if a == [] {
      assert a + b == b;
    } else {
      assert (a + b)[0] == a[0];
      if IsSpace(a[0]) {
        assert (a + b)[1..] == a[1..] + b;
        TrimLeftConcat(a[1..], b);
      }
    }
  }

  /** Whether a line is a comment is settled by the time two non-blank
      characters have been seen: whatever follows them cannot change it. */
  lemma CommentSettledBy(x: string, p: string, r1: string, r2: string)
    requires |p| >= 2 && !IsSpace(p[0])
    ensures IsComment(x + p + r1) == IsComment(x + p + r2)
  {
    var t := TrimLeft(x + p);
    TrimLeftConcat(x, p);
    assert |t| >= 2;
    SameStartAfterTrim(x + p, r1, r2);
  }

  lemma SameStartAfterTrim(y: string, r1: string, r2: string)
    requires |TrimLeft(y)| >= 2
    ensures IsComment(y + r1) == IsComment(y + r2)
  {
    LeftTrimStartKept(y, r1);
    LeftTrimStartKept(y, r2);
    CommentByLeftTrim(y + r1);
    CommentByLeftTrim(y + r2);
  }

  lemma LeftTrimStartKept(y: string, r: string)
    requires |TrimLeft(y)| >= 2
    ensures StartsWith(TrimLeft(y + r), "--") == StartsWith(TrimLeft(y), "--")
  {
    var t := TrimLeft(y);
    TrimLeftConcat(y, r);
    var u := TrimLeft(y + r);
    assert u == t + r;
    assert u[0] == t[0] && u[1] == t[1];
    assert StartsWith(u, "--") <==> u[0] == '-' && u[1] == '-';
    assert StartsWith(t, "--") <==> t[0] == '-' && t[1] == '-';
  }
}
