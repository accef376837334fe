/** Character classes and string operations of JavaScript that the two
    userscripts rely on. A Dafny `string` stands for a JavaScript string,
    one `char` per code point; no modelled pattern matches a surrogate, so
    the difference from JavaScript's code units does not show. */
module Text {
  import opened Options

  /** `\d` in a JavaScript regular expression: the ASCII digits only. */
  predicate IsDigit(c: char) {
    '0' <= c <= '9'
  }

  /** `\s` in a JavaScript regular expression, which is also the set of
      characters `String.prototype.trim` strips: WhiteSpace (tab, vertical
      tab, form feed, space, no-break space, byte order mark and the other
      space separators) and LineTerminator (LF, CR, U+2028, U+2029). */
  predicate IsSpace(c: char) {
    var n := c as int;
    n == 0x09 || n == 0x0A || n == 0x0B || n == 0x0C || n == 0x0D || n == 0x20
    || n == 0xA0 || n == 0x1680 || (0x2000 <= n <= 0x200A) || n == 0x2028
    || n == 0x2029 || n == 0x202F || n == 0x205F || n == 0x3000 || n == 0xFEFF
  }

  predicate AllDigits(s: string) {
    forall i | 0 <= i < |s| :: IsDigit(s[i])
  }

  predicate NoDigits(s: string) {
    forall i | 0 <= i < |s| :: !IsDigit(s[i])
  }

  predicate AllSpace(s: string) {
    forall i | 0 <= i < |s| :: IsSpace(s[i])
  }

  /** The first index at or after `i` that does not hold a digit. */
  function DigitRunEnd(s: string, i: nat): (e: nat)
    requires i <= |s|
    ensures i <= e <= |s|
    ensures forall k | i <= k < e :: IsDigit(s[k])
    ensures e == |s| || !IsDigit(s[e])
    decreases |s| - i
  {
    if i < |s| && IsDigit(s[i]) then DigitRunEnd(s, i + 1) else i
  }

  /** The first index at or after `i` that does not hold a `\s` character. */
  function SpaceRunEnd(s: string, i: nat): (e: nat)
    requires i <= |s|
    ensures i <= e <= |s|
    ensures forall k | i <= k < e :: IsSpace(s[k])
    ensures e == |s| || !IsSpace(s[e])
    decreases |s| - i
  {
    if i < |s| && IsSpace(s[i]) then SpaceRunEnd(s, i + 1) else i
  }

  /** Whatever index bounds a run of digits from `p` and is followed by a
      non-digit is the index `DigitRunEnd` finds. */
  lemma DigitRunEndUnique(s: string, p: nat, q: nat)
    requires p <= q <= |s|
    requires forall k | p <= k < q :: IsDigit(s[k])
    requires q == |s| || !IsDigit(s[q])
    ensures DigitRunEnd(s, p) == q
  {
  }

  /** The same for runs of white space. */
  lemma SpaceRunEndUnique(s: string, p: nat, q: nat)
    requires p <= q <= |s|
    requires forall k | p <= k < q :: IsSpace(s[k])
    requires q == |s| || !IsSpace(s[q])
    ensures SpaceRunEnd(s, p) == q
  {
  }

  // ---------------------------------------------------------------------
  // Substring search: String.prototype.includes / indexOf, and a pattern
  // literal matched with the `i` flag.
  // ---------------------------------------------------------------------

  /** How two characters are compared: exactly, or as a regular expression
      with the `i` flag compares an ASCII pattern (ASCII letters fold to
      one case; no other character folds onto an ASCII letter). */
  datatype CaseMode = Exact | IgnoreAsciiCase

  function LowerAscii(c: char): char {
    if 'A' <= c <= 'Z' then (c as int + 32) as char else c
  }

  predicate SameChar(a: char, b: char, mode: CaseMode) {
    match mode
    case Exact => a == b
    case IgnoreAsciiCase => LowerAscii(a) == LowerAscii(b)
  }

  /** `pat` occurs in `s` starting at index `i`. */
  predicate OccursAt(s: string, pat: string, i: nat, mode: CaseMode) {
    i + |pat| <= |s| && forall k | 0 <= k < |pat| :: SameChar(s[i + k], pat[k], mode)
  }

  /** The leftmost occurrence of `pat` in `s` at or after index `i`. */
  function FindFrom(s: string, pat: string, i: nat, mode: CaseMode): (r: Option<nat>)
    ensures r.Some? ==> i <= r.value && OccursAt(s, pat, r.value, mode)
    ensures r.Some? ==> forall j | i <= j < r.value :: !OccursAt(s, pat, j, mode)
    ensures r.None? ==> forall j | i <= j :: !OccursAt(s, pat, j, mode)
    decreases |s| - i
  {
    if |s| < i + |pat| then None
    else if OccursAt(s, pat, i, mode) then Some(i)
    else FindFrom(s, pat, i + 1, mode)
  }

  function Find(s: string, pat: string, mode: CaseMode): Option<nat> {
    FindFrom(s, pat, 0, mode)
  }

  /** `s.includes(pat)`. */
  predicate Includes(s: string, pat: string) {
    Find(s, pat, Exact).Some?
  }

  /** An exact occurrence is a slice equal to the pattern. */
  lemma OccursExactlyIff(s: string, pat: string, i: nat)
    ensures OccursAt(s, pat, i, Exact) <==> i + |pat| <= |s| && s[i..i + |pat|] == pat
  {
    if i + |pat| <= |s| && s[i..i + |pat|] == pat {
      forall k | 0 <= k < |pat|
        ensures s[i + k] == pat[k]
      {
        assert s[i..i + |pat|][k] == s[i + k];
      }
    }
  }

  /** `s.replace(pat, '')` with a string pattern: only the first exact
      occurrence is removed. */
  function RemoveFirst(s: string, pat: string): (r: string)
    ensures Find(s, pat, Exact).None? ==> r == s
    ensures |r| == |s| || |r| + |pat| == |s|
  {
    match Find(s, pat, Exact)
    case None => s
    case Some(i) => s[..i] + s[i + |pat|..]
  }

  // ---------------------------------------------------------------------
  // String.prototype.trim
  // ---------------------------------------------------------------------

  function LeadingSpaces(s: string): (n: nat)
    ensures n <= |s|
    ensures forall k | 0 <= k < n :: IsSpace(s[k])
    ensures n == |s| || !IsSpace(s[n])
    decreases |s|
  {
    if |s| > 0 && IsSpace(s[0]) then 1 + LeadingSpaces(s[1..]) else 0
  }

  function TrailingSpaces(s: string): (n: nat)
    ensures n <= |s|
    ensures forall k | |s| - n <= k < |s| :: IsSpace(s[k])
    ensures n == |s| || !IsSpace(s[|s| - n - 1])
    decreases |s|
  {
    if |s| > 0 && IsSpace(s[|s| - 1]) then 1 + TrailingSpaces(s[..|s| - 1]) else 0
  }

  /** Neither end of a trimmed string is white space. */
  predicate IsTrimmed(s: string) {
    |s| == 0 || (!IsSpace(s[0]) && !IsSpace(s[|s| - 1]))
  }

  /** `s.trim()`: the result is a slice of `s` that is trimmed and is
      surrounded in `s` only by white space. */
  function Trim(s: string): (r: string)
    ensures IsTrimmed(r)
    ensures exists a, b :: 0 <= a <= b <= |s| && r == s[a..b]
                           && AllSpace(s[..a]) && AllSpace(s[b..])
  {
    var a := LeadingSpaces(s);
    var t := s[a..];
    var b := a + (|t| - TrailingSpaces(t));
    TrimCut(s, a, t);
    s[a..b]
  }

  /** The cuts `Trim` makes leave white space outside and a trimmed slice
      inside. */
  lemma TrimCut(s: string, a: nat, t: string)
    requires a == LeadingSpaces(s) && t == s[a..]
    ensures var b := a + (|t| - TrailingSpaces(t));
            && a <= b <= |s| && IsTrimmed(s[a..b])
            && AllSpace(s[..a]) && AllSpace(s[b..])
  {
    var n := |t| - TrailingSpaces(t);
    var b := a + n;
    assert t[..n] == s[a..b];
    assert a < b ==> s[a..b][0] == s[a];
    assert t[n..] == s[b..];
    TailCut(t);
  }

  /** What `TrailingSpaces` cuts off is white space. */
  lemma TailCut(t: string)
    ensures AllSpace(t[|t| - TrailingSpaces(t)..])
  {
    var n := |t| - TrailingSpaces(t);
    forall k | 0 <= k < |t| - n
      ensures IsSpace(t[n..][k])
    {
      assert t[n..][k] == t[n + k];
    }
  }

  // ---------------------------------------------------------------------
  // Number to decimal text (String(n) for an integer-valued number, and
  // `${n}` in a template literal)
  // ---------------------------------------------------------------------

  function DigitChar(d: nat): char
    requires d < 10
  {
    ('0' as int + d) as char
  }

  /** Decimal digits of `n`, without leading zeros. */
  function NatToDecimal(n: nat): (r: string)
    ensures |r| > 0 && AllDigits(r)
    ensures |r| > 1 ==> r[0] != '0'
    decreases n
  {
    if n < 10 then [DigitChar(n)] else NatToDecimal(n / 10) + [DigitChar(n % 10)]
  }

  function IntToDecimal(n: int): string {
    if n < 0 then "-" + NatToDecimal(-n) else NatToDecimal(n)
  }

  /** The number a string of decimal digits denotes. */
  function DecimalValue(s: string): nat
    requires AllDigits(s)
    decreases |s|
  {
    if |s| == 0 then 0 else DecimalValue(s[..|s| - 1]) * 10 + (s[|s| - 1] as int - '0' as int)
  }

  /** Reading back the decimal text of a number gives the number. */
  lemma {:induction false} DecimalRoundTrip(n: nat)
    ensures DecimalValue(NatToDecimal(n)) == n
    decreases n
  {
    if n >= 10 {
      var s := NatToDecimal(n);
      assert s[..|s| - 1] == NatToDecimal(n / 10);
      DecimalRoundTrip(n / 10);
    }
  }
}
