/** The last step of `cleanHtml` (workmarket/assignments/index.js):
    `content.replace(/\n\s*\n/g, '\n').trim()`, which turns every run of
    blank lines into a single line break and trims the ends. */
module BlankLines {
  import opened Options
  import opened Text

  /** The last line break in `s[lo..hi]`. */
  function LastNewline(s: string, lo: nat, hi: nat): (r: Option<nat>)
    requires lo <= hi <= |s|
    ensures r.Some? ==> lo <= r.value < hi && s[r.value] == '\n'
    ensures r.Some? ==> forall k | r.value < k < hi :: s[k] != '\n'
    ensures r.None? ==> forall k | lo <= k < hi :: s[k] != '\n'
    decreases hi - lo
  {
    if lo == hi then None
    else if s[hi - 1] == '\n' then Some(hi - 1)
    else LastNewline(s, lo, hi - 1)
  }

  /** `s[i..]` with `/\n\s*\n/g` replaced by a single line break. A match
      starts at a line break; the greedy `\s*` takes the whole run of white
      space after it and gives back characters until a line break follows,
      so the match ends at the last line break of that run. The scan goes on
      right after the match. */
  function Collapse(s: string, i: nat): string
    decreases |s| - i
  {
    if i >= |s| then []
    else if s[i] == '\n' then
      match LastNewline(s, i + 1, SpaceRunEnd(s, i + 1))
      case Some(k) => "\n" + Collapse(s, k + 1)
      case None => [s[i]] + Collapse(s, i + 1)
    else [s[i]] + Collapse(s, i + 1)
  }

  /** Some character strictly between indices `a` and `b` of `r` is not
      white space. */
  ghost predicate TextBetween(r: string, a: int, b: int) {
    exists c | a < c < b && 0 <= c < |r| :: !IsSpace(r[c])
  }

  /** No two line breaks are separated by white space only. */
  ghost predicate NoBlankLine(r: string) {
    forall a, b | 0 <= a < b < |r| && r[a] == '\n' && r[b] == '\n' :: TextBetween(r, a, b)
  }

  /** Every line break in `r` comes after some character that is not white
      space. */
  ghost predicate TextBeforeEachNewline(r: string) {
    forall b | 0 <= b < |r| && r[b] == '\n' :: TextBetween(r, -1, b)
  }

  /** The characters of `s` that are not white space, in order. */
  function NonSpaces(s: string): (r: string)
    ensures |r| <= |s|
    ensures forall k | 0 <= k < |r| :: !IsSpace(r[k])
    decreases |s|
  {
    if |s| == 0 then []
    else (if IsSpace(s[0]) then [] else [s[0]]) + NonSpaces(s[1..])
  }

  /** `cleanHtml`'s result for the text content `content`. */
  function CleanText(content: string): string {
    Trim(Collapse(content, 0))
  }

  // ---------------------------------------------------------------------
  // Structure of the replacement
  // ---------------------------------------------------------------------

  /** Text without line breaks is copied as it is. */
  lemma {:induction false} CopyRun(s: string, j: nat, e: nat)
    requires j <= e <= |s|
    requires forall k | j <= k < e :: s[k] != '\n'
    ensures Collapse(s, j) == s[j..e] + Collapse(s, e)
    decreases e - j
  {
    if j < e {
      CopyRun(s, j + 1, e);
      calc {
        Collapse(s, j);
        { CollapseOther(s, j); }
        [s[j]] + Collapse(s, j + 1);
        [s[j]] + (s[j + 1..e] + Collapse(s, e));
        { assert s[j..e] == [s[j]] + s[j + 1..e]; }
        s[j..e] + Collapse(s, e);
      }
    }
  }

  /** A character other than a line break is copied. */
  lemma CollapseOther(s: string, j: nat)
    requires j < |s| && s[j] != '\n'
    ensures Collapse(s, j) == [s[j]] + Collapse(s, j + 1)
  {
  }

  /** After a run of white space, the replacement starts with the character
      that ends the run, which is not white space. */
  lemma StartsAfterRun(s: string, e: nat)
    requires e <= |s| && (e == |s| || !IsSpace(s[e]))
    ensures e == |s| ==> Collapse(s, e) == []
    ensures e < |s| ==> |Collapse(s, e)| > 0 && Collapse(s, e)[0] == s[e]
  {
  }

  /** Both cases of a line break are followed by text whose first line
      break has something that is not white space before it: the rest of
      the white space run holds no line break and is followed by a
      character that is not white space. */
  lemma AfterBreak(s: string, j: nat)
    requires j <= |s|
    requires forall k | j <= k < SpaceRunEnd(s, j) :: s[k] != '\n'
    ensures TextBeforeEachNewline(Collapse(s, j))
  {
    var e := SpaceRunEnd(s, j);
    CopyRun(s, j, e);
    StartsAfterRun(s, e);
    var r := Collapse(s, j);
    forall b | 0 <= b < |r| && r[b] == '\n' ensures TextBetween(r, -1, b) {
      assert b != e - j by {
        assert r[e - j] == s[e];
      }
      assert 0 <= e - j < b && !IsSpace(r[e - j]);
    }
  }

  /** The replacement leaves no blank line behind. */
  lemma {:induction false} CollapseNoBlankLine(s: string, i: nat)
    ensures NoBlankLine(Collapse(s, i))
    decreases |s| - i
  {
    if i < |s| {
      if s[i] == '\n' {
        var e := SpaceRunEnd(s, i + 1);
        match LastNewline(s, i + 1, e)
        case Some(k) =>
          CollapseNoBlankLine(s, k + 1);
          SpaceRunEndFrom(s, i + 1, k + 1);
          AfterBreak(s, k + 1);
          PrependBreak(Collapse(s, k + 1));
        case None =>
          CollapseNoBlankLine(s, i + 1);
          AfterBreak(s, i + 1);
          PrependBreak(Collapse(s, i + 1));
      } else {
        CollapseNoBlankLine(s, i + 1);
        PrependOther(s[i], Collapse(s, i + 1));
      }
    }
  }

  /** A white space run seen from a later start inside it ends where it
      did. */
  lemma SpaceRunEndFrom(s: string, i: nat, j: nat)
    requires i <= |s| && i <= j <= SpaceRunEnd(s, i)
    ensures SpaceRunEnd(s, j) == SpaceRunEnd(s, i)
  {
    SpaceRunEndUnique(s, j, SpaceRunEnd(s, i));
  }

  /** Text between two indices stays text between them once a character
      is put in front. */
  lemma ShiftTextBetween(x: char, t: string, a: int, b: int)
    requires TextBetween(t, a, b)
    ensures TextBetween([x] + t, a + 1, b + 1)
  {
    var c :| a < c < b && 0 <= c < |t| && !IsSpace(t[c]);
    assert ([x] + t)[c + 1] == t[c];
  }

  /** A line break put in front of text without blank lines, whose every
      line break has text before it, makes no blank line. */
  lemma PrependBreak(t: string)
    requires NoBlankLine(t) && TextBeforeEachNewline(t)
    ensures NoBlankLine("\n" + t)
  {
    var r := "\n" + t;
    forall a, b | 0 <= a < b < |r| && r[a] == '\n' && r[b] == '\n'
      ensures TextBetween(r, a, b)
    {
      assert r[b] == t[b - 1];
      if a == 0 {
        ShiftTextBetween('\n', t, -1, b - 1);
      } else {
        assert r[a] == t[a - 1];
        ShiftTextBetween('\n', t, a - 1, b - 1);
      }
    }
  }

  /** Any other character put in front of text without blank lines makes
      none. */
  lemma PrependOther(x: char, t: string)
    requires NoBlankLine(t) && x != '\n'
    ensures NoBlankLine([x] + t)
  {
    var r := [x] + t;
    forall a, b | 0 <= a < b < |r| && r[a] == '\n' && r[b] == '\n'
      ensures TextBetween(r, a, b)
    {
      assert r[a] == t[a - 1] && r[b] == t[b - 1];
      ShiftTextBetween(x, t, a - 1, b - 1);
    }
  }

  // ---------------------------------------------------------------------
  // Only white space is removed
  // ---------------------------------------------------------------------

  /** White space contributes nothing. */
  lemma {:induction false} SkipSpaces(s: string, i: nat, j: nat)
    requires i <= j <= |s|
    requires forall k | i <= k < j :: IsSpace(s[k])
    ensures NonSpaces(s[i..]) == NonSpaces(s[j..])
    decreases j - i
  {
    if i < j {
      assert s[i..][1..] == s[i + 1..];
      SkipSpaces(s, i + 1, j);
    }
  }

  /** The replacement removes white space only: the other characters are
      kept, all of them and in order. */
  lemma {:induction false} CollapseKeepsText(s: string, i: nat)
    requires i <= |s|
    ensures NonSpaces(Collapse(s, i)) == NonSpaces(s[i..])
    decreases |s| - i
  {
    if i < |s| {
      var r := Collapse(s, i);
      assert s[i..][1..] == s[i + 1..];
      if s[i] == '\n' {
        match LastNewline(s, i + 1, SpaceRunEnd(s, i + 1))
        case Some(k) =>
          CollapseKeepsText(s, k + 1);
          assert r[1..] == Collapse(s, k + 1);
          SkipSpaces(s, i + 1, k + 1);
        case None =>
          CollapseKeepsText(s, i + 1);
          assert r[1..] == Collapse(s, i + 1);
      } else {
        CollapseKeepsText(s, i + 1);
        assert r[1..] == Collapse(s, i + 1);
      }
    }
  }

  // ---------------------------------------------------------------------
  // Fixed points
  // ---------------------------------------------------------------------

  /** Text without blank lines has nothing to replace. */
  lemma {:induction false} CollapseOfClean(s: string, i: nat)
    requires NoBlankLine(s) && i <= |s|
    ensures Collapse(s, i) == s[i..]
    decreases |s| - i
  {
    if i < |s| {
      if s[i] == '\n' {
        NoBreakInRun(s, i);
      }
      CollapseOfClean(s, i + 1);
      assert s[i..] == [s[i]] + s[i + 1..];
    }
  }

  /** In text without blank lines, the white space after a line break holds
      no other line break. */
  lemma NoBreakInRun(s: string, i: nat)
    requires NoBlankLine(s) && i < |s| && s[i] == '\n'
    ensures LastNewline(s, i + 1, SpaceRunEnd(s, i + 1)).None?
  {
    var e := SpaceRunEnd(s, i + 1);
    forall k | i + 1 <= k < e ensures !TextBetween(s, i, k) {
    }
  }

  /** The replacement leaves a text unchanged exactly when it has no blank
      line. */
  lemma CollapseFixedIff(s: string)
    ensures Collapse(s, 0) == s <==> NoBlankLine(s)
  {
    if NoBlankLine(s) {
      CollapseOfClean(s, 0);
    } else {
      CollapseNoBlankLine(s, 0);
    }
  }

  /** A slice of a text without blank lines has none. */
  lemma SliceNoBlankLine(s: string, a: nat, b: nat)
    requires NoBlankLine(s) && a <= b <= |s|
    ensures NoBlankLine(s[a..b])
  {
    var r := s[a..b];
    forall x, y | 0 <= x < y < |r| && r[x] == '\n' && r[y] == '\n'
      ensures TextBetween(r, x, y)
    {
      assert r[x] == s[a + x] && r[y] == s[a + y];
      var c :| a + x < c < a + y && 0 <= c < |s| && !IsSpace(s[c]);
      assert r[c - a] == s[c];
    }
  }

  /** Trimming a trimmed text changes nothing. */
  lemma TrimOfTrimmed(s: string)
    requires IsTrimmed(s)
    ensures Trim(s) == s
  {
    if |s| > 0 {
      assert LeadingSpaces(s) == 0;
      assert TrailingSpaces(s) == 0;
    }
  }

  /** The cleaned text is trimmed, has no blank line, keeps every character
      that is not white space, and cleaning it again changes nothing. */
  lemma CleanTextSpec(content: string)
    ensures IsTrimmed(CleanText(content))
    ensures NoBlankLine(CleanText(content))
    ensures NonSpaces(CleanText(content)) == NonSpaces(content)
    ensures CleanText(CleanText(content)) == CleanText(content)
  {
    var c := Collapse(content, 0);
    var r := Trim(c);
    CollapseNoBlankLine(content, 0);
    var a, b :| 0 <= a <= b <= |c| && r == c[a..b] && AllSpace(c[..a]) && AllSpace(c[b..]);
    SliceNoBlankLine(c, a, b);
    CollapseKeepsText(content, 0);
    assert content[0..] == content;
    TrimKeepsText(c, a, b);
    CollapseOfClean(r, 0);
    assert r[0..] == r;
    TrimOfTrimmed(r);
  }

  /** Trimming removes white space only. */
  lemma TrimKeepsText(c: string, a: nat, b: nat)
    requires a <= b <= |c| && AllSpace(c[..a]) && AllSpace(c[b..])
    ensures NonSpaces(c[a..b]) == NonSpaces(c)
  {
    DropLeadingSpace(c, a);
    DropTrailingSpace(c, a, b);
  }

  /** Leading white space contributes nothing. */
  lemma DropLeadingSpace(c: string, a: nat)
    requires a <= |c| && AllSpace(c[..a])
    ensures NonSpaces(c[a..]) == NonSpaces(c)
  {
    NonSpacesSplit(c, a);
    NonSpacesOfSpace(c[..a]);
  }

  /** Trailing white space contributes nothing. */
  lemma DropTrailingSpace(c: string, a: nat, b: nat)
    requires a <= b <= |c| && AllSpace(c[b..])
    ensures NonSpaces(c[a..b]) == NonSpaces(c[a..])
  {
    var d := c[a..];
    NonSpacesSplit(d, b - a);
    assert d[..b - a] == c[a..b];
    assert d[b - a..] == c[b..];
    NonSpacesOfSpace(c[b..]);
  }

  /** White space alone has no other characters. */
  lemma {:induction false} NonSpacesOfSpace(s: string)
    requires AllSpace(s)
    ensures NonSpaces(s) == []
    decreases |s|
  {
    if |s| > 0 {
      assert forall k | 0 <= k < |s| - 1 :: s[1..][k] == s[k + 1];
      NonSpacesOfSpace(s[1..]);
    }
  }

  /** `NonSpaces` of a text is that of its two halves. */
  lemma {:induction false} NonSpacesSplit(s: string, n: nat)
    requires n <= |s|
    ensures NonSpaces(s) == NonSpaces(s[..n]) + NonSpaces(s[n..])
    decreases n
  {
    if n > 0 {
      NonSpacesSplit(s[1..], n - 1);
      assert s[1..][..n - 1] == s[..n][1..];
      assert s[1..][n - 1..] == s[n..];
    }
  }
}
