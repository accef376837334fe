/** The split of a cleaned assignment description into the scope of work
    and the required tools, in `parseDetailsPage`
    (workmarket/assignments/index.js). */
module ToolsSplit {
  import opened Options
  import opened Text

  /** `/Required Tools:/i`. */
  const ToolsMarker := "Required Tools:"

  /** The heading removed from the description, matched exactly. */
  const ScopeMarker := "Scope of Work:"

  /** The value a field keeps when nothing was found for it. */
  const NotFound := "Not found"

  /** `toolsRegex.test(s)`: the heading occurs, in any ASCII case. */
  predicate HasTools(s: string) {
    Find(s, ToolsMarker, IgnoreAsciiCase).Some?
  }

  /** `(description, required_tools)`. With the heading present,
      `cleanText.split(toolsRegex)` cuts at every occurrence; part 0 is the
      text before the first one and part 1 the text between the first and
      the second (or the end). Without it, the tools stay "Not found". */
  function SplitTools(clean: string): (r: (string, string))
    ensures !HasTools(clean) ==> r == (Trim(RemoveFirst(clean, ScopeMarker)), NotFound)
    ensures IsTrimmed(r.0)
    ensures HasTools(clean) ==> IsTrimmed(r.1)
  {
    match Find(clean, ToolsMarker, IgnoreAsciiCase)
    case None => (Trim(RemoveFirst(clean, ScopeMarker)), NotFound)
    case Some(p) =>
      var q := FindFrom(clean, ToolsMarker, p + |ToolsMarker|, IgnoreAsciiCase).GetOr(|clean|);
      (Trim(RemoveFirst(clean[..p], ScopeMarker)), Trim(clean[p + |ToolsMarker|..q]))
  }

  /** An occurrence inside a slice is an occurrence in the whole text. */
  lemma OccursInSlice(s: string, a: nat, b: nat, pat: string, j: nat, mode: CaseMode)
    requires a <= b <= |s| && OccursAt(s[a..b], pat, j, mode)
    ensures OccursAt(s, pat, a + j, mode)
  {
    forall k | 0 <= k < |pat| ensures SameChar(s[a + j + k], pat[k], mode) {
      assert s[a..b][j + k] == s[a + j + k];
    }
  }

  /** An occurrence in the whole text that lies inside a slice is one in
      the slice. */
  lemma OccursInWhole(s: string, a: nat, b: nat, pat: string, j: nat, mode: CaseMode)
    requires a <= b <= |s| && a + j + |pat| <= b
    ensures OccursAt(s[a..b], pat, j, mode) <==> OccursAt(s, pat, a + j, mode)
  {
    assert forall i | j <= i < j + |pat| :: s[a..b][i] == s[a + i];
  }

  /** A slice holding no occurrence of the heading. */
  lemma NoToolsInSlice(s: string, a: nat, b: nat)
    requires a <= b <= |s|
    requires forall i | a <= i && i + |ToolsMarker| <= b :: !OccursAt(s, ToolsMarker, i, IgnoreAsciiCase)
    ensures !HasTools(s[a..b])
  {
    var r := Find(s[a..b], ToolsMarker, IgnoreAsciiCase);
    if r.Some? {
      OccursInSlice(s, a, b, ToolsMarker, r.value, IgnoreAsciiCase);
    }
  }

  /** With the heading present: `p` is its first occurrence and `q` the
      second one or the end; the description comes from the text before
      `p`, the tools from the text between the two, and neither holds the
      heading. */
  lemma SplitToolsAt(clean: string) returns (p: nat, q: nat)
    requires HasTools(clean)
    ensures p + |ToolsMarker| <= q <= |clean|
    ensures OccursAt(clean, ToolsMarker, p, IgnoreAsciiCase) && !HasTools(clean[..p])
    ensures q == |clean| || OccursAt(clean, ToolsMarker, q, IgnoreAsciiCase)
    ensures !HasTools(clean[p + |ToolsMarker|..q])
    ensures SplitTools(clean) == (Trim(RemoveFirst(clean[..p], ScopeMarker)), Trim(clean[p + |ToolsMarker|..q]))
  {
    p := Find(clean, ToolsMarker, IgnoreAsciiCase).value;
    var next := FindFrom(clean, ToolsMarker, p + |ToolsMarker|, IgnoreAsciiCase);
    q := next.GetOr(|clean|);
    assert next.Some? ==> next.value + |ToolsMarker| <= |clean|;
    NoToolsInSlice(clean, 0, p);
    assert clean[0..p] == clean[..p];
    NoToolsInSlice(clean, p + |ToolsMarker|, q);
  }

  /** No occurrence of the heading starts inside heading-free text followed
      by the heading: one would either lie within that text or straddle its
      end, and the heading's first letter comes back (as 'r') only at index
      5, where the next letters differ. */
  lemma NoToolsBefore(pre: string, rest: string, i: nat)
    requires !HasTools(pre) && i < |pre|
    ensures !OccursAt(pre + ToolsMarker + rest, ToolsMarker, i, IgnoreAsciiCase)
  {
    var s := pre + ToolsMarker + rest;
    if i + |ToolsMarker| <= |pre| {
      if OccursAt(s, ToolsMarker, i, IgnoreAsciiCase) {
        assert s[..|pre|] == pre;
        OccursInWhole(s, 0, |pre|, ToolsMarker, i, IgnoreAsciiCase);
        assert false;
      }
    } else {
      var k := |pre| - i;
      if k == 5 {
        assert s[i + 7] == 'q' && ToolsMarker[7] == 'd';
        assert !SameChar(s[i + 7], ToolsMarker[7], IgnoreAsciiCase);
      } else {
        assert s[i + k] == 'R';
        assert !SameChar(s[i + k], ToolsMarker[k], IgnoreAsciiCase);
      }
    }
  }

  /** In heading-free text, the heading and more text, the first
      occurrence is the one written. */
  lemma FirstToolsAt(pre: string, tools: string)
    requires !HasTools(pre)
    ensures Find(pre + ToolsMarker + tools, ToolsMarker, IgnoreAsciiCase) == Some(|pre|)
  {
    var s := pre + ToolsMarker + tools;
    var p := |pre|;
    forall i | 0 <= i < p ensures !OccursAt(s, ToolsMarker, i, IgnoreAsciiCase) {
      NoToolsBefore(pre, tools, i);
    }
    MarkerAt(pre, tools);
    FindIsFirst(s, ToolsMarker, IgnoreAsciiCase, p);
  }

  /** The heading occurs where it is written. */
  lemma MarkerAt(pre: string, tools: string)
    ensures OccursAt(pre + ToolsMarker + tools, ToolsMarker, |pre|, IgnoreAsciiCase)
  {
    var s := pre + ToolsMarker + tools;
    forall k | 0 <= k < |ToolsMarker| ensures SameChar(s[|pre| + k], ToolsMarker[k], IgnoreAsciiCase) {
      assert s[|pre| + k] == ToolsMarker[k];
    }
  }

  /** An occurrence with none before it is what `Find` gives. */
  lemma FindIsFirst(s: string, pat: string, mode: CaseMode, p: nat)
    requires OccursAt(s, pat, p, mode)
    requires forall i | 0 <= i < p :: !OccursAt(s, pat, i, mode)
    ensures Find(s, pat, mode) == Some(p)
  {
  }

  /** Heading-free text after the heading holds no second occurrence. */
  lemma NoSecondTools(s: string, e: nat, tools: string)
    requires e <= |s| && s[e..] == tools && !HasTools(tools)
    ensures FindFrom(s, ToolsMarker, e, IgnoreAsciiCase).None?
  {
    assert s[e..|s|] == tools;
    forall j | e <= j ensures !OccursAt(s, ToolsMarker, j, IgnoreAsciiCase) {
      if j + |ToolsMarker| <= |s| {
        OccursInWhole(s, e, |s|, ToolsMarker, j - e, IgnoreAsciiCase);
      }
    }
  }

  /** A description written as heading-free text, the heading and
      heading-free text splits back into the two texts, trimmed, with the
      scope heading removed from the first. */
  lemma SplitToolsRoundTrip(pre: string, tools: string)
    requires !HasTools(pre) && !HasTools(tools)
    ensures SplitTools(pre + ToolsMarker + tools) == (Trim(RemoveFirst(pre, ScopeMarker)), Trim(tools))
  {
    var s := pre + ToolsMarker + tools;
    FirstToolsAt(pre, tools);
    assert s[|pre| + |ToolsMarker|..] == tools;
    NoSecondTools(s, |pre| + |ToolsMarker|, tools);
    assert s[..|pre|] == pre;
    assert s[|pre| + |ToolsMarker|..|s|] == tools;
  }
}
