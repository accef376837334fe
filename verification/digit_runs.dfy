/** The two digit-run extractions the enricher applies to a link:
    `getNumericId` and the `/(\d{6,})/g` work-number candidate
    (workmarket/worker/browse/index.js). */
module DigitRuns {
  import opened Options
  import opened Text

  /** `s[p..q]` is a maximal run of digits: it cannot be extended on
      either side. */
  predicate IsDigitRun(s: string, p: nat, q: nat) {
    && p < q <= |s|
    && (forall k | p <= k < q :: IsDigit(s[k]))
    && (p == 0 || !IsDigit(s[p - 1]))
    && (q == |s| || !IsDigit(s[q]))
  }

  /** `s[p..q]` is the last run of digits in `s`: a maximal run followed
      only by non-digits. */
  predicate IsLastDigitRun(s: string, p: nat, q: nat) {
    IsDigitRun(s, p, q) && forall k | q <= k < |s| :: !IsDigit(s[k])
  }

  /** Every maximal digit run that starts before index `n` is shorter than
      six digits. */
  ghost predicate ShortRunsBefore(s: string, n: nat) {
    forall p: nat, q: nat | p < n && IsDigitRun(s, p, q) :: q - p < 6
  }

  /** The run of digits starting at `i` ends where the run starting at
      `i + 1` ends. */
  lemma DigitRunEndStep(s: string, i: nat)
    requires i < |s| && IsDigit(s[i])
    ensures DigitRunEnd(s, i) == DigitRunEnd(s, i + 1)
  {
  }

  // ---------------------------------------------------------------------
  // getNumericId: /(\d+)(?:\/?#?[^\d]*)?$/
  // ---------------------------------------------------------------------

  /** The regular expression `(\d+)(?:\/?#?[^\d]*)?$` succeeds when tried at
      index `p`: `\d+` takes the run of digits from `p`, and the optional
      group then has to reach the end of the string over non-digits only
      (`/` and `#` are non-digits too, so the group is `[^\d]*`). Shortening
      the greedy `\d+` never helps, as a digit would then follow it. */
  predicate NumericIdMatchesAt(s: string, p: nat) {
    && p < |s|
    && IsDigit(s[p])
    && forall k | DigitRunEnd(s, p) <= k < |s| :: !IsDigit(s[k])
  }

  /** The leftmost index at or after `p` where the regular expression
      succeeds, as `String.prototype.match` searches for it. */
  function NumericIdStart(s: string, p: nat): (r: Option<nat>)
    ensures r.Some? ==> p <= r.value && NumericIdMatchesAt(s, r.value)
    ensures r.Some? ==> forall j | p <= j < r.value :: !NumericIdMatchesAt(s, j)
    ensures r.None? ==> forall j | p <= j :: !NumericIdMatchesAt(s, j)
    decreases |s| - p
  {
    if p >= |s| then None
    else if NumericIdMatchesAt(s, p) then Some(p)
    else NumericIdStart(s, p + 1)
  }

  /** `getNumericId(url)`: null for an empty url, otherwise capture group 1
      of the match, or null when there is no match. */
  function GetNumericId(url: string): Option<string> {
    if url == "" then None
    else
      match NumericIdStart(url, 0)
      case None => None
      case Some(p) => Some(url[p..DigitRunEnd(url, p)])
  }

  /** `getNumericId` yields the last maximal run of digits of the url, and
      null exactly when the url holds no digit at all. */
  lemma {:induction false} GetNumericIdSpec(url: string)
    ensures GetNumericId(url).None? <==> (forall k | 0 <= k < |url| :: !IsDigit(url[k]))
    ensures GetNumericId(url).Some? ==>
              exists p: nat, q: nat :: IsLastDigitRun(url, p, q) && GetNumericId(url).value == url[p..q]
  {
    var r := NumericIdStart(url, 0);
    if exists k | 0 <= k < |url| :: IsDigit(url[k]) {
      var k :| 0 <= k < |url| && IsDigit(url[k]);
      MatchAtOrAfter(url, k);
    }
    if r.Some? {
      var p := r.value;
      var q := DigitRunEnd(url, p);
      if p > 0 {
        MatchExtendsBack(url, p);
      }
      assert IsLastDigitRun(url, p, q);
    }
  }

  /** A match right after a digit would also succeed one index earlier. */
  lemma MatchExtendsBack(s: string, p: nat)
    requires 0 < p && NumericIdMatchesAt(s, p)
    ensures IsDigit(s[p - 1]) ==> NumericIdMatchesAt(s, p - 1)
  {
    if IsDigit(s[p - 1]) {
      DigitRunEndStep(s, p - 1);
    }
  }

  /** From any digit on, the regular expression succeeds somewhere: at the
      start of the last run of digits. */
  lemma {:induction false} MatchAtOrAfter(s: string, k: nat)
    requires k < |s| && IsDigit(s[k])
    ensures exists j | k <= j < |s| :: NumericIdMatchesAt(s, j)
    decreases |s| - k
  {
    var e := DigitRunEnd(s, k);
    if exists k2 | e <= k2 < |s| :: IsDigit(s[k2]) {
      var k2 :| e <= k2 < |s| && IsDigit(s[k2]);
      MatchAtOrAfter(s, k2);
    } else {
      assert NumericIdMatchesAt(s, k);
    }
  }

  /** The last run of digits is the only thing `getNumericId` can return:
      whenever `url[p..q]` is that run, the result is exactly it. */
  lemma GetNumericIdIsLastRun(url: string, p: nat, q: nat)
    requires IsLastDigitRun(url, p, q)
    ensures GetNumericId(url) == Some(url[p..q])
  {
    DigitRunEndUnique(url, p, q);
    assert NumericIdMatchesAt(url, p);
    forall j | 0 <= j < p ensures !NumericIdMatchesAt(url, j) {
      if IsDigit(url[j]) {
        var e := DigitRunEnd(url, j);
        assert e <= p && IsDigit(url[p]);
      }
    }
  }

  // ---------------------------------------------------------------------
  // The work-number candidate: (s.match(/(\d{6,})/g) || [])[0]
  // ---------------------------------------------------------------------

  /** `\d{6,}` can start at index `p`: six digits follow. */
  predicate LongRunAt(s: string, p: nat) {
    p + 6 <= |s| && forall k | p <= k < p + 6 :: IsDigit(s[k])
  }

  /** The leftmost index at or after `p` where `\d{6,}` matches. */
  function LongRunStart(s: string, p: nat): (r: Option<nat>)
    ensures r.Some? ==> p <= r.value && LongRunAt(s, r.value)
    ensures r.Some? ==> forall j | p <= j < r.value :: !LongRunAt(s, j)
    ensures r.None? ==> forall j | p <= j :: !LongRunAt(s, j)
    decreases |s| - p
  {
    if p + 6 > |s| then None
    else if LongRunAt(s, p) then Some(p)
    else LongRunStart(s, p + 1)
  }

  /** The first match of `/(\d{6,})/g` in `s`, greedy: the digits from the
      leftmost start to the end of their run. */
  function FirstLongRun(s: string): Option<string> {
    match LongRunStart(s, 0)
    case None => None
    case Some(p) => Some(s[p..DigitRunEnd(s, p)])
  }

  /** The first match is the first maximal run of six or more digits: every
      run before it is shorter, and there is no match exactly when every
      run in `s` is shorter than six digits. */
  lemma FirstLongRunSpec(s: string)
    ensures FirstLongRun(s).None? <==> ShortRunsBefore(s, |s|)
    ensures FirstLongRun(s).Some? ==>
              exists p: nat, q: nat :: IsDigitRun(s, p, q) && q - p >= 6 && ShortRunsBefore(s, p)
                             && FirstLongRun(s).value == s[p..q]
  {
    var r := LongRunStart(s, 0);
    if r.None? {
      forall p: nat, q: nat | p < |s| && IsDigitRun(s, p, q) ensures q - p < 6 {
        assert !LongRunAt(s, p);
      }
    } else {
      var p := r.value;
      var q := DigitRunEnd(s, p);
      if p > 0 {
        assert !LongRunAt(s, p - 1);
      }
      assert q >= p + 6;
      forall p': nat, q': nat | p' < p && IsDigitRun(s, p', q') ensures q' - p' < 6 {
        assert !LongRunAt(s, p');
      }
      assert IsDigitRun(s, p, q);
      assert !ShortRunsBefore(s, |s|);
    }
  }

  /** `(href.match(/(\d{6,})/g) || []).concat(text.match(/(\d{6,})/g) || [])[0] || null`:
      the first long run of the href, else the first long run of the text. */
  function WorkNumberCandidate(href: string, text: string): (r: Option<string>)
    ensures r.Some? ==> |r.value| >= 6 && AllDigits(r.value)
  {
    var h := FirstLongRun(href);
    var t := FirstLongRun(text);
    FirstLongRunDigits(href);
    FirstLongRunDigits(text);
    if h.Some? then h else t
  }

  lemma FirstLongRunDigits(s: string)
    ensures FirstLongRun(s).Some? ==> |FirstLongRun(s).value| >= 6 && AllDigits(FirstLongRun(s).value)
  {
    if LongRunStart(s, 0).Some? {
      var p := LongRunStart(s, 0).value;
      var q := DigitRunEnd(s, p);
      assert q >= p + 6;
      assert forall k | 0 <= k < q - p :: s[p..q][k] == s[p + k];
    }
  }
}
