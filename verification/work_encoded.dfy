/** Finding the work data embedded in a details page:
    `htmlString.match(/workEncoded:\s*({[\s\S]*?}),\s*authEncoded:/)`
    in `parseDetailsPage` (workmarket/assignments/index.js). */
module WorkEncoded {
  import opened Options
  import opened Text

  const WorkKey := "workEncoded:"
  const AuthKey := "authEncoded:"

  /** The lazy `[\s\S]*?` may stop before index `q`: a closing brace, a
      comma, any white space and then the `authEncoded:` key. Giving back
      white space never helps the key, which starts with a letter, so the
      greedy `\s*` decides. */
  predicate ClosesAt(s: string, q: nat) {
    && q + 2 <= |s| && s[q] == '}' && s[q + 1] == ','
    && OccursAt(s, AuthKey, SpaceRunEnd(s, q + 2), Exact)
  }

  /** The first index at or after `q` where the capture may stop. */
  function CloseFrom(s: string, q: nat): (r: Option<nat>)
    ensures r.Some? ==> q <= r.value && ClosesAt(s, r.value)
    ensures forall k | q <= k && (r.None? || k < r.value) :: !ClosesAt(s, k)
    decreases |s| - q
  {
    if q + 2 > |s| then None
    else if ClosesAt(s, q) then Some(q)
    else CloseFrom(s, q + 1)
  }

  /** Where the opening brace of a match at index `i` lies: after the key
      and the white space that follows it. */
  function OpenAt(s: string, i: nat): (r: Option<nat>)
    ensures r.Some? ==> i + |WorkKey| <= r.value < |s| && s[r.value] == '{'
  {
    if OccursAt(s, WorkKey, i, Exact) then
      var j := SpaceRunEnd(s, i + |WorkKey|);
      if j < |s| && s[j] == '{' then Some(j) else None
    else None
  }

  /** The expression tried at index `i`: the key, white space, an opening
      brace, and the shortest text up to a closing brace that may stop it.
      The captured group runs from the opening to that closing brace. */
  function CaptureAt(s: string, i: nat): (r: Option<string>)
    ensures r.Some? ==> i + |WorkKey| < |s|
    ensures r.Some? ==> |r.value| >= 2 && r.value[0] == '{' && r.value[|r.value| - 1] == '}'
  {
    match OpenAt(s, i)
    case None => None
    case Some(j) =>
      match CloseFrom(s, j + 1)
      case Some(q) =>
        assert s[j..q + 1][0] == s[j] && s[j..q + 1][q - j] == s[q];
        Some(s[j..q + 1])
      case None => None
  }

  /** The leftmost index at or after `i` where the expression matches. */
  function CaptureFrom(s: string, i: nat): (r: Option<nat>)
    ensures r.Some? ==> i <= r.value && CaptureAt(s, r.value).Some?
    ensures forall k | i <= k && (r.None? || k < r.value) :: CaptureAt(s, k).None?
    decreases |s| - i
  {
    if i + |WorkKey| > |s| then None
    else if CaptureAt(s, i).Some? then Some(i)
    else CaptureFrom(s, i + 1)
  }

  /** `workEncodedMatch?.[1]`: the text handed to `JSON.parse`, if any. */
  function WorkData(html: string): (r: Option<string>)
    ensures r.Some? ==> |r.value| >= 2 && r.value[0] == '{' && r.value[|r.value| - 1] == '}'
    ensures r.None? <==> forall i :: CaptureAt(html, i).None?
  {
    match CaptureFrom(html, 0)
    case None => None
    case Some(i) => CaptureAt(html, i)
  }

  // ---------------------------------------------------------------------
  // Round trip
  // ---------------------------------------------------------------------

  /** No match starts inside key-free text followed by the key: the key's
      first letter, 'w', appears nowhere else in it. */
  lemma NoKeyBefore(pre: string, rest: string, i: nat)
    requires !Includes(pre, WorkKey) && i < |pre|
    ensures !OccursAt(pre + WorkKey + rest, WorkKey, i, Exact)
  {
    var s := pre + WorkKey + rest;
    if i + |WorkKey| <= |pre| {
      if OccursAt(s, WorkKey, i, Exact) {
        forall k | 0 <= k < |WorkKey| ensures pre[i + k] == WorkKey[k] {
          assert s[i + k] == pre[i + k];
        }
        assert OccursAt(pre, WorkKey, i, Exact);
        assert false;
      }
    } else {
      var k := |pre| - i;
      assert s[i + k] == 'w' != WorkKey[k];
    }
  }

  /** An object with no "}," inside it, followed by the rest of the
      expression, stops the capture at its own closing brace. */
  lemma FirstClose(s: string, j: nat, obj: string)
    requires |obj| >= 2 && obj[|obj| - 1] == '}' && !Includes(obj, "},")
    requires j + |obj| <= |s| && s[j..j + |obj|] == obj
    requires ClosesAt(s, j + |obj| - 1)
    ensures CloseFrom(s, j + 1) == Some(j + |obj| - 1)
  {
    var q0 := j + |obj| - 1;
    forall q | j + 1 <= q < q0 ensures !ClosesAt(s, q) {
      if ClosesAt(s, q) {
        assert obj[q - j] == s[q] && obj[q - j + 1] == s[q + 1];
        assert OccursAt(obj, "},", q - j, Exact);
        assert false;
      }
    }
    var r := CloseFrom(s, j + 1);
    assert r.Some? && r.value <= q0;
  }

  /** The rest of the expression after the object. */
  lemma ClosesAfterObject(s: string, q: nat, ws2: string, post: string)
    requires AllSpace(ws2)
    requires q + 2 <= |s| && s[q] == '}' && s[q + 1] == ','
    requires s[q + 2..] == ws2 + AuthKey + post
    ensures ClosesAt(s, q)
  {
    var a := q + 2 + |ws2|;
    assert forall k | q + 2 <= k < a :: s[k] == s[q + 2..][k - q - 2] == ws2[k - q - 2];
    assert a < |s| && s[a] == s[q + 2..][|ws2|] == 'a';
    SpaceRunEndUnique(s, q + 2, a);
    forall k | 0 <= k < |AuthKey| ensures SameChar(s[a + k], AuthKey[k], Exact) {
      assert s[a + k] == s[q + 2..][|ws2| + k];
    }
  }

  /** The match at an index where the key, white space and the object
      are laid out in the text. */
  lemma CaptureAtParts(s: string, p: nat, j: nat, obj: string)
    requires p + |WorkKey| <= j && j + |obj| <= |s|
    requires s[p..p + |WorkKey|] == WorkKey && AllSpace(s[p + |WorkKey|..j]) && s[j..j + |obj|] == obj
    requires |obj| >= 2 && obj[0] == '{' && obj[|obj| - 1] == '}' && !Includes(obj, "},")
    requires ClosesAt(s, j + |obj| - 1)
    ensures CaptureAt(s, p) == Some(obj)
  {
    OpenAtParts(s, p, j, obj);
    FirstClose(s, j, obj);
  }

  /** The opening brace of the match at an index where the key, white
      space and the object are laid out in the text. */
  lemma OpenAtParts(s: string, p: nat, j: nat, obj: string)
    requires p + |WorkKey| <= j && j + |obj| <= |s| && |obj| >= 1 && obj[0] == '{'
    requires s[p..p + |WorkKey|] == WorkKey && AllSpace(s[p + |WorkKey|..j]) && s[j..j + |obj|] == obj
    ensures OpenAt(s, p) == Some(j)
  {
    OccursExactlyIff(s, WorkKey, p);
    assert forall k | p + |WorkKey| <= k < j :: s[k] == s[p + |WorkKey|..j][k - p - |WorkKey|];
    assert s[j] == s[j..j + |obj|][0] == '{';
    SpaceRunEndUnique(s, p + |WorkKey|, j);
  }

  /** Where the pieces of a page written as key-free text, the key, white
      space, the object and the rest of the expression lie. */
  lemma Layout(s: string, pre: string, ws: string, obj: string, rest: string)
    requires s == pre + WorkKey + ws + obj + rest
    ensures var j := |pre| + |WorkKey| + |ws|;
            && s[|pre|..|pre| + |WorkKey|] == WorkKey
            && s[|pre| + |WorkKey|..j] == ws
            && s[j..j + |obj|] == obj
            && s[j + |obj|..] == rest
  {
  }

  /** The match at the key captures the object. */
  lemma CaptureAtKey(s: string, pre: string, ws: string, obj: string, ws2: string, post: string)
    requires AllSpace(ws) && AllSpace(ws2)
    requires |obj| >= 2 && obj[0] == '{' && obj[|obj| - 1] == '}' && !Includes(obj, "},")
    requires var j := |pre| + |WorkKey| + |ws|;
             && j + |obj| <= |s|
             && s[|pre|..|pre| + |WorkKey|] == WorkKey
             && s[|pre| + |WorkKey|..j] == ws
             && s[j..j + |obj|] == obj
             && s[j + |obj|..] == "," + (ws2 + AuthKey + post)
    ensures CaptureAt(s, |pre|) == Some(obj)
  {
    var rest := "," + (ws2 + AuthKey + post);
    var j := |pre| + |WorkKey| + |ws|;
    var q0 := j + |obj| - 1;
    assert s[q0] == s[j..j + |obj|][|obj| - 1];
    assert s[q0 + 1] == s[q0 + 1..][0] == ',';
    assert s[q0 + 2..] == s[q0 + 1..][1..] == rest[1..];
    ClosesAfterObject(s, q0, ws2, post);
    CaptureAtParts(s, |pre|, j, obj);
  }

  /** No match starts before the key. */
  lemma NoCaptureBefore(s: string, pre: string, rest: string)
    requires !Includes(pre, WorkKey) && s == pre + WorkKey + rest
    ensures forall i | 0 <= i < |pre| :: CaptureAt(s, i).None?
  {
    forall i | 0 <= i < |pre| ensures CaptureAt(s, i).None? {
      NoKeyBefore(pre, rest, i);
    }
  }

  /** A page holding key-free text, then `workEncoded:`, white space, an
      object with no "}," inside it, a comma, white space and
      `authEncoded:` hands exactly that object to `JSON.parse`. */
  lemma WorkDataRoundTrip(pre: string, ws: string, obj: string, ws2: string, post: string)
    requires !Includes(pre, WorkKey) && AllSpace(ws) && AllSpace(ws2)
    requires |obj| >= 2 && obj[0] == '{' && obj[|obj| - 1] == '}' && !Includes(obj, "},")
    ensures WorkData(pre + WorkKey + ws + obj + "," + ws2 + AuthKey + post) == Some(obj)
  {
    var s := pre + WorkKey + ws + obj + "," + ws2 + AuthKey + post;
    assert s == pre + WorkKey + (ws + obj + "," + ws2 + AuthKey + post);
    NoCaptureBefore(s, pre, ws + obj + "," + ws2 + AuthKey + post);
    assert s == pre + WorkKey + ws + obj + ("," + (ws2 + AuthKey + post));
    Layout(s, pre, ws, obj, "," + (ws2 + AuthKey + post));
    CaptureAtKey(s, pre, ws, obj, ws2, post);
    FirstCapture(s, |pre|);
  }

  /** A match with none before it is the one `match` reports. */
  lemma FirstCapture(s: string, p: nat)
    requires CaptureAt(s, p).Some?
    requires forall i | 0 <= i < p :: CaptureAt(s, i).None?
    ensures WorkData(s) == CaptureAt(s, p)
  {
  }

  /** A page without the key holds no embedded work data. */
  lemma NoKeyNoWorkData(html: string)
    requires !Includes(html, WorkKey)
    ensures WorkData(html).None?
  {
  }
}
