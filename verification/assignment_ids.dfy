/** `getAssignmentIds` (workmarket/assignments/index.js): the ids found
    after "Assign. ID:" in the page's text nodes, each once, in the order
    first seen. */
module AssignmentIds {
  import opened Options
  import opened Text
  import opened Sequences

  const Marker := "Assign. ID:"

  /** The regular expression `Assign\. ID:\s*(\d+)` tried at index `i`: the
      marker, white space, then at least one digit, capturing the whole run
      of digits. Giving back white space never helps `\d+`, as white space is
      never a digit, so the greedy `\s*` decides. */
  function IdAt(s: string, i: nat): (r: Option<string>)
    ensures r.Some? ==> |r.value| > 0 && AllDigits(r.value)
  {
    if OccursAt(s, Marker, i, Exact) then
      var j := SpaceRunEnd(s, i + |Marker|);
      if j < |s| && IsDigit(s[j]) then
        var e := DigitRunEnd(s, j);
        assert forall k | 0 <= k < e - j :: s[j..e][k] == s[j + k];
        Some(s[j..e])
      else None
    else None
  }

  /** The leftmost index at or after `i` where the expression matches. */
  function IdFrom(s: string, i: nat): (r: Option<nat>)
    ensures r.Some? ==> i <= r.value && IdAt(s, r.value).Some?
    ensures forall j | i <= j && (r.None? || j < r.value) :: IdAt(s, j).None?
    decreases |s| - i
  {
    if i >= |s| then None
    else if IdAt(s, i).Some? then Some(i)
    else IdFrom(s, i + 1)
  }

  /** `textContent.match(idRegex)?.[1]`: at most one id per text node. */
  function IdIn(s: string): (r: Option<string>)
    ensures r.Some? ==> |r.value| > 0 && AllDigits(r.value)
    ensures r.None? <==> forall i :: IdAt(s, i).None?
    ensures r.Some? ==> exists i: nat :: IdAt(s, i) == r && forall j: nat | j < i :: IdAt(s, j).None?
  {
    match IdFrom(s, 0)
    case None => None
    case Some(i) => IdAt(s, i)
  }

  /** What a match at `i` captures: the digits right after the marker and
      any white space, as many as there are; `j` is where they start. */
  lemma IdAtSpec(s: string, i: nat) returns (j: nat)
    requires IdAt(s, i).Some?
    ensures var d := IdAt(s, i).value;
            && i + |Marker| <= j && j + |d| <= |s|
            && s[i..i + |Marker|] == Marker
            && AllSpace(s[i + |Marker|..j])
            && s[j..j + |d|] == d
            && (j + |d| == |s| || !IsDigit(s[j + |d|]))
  {
    OccursExactlyIff(s, Marker, i);
    j := SpaceRunEnd(s, i + |Marker|);
    var ws := s[i + |Marker|..j];
    assert forall k | 0 <= k < |ws| :: ws[k] == s[i + |Marker| + k];
  }

  /** The ids of the text nodes that hold one, in node order. */
  function Extracted(nodes: seq<string>): seq<string>
    decreases |nodes|
  {
    if |nodes| == 0 then []
    else
      var front := Extracted(nodes[..|nodes| - 1]);
      match IdIn(nodes[|nodes| - 1])
      case None => front
      case Some(x) => front + [x]
  }

  /** Every node's id is extracted. */
  lemma {:induction false} ExtractedHas(nodes: seq<string>, i: nat)
    requires i < |nodes| && IdIn(nodes[i]).Some?
    ensures IdIn(nodes[i]).value in Extracted(nodes)
    decreases |nodes|
  {
    if i < |nodes| - 1 {
      var front := nodes[..|nodes| - 1];
      assert front[i] == nodes[i];
      ExtractedHas(front, i);
    }
  }

  /** Every extracted id is some node's id. */
  lemma {:induction false} ExtractedFrom(nodes: seq<string>, x: string) returns (i: nat)
    requires x in Extracted(nodes)
    ensures i < |nodes| && IdIn(nodes[i]) == Some(x)
    decreases |nodes|
  {
    var front := nodes[..|nodes| - 1];
    if x in Extracted(front) {
      i := ExtractedFrom(front, x);
      assert front[i] == nodes[i];
    } else {
      i := |nodes| - 1;
    }
  }

  /** `getAssignmentIds()` over the text nodes of the page, in the order the
      snapshot lists them: each node's id is added to a `Set`, and the set is
      read back in insertion order. */
  method GetAssignmentIds(nodes: seq<string>) returns (ids: seq<string>)
    ensures ids == Dedup(Extracted(nodes))
    ensures NoDuplicates(ids)
    ensures forall x :: x in ids <==> exists i | 0 <= i < |nodes| :: IdIn(nodes[i]) == Some(x)
    ensures forall a, b | 0 <= a < b < |ids| :: SeenBefore(Extracted(nodes), ids[a], ids[b])
  {
    var seen: set<string> := {};
    ids := [];
    var i := 0;
    while i < |nodes|
      invariant 0 <= i <= |nodes|
      invariant ids == Dedup(Extracted(nodes[..i]))
      invariant forall x :: x in seen <==> x in ids
    {
      assert nodes[..i + 1][..i] == nodes[..i];
      match IdIn(nodes[i]) {
        case None =>
        case Some(x) =>
          if x !in seen {
            ids := ids + [x];
            seen := seen + {x};
          }
      }
      i := i + 1;
    }
    assert nodes[..|nodes|] == nodes;
    DedupSpec(Extracted(nodes));
    forall x ensures x in ids <==> exists i | 0 <= i < |nodes| :: IdIn(nodes[i]) == Some(x) {
      if x in ids {
        var k := ExtractedFrom(nodes, x);
      }
      if exists i | 0 <= i < |nodes| :: IdIn(nodes[i]) == Some(x) {
        var k :| 0 <= k < |nodes| && IdIn(nodes[k]) == Some(x);
        ExtractedHas(nodes, k);
      }
    }
  }

  // ---------------------------------------------------------------------
  // Round trip
  // ---------------------------------------------------------------------

  /** No match starts inside marker-free text followed by the marker: one
      would either lie within that text or straddle its end, and the
      marker's first character, 'A', appears nowhere else in it. */
  lemma NoMarkerBefore(pre: string, rest: string, i: nat)
    requires !Includes(pre, Marker) && i < |pre|
    ensures !OccursAt(pre + Marker + rest, Marker, i, Exact)
  {
    var s := pre + Marker + rest;
    if i + |Marker| <= |pre| {
      if OccursAt(s, Marker, i, Exact) {
        forall k | 0 <= k < |Marker| ensures pre[i + k] == Marker[k] {
          assert s[i + k] == pre[i + k];
        }
        assert OccursAt(pre, Marker, i, Exact);
        assert false;
      }
    } else {
      var k := |pre| - i;
      assert s[i + k] == 'A' != Marker[k];
    }
  }

  /** The match right after the marker captures the whole run of digits. */
  lemma IdAtMarker(pre: string, ws: string, d: string, post: string)
    requires AllSpace(ws) && |d| > 0 && AllDigits(d) && (|post| == 0 || !IsDigit(post[0]))
    ensures IdAt(pre + Marker + ws + d + post, |pre|) == Some(d)
  {
    var s := pre + Marker + ws + d + post;
    var j := |pre| + |Marker| + |ws|;
    Layout(s, pre, ws, d, post);
    assert |post| > 0 ==> s[j + |d|] == s[j + |d|..][0];
    IdAtParts(s, |pre|, j, j + |d|);
  }

  /** Where the pieces of a text node written as text, the marker, white
      space, digits and the rest lie. */
  lemma Layout(s: string, pre: string, ws: string, d: string, post: string)
    requires s == pre + Marker + ws + d + post
    ensures var j := |pre| + |Marker| + |ws|;
            && s[|pre|..|pre| + |Marker|] == Marker
            && s[|pre| + |Marker|..j] == ws
            && s[j..j + |d|] == d
            && s[j + |d|..] == post
  {
  }

  /** The match at an index where the marker, white space and a whole run
      of digits are laid out in the text. */
  lemma IdAtParts(s: string, p: nat, j: nat, e: nat)
    requires p + |Marker| <= j < e <= |s|
    requires s[p..p + |Marker|] == Marker && AllSpace(s[p + |Marker|..j]) && AllDigits(s[j..e])
    requires e == |s| || !IsDigit(s[e])
    ensures IdAt(s, p) == Some(s[j..e])
  {
    OccursExactlyIff(s, Marker, p);
    assert forall k | p + |Marker| <= k < j :: s[k] == s[p + |Marker|..j][k - p - |Marker|];
    assert forall k | j <= k < e :: s[k] == s[j..e][k - j];
    SpaceRunEndUnique(s, p + |Marker|, j);
    DigitRunEndUnique(s, j, e);
  }

  /** A text node made of any marker-free text, the marker, white space,
      an id and text that does not go on with a digit yields exactly that
      id. */
  lemma IdInRoundTrip(pre: string, ws: string, d: string, post: string)
    requires !Includes(pre, Marker)
    requires AllSpace(ws) && |d| > 0 && AllDigits(d) && (|post| == 0 || !IsDigit(post[0]))
    ensures IdIn(pre + Marker + ws + d + post) == Some(d)
  {
    var s := pre + Marker + ws + d + post;
    assert s == pre + Marker + (ws + d + post);
    forall i: nat | i < |pre| ensures IdAt(s, i).None? {
      NoMarkerBefore(pre, ws + d + post, i);
    }
    IdAtMarker(pre, ws, d, post);
  }

  /** A text node without the marker yields nothing. */
  lemma NoMarkerNoId(s: string)
    requires !Includes(s, Marker)
    ensures IdIn(s).None?
  {
  }
}
