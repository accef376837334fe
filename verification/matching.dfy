/** Resolving one rendered link to a payload item: the ordered,
    first-match-wins chain inside `augmentFromPayload`
    (workmarket/worker/browse/index.js). */
module Matching {
  import opened Options
  import opened Text
  import opened Json
  import opened Sequences
  import opened FeedIndex
  import opened DigitRuns

  /** The rule that found the item (the `reason` the source logs). */
  datatype Reason = ById | ByUuid | ByWorkNumber | ContainsWorkNumber(key: string)

  datatype Match = Match(item: Json, reason: Reason)

  /** The test of the fallback loop: a non-empty work number that occurs in
      the href, or in the text when the text is non-empty. */
  predicate KeyHits(wn: string, href: string, text: string) {
    wn != "" && (Includes(href, wn) || (text != "" && Includes(text, wn)))
  }

  /** The fallback loop over `byWorkNumber.entries()` from position `i`:
      the position of the first key that hits (the loop `break`s there). */
  function ScanFrom(keys: seq<string>, href: string, text: string, i: nat): (r: Option<nat>)
    requires i <= |keys|
    ensures r.Some? ==> i <= r.value < |keys| && KeyHits(keys[r.value], href, text)
    ensures r.Some? ==> forall j | i <= j < r.value :: !KeyHits(keys[j], href, text)
    ensures r.None? ==> forall j | i <= j < |keys| :: !KeyHits(keys[j], href, text)
    decreases |keys| - i
  {
    if i == |keys| then None
    else if KeyHits(keys[i], href, text) then Some(i)
    else ScanFrom(keys, href, text, i + 1)
  }

  /** The matching chain for a link with destination `href` and visible
      text `text`: the href's numeric id looked up in `byId`, then in
      `byUuid`; then the work-number candidate in `byWorkNumber`; then the
      first key of `byWorkNumber`, in map order, contained in href or text.
      The source guards each later step with `!matched`; an item stored in
      the maps is always an object (`IndexedItemsAreObjects`), hence truthy,
      so a later step runs exactly when the earlier ones found nothing. */
  function MatchLink(ix: Indexes, href: string, text: string): Option<Match> {
    var nid := GetNumericId(href);
    if nid.Some? && nid.value in ix.byId.entries then
      Some(Match(ix.byId.entries[nid.value], ById))
    else if nid.Some? && nid.value in ix.byUuid.entries then
      Some(Match(ix.byUuid.entries[nid.value], ByUuid))
    else
      var cand := WorkNumberCandidate(href, text);
      if cand.Some? && cand.value in ix.byWorkNumber.entries then
        Some(Match(ix.byWorkNumber.entries[cand.value], ByWorkNumber))
      else Fallback(ix.byWorkNumber, href, text)
  }

  /** The last rule: the item under the first key of `byWorkNumber`, in map
      order, that hits. */
  function Fallback(byWorkNumber: KeyedMap, href: string, text: string): Option<Match> {
    match ScanFrom(byWorkNumber.order, href, text, 0)
    case None => None
    case Some(i) =>
      var wn := byWorkNumber.order[i];
      if wn in byWorkNumber.entries then
        Some(Match(byWorkNumber.entries[wn], ContainsWorkNumber(wn)))
      else None
  }

  // ---------------------------------------------------------------------
  // The chain stated against the item list itself
  // ---------------------------------------------------------------------

  /** Some item carries key `k` for field `f`. */
  ghost predicate Carries(items: seq<Json>, f: Field, k: string) {
    exists i | 0 <= i < |items| :: KeyOf(f, items[i]) == Some(k)
  }

  /** `item` is the last item of the list that carries key `k` for `f`. */
  ghost predicate LastCarrier(items: seq<Json>, f: Field, k: string, item: Json) {
    exists i | 0 <= i < |items| :: items[i] == item && KeyOf(f, items[i]) == Some(k) && LastWithKey(items, f, i)
  }

  /** No item's id or uuid equals the link's numeric id, so the first two
      rules find nothing. */
  ghost predicate IdRulesMiss(items: seq<Json>, href: string) {
    var nid := GetNumericId(href);
    nid.None? || (!Carries(items, Id, nid.value) && !Carries(items, Uuid, nid.value))
  }

  /** No item's work number equals the link's work-number candidate. */
  ghost predicate WorkNumberRuleMisses(items: seq<Json>, href: string, text: string) {
    var cand := WorkNumberCandidate(href, text);
    cand.None? || !Carries(items, WorkNumber, cand.value)
  }

  lemma {:induction false} LastCarrierExists(items: seq<Json>, f: Field, k: string)
    requires Carries(items, f, k)
    ensures exists i | 0 <= i < |items| :: KeyOf(f, items[i]) == Some(k) && LastWithKey(items, f, i)
    decreases |items|
  {
    var n := |items| - 1;
    if KeyOf(f, items[n]) == Some(k) {
      assert LastWithKey(items, f, n);
    } else {
      var front := items[..n];
      var i :| 0 <= i < |items| && KeyOf(f, items[i]) == Some(k);
      assert front[i] == items[i];
      LastCarrierExists(front, f, k);
      var j :| 0 <= j < |front| && KeyOf(f, front[j]) == Some(k) && LastWithKey(front, f, j);
      assert front[j] == items[j];
      assert LastWithKey(items, f, j) by {
        forall m | j < m < |items| ensures KeyOf(f, items[m]) != KeyOf(f, items[j]) {
          if m < n {
            assert front[m] == items[m];
          }
        }
      }
    }
  }

  /** A lookup in one map of the index finds a key exactly when some item
      carries it, and then yields the last such item. */
  lemma Lookup(items: seq<Json>, f: Field, k: string)
    ensures k in MapFor(BuildIndexes(items), f).entries <==> Carries(items, f, k)
    ensures k in MapFor(BuildIndexes(items), f).entries ==>
              LastCarrier(items, f, k, MapFor(BuildIndexes(items), f).entries[k])
  {
    IndexByOrder(items, f);
    IndexByValues(items, f);
    KeysOfSpec(items, f);
    DedupSpec(KeysOf(items, f));
    if Carries(items, f, k) {
      LastCarrierExists(items, f, k);
    }
  }

  /** Rule 1 wins whenever an item's `String(id)` equals the href's numeric
      id: the later rules are never consulted, and the match is the last
      such item. */
  lemma MatchById(items: seq<Json>, href: string, text: string)
    requires GetNumericId(href).Some? && Carries(items, Id, GetNumericId(href).value)
    ensures var r := MatchLink(BuildIndexes(items), href, text);
            r.Some? && r.value.reason == ById
            && LastCarrier(items, Id, GetNumericId(href).value, r.value.item)
  {
    Lookup(items, Id, GetNumericId(href).value);
  }

  /** Rule 2: with no id match, an item whose `String(uuid)` (for a truthy
      uuid) equals the href's numeric id is the match. */
  lemma MatchByUuid(items: seq<Json>, href: string, text: string)
    requires GetNumericId(href).Some?
    requires !Carries(items, Id, GetNumericId(href).value)
    requires Carries(items, Uuid, GetNumericId(href).value)
    ensures var r := MatchLink(BuildIndexes(items), href, text);
            r.Some? && r.value.reason == ByUuid
            && LastCarrier(items, Uuid, GetNumericId(href).value, r.value.item)
  {
    Lookup(items, Id, GetNumericId(href).value);
    Lookup(items, Uuid, GetNumericId(href).value);
  }

  /** Rule 3: with neither id rule matching, an item whose work number
      equals the first run of six or more digits (of the href, else of the
      text) is the match. */
  lemma MatchByWorkNumber(items: seq<Json>, href: string, text: string)
    requires IdRulesMiss(items, href)
    requires WorkNumberCandidate(href, text).Some?
    requires Carries(items, WorkNumber, WorkNumberCandidate(href, text).value)
    ensures var r := MatchLink(BuildIndexes(items), href, text);
            r.Some? && r.value.reason == ByWorkNumber
            && LastCarrier(items, WorkNumber, WorkNumberCandidate(href, text).value, r.value.item)
  {
    var nid := GetNumericId(href);
    if nid.Some? {
      Lookup(items, Id, nid.value);
      Lookup(items, Uuid, nid.value);
    }
    Lookup(items, WorkNumber, WorkNumberCandidate(href, text).value);
  }

  /** Rule 4: when the first three rules find nothing, the match is the
      item holding the first work number, in order of first appearance
      among the items, that is non-empty and contained in href or text;
      no match at all when there is no such work number. */
  lemma MatchByContainedWorkNumber(items: seq<Json>, href: string, text: string)
    requires IdRulesMiss(items, href) && WorkNumberRuleMisses(items, href, text)
    ensures var r := MatchLink(BuildIndexes(items), href, text);
            var keys := KeysOf(items, WorkNumber);
            (r.None? <==> forall k | k in keys :: !KeyHits(k, href, text))
            && (r.Some? ==>
                  && r.value.reason.ContainsWorkNumber?
                  && var wn := r.value.reason.key;
                  && wn in keys && KeyHits(wn, href, text)
                  && (forall k | k in keys && KeyHits(k, href, text) :: k == wn || SeenBefore(keys, wn, k))
                  && LastCarrier(items, WorkNumber, wn, r.value.item))
  {
    EarlyRulesMiss(items, href, text);
    FallbackSpec(items, href, text);
  }

  /** When the first three rules find nothing, the chain is left with the
      fallback loop. */
  lemma EarlyRulesMiss(items: seq<Json>, href: string, text: string)
    requires IdRulesMiss(items, href) && WorkNumberRuleMisses(items, href, text)
    ensures MatchLink(BuildIndexes(items), href, text) == Fallback(IndexBy(items, WorkNumber), href, text)
  {
    var nid := GetNumericId(href);
    var cand := WorkNumberCandidate(href, text);
    if nid.Some? {
      Lookup(items, Id, nid.value);
      Lookup(items, Uuid, nid.value);
    }
    if cand.Some? {
      Lookup(items, WorkNumber, cand.value);
    }
  }

  /** The fallback loop over the work-number map finds the first work
      number, in order of first appearance among the items, that hits, and
      the last item carrying it. */
  lemma FallbackSpec(items: seq<Json>, href: string, text: string)
    ensures var r := Fallback(IndexBy(items, WorkNumber), href, text);
            var keys := KeysOf(items, WorkNumber);
            (r.None? <==> forall k | k in keys :: !KeyHits(k, href, text))
            && (r.Some? ==>
                  && r.value.reason.ContainsWorkNumber?
                  && var wn := r.value.reason.key;
                  && wn in keys && KeyHits(wn, href, text)
                  && (forall k | k in keys && KeyHits(k, href, text) :: k == wn || SeenBefore(keys, wn, k))
                  && LastCarrier(items, WorkNumber, wn, r.value.item))
  {
    var keys := KeysOf(items, WorkNumber);
    IndexByOrder(items, WorkNumber);
    ScanOverKeys(keys, href, text);
    var i := ScanFrom(Dedup(keys), href, text, 0);
    if i.Some? {
      Lookup(items, WorkNumber, Dedup(keys)[i.value]);
    }
  }

  /** The scan over the keys in order of first appearance finds a key
      exactly when one hits, and then the first to appear. */
  lemma ScanOverKeys(keys: seq<string>, href: string, text: string)
    ensures var order := Dedup(keys);
            var r := ScanFrom(order, href, text, 0);
            && (r.None? <==> forall k | k in keys :: !KeyHits(k, href, text))
            && (r.Some? ==> order[r.value] in keys
                            && forall k | k in keys && KeyHits(k, href, text) ::
                                 k == order[r.value] || SeenBefore(keys, order[r.value], k))
  {
    var order := Dedup(keys);
    DedupSpec(keys);
    match ScanFrom(order, href, text, 0)
    case None =>
      forall k | k in keys ensures !KeyHits(k, href, text) {
        var j :| 0 <= j < |order| && order[j] == k;
      }
    case Some(i) =>
      forall k | k in keys && KeyHits(k, href, text) ensures k == order[i] || SeenBefore(keys, order[i], k) {
        var j :| 0 <= j < |order| && order[j] == k;
        assert i <= j;
      }
  }
}
