/** One run of `augmentFromPayload` (workmarket/worker/browse/index.js):
    normalise the payload to an item list, index it, match every candidate
    link, and insert a details block next to each matched link whose card
    does not hold one yet. */
module Enricher {
  import opened Options
  import opened Text
  import opened Json
  import opened FeedIndex
  import opened Matching
  import opened Fields
  import opened Dom
  import opened DigitRuns

  /** A rendered link: its element, its `href` attribute as written in the
      page (what the selector tests), its resolved `href` property, and its
      visible text (`innerText || textContent || ''`). */
  datatype Link = Link(node: NodeId, hrefAttr: Option<string>, href: string, text: string)

  /** The substrings of the selector `a[href*="…"]`. */
  const LinkPatterns: seq<string> := ["/assignment/", "/work/", "/job/", "/workorder/", "/jobs/"]

  /** The link is one of the anchors `querySelectorAll` returns. */
  predicate IsCandidate(l: Link) {
    l.hrefAttr.Some? && exists i | 0 <= i < |LinkPatterns| :: Includes(l.hrefAttr.value, LinkPatterns[i])
  }

  /** The candidate links, in document order. */
  function Candidates(links: seq<Link>): (r: seq<Link>)
    ensures |r| <= |links|
    ensures forall l :: l in r <==> l in links && IsCandidate(l)
    decreases |links|
  {
    if |links| == 0 then []
    else
      var front := Candidates(links[..|links| - 1]);
      var l := links[|links| - 1];
      assert forall x :: x in links <==> x in links[..|links| - 1] || x == l;
      if IsCandidate(l) then front + [l] else front
  }

  /** `v` is an array holding `xs`. */
  function ListAt(v: Option<Json>): Option<seq<Json>> {
    match v
    case Some(JArr(xs)) => Some(xs)
    case _ => None
  }

  /** The item list of a payload: the payload itself when it is a list,
      else its `results`, `items` or `data` list, the first that is one. */
  function NormalizeItems(payload: Json): Option<seq<Json>> {
    if payload.JArr? then Some(payload.elems)
    else if ListAt(Get(payload, "results")).Some? then ListAt(Get(payload, "results"))
    else if ListAt(Get(payload, "items")).Some? then ListAt(Get(payload, "items"))
    else ListAt(Get(payload, "data"))
  }

  /** A payload yields no item list exactly when neither it nor its
      `results`, `items` or `data` is a list; a top-level list wins, and
      `results` wins over `items` and `data`. */
  lemma NormalizeItemsSpec(payload: Json)
    ensures NormalizeItems(payload).None? <==>
              && !payload.JArr?
              && ListAt(Get(payload, "results")).None?
              && ListAt(Get(payload, "items")).None?
              && ListAt(Get(payload, "data")).None?
    ensures payload.JArr? ==> NormalizeItems(payload) == Some(payload.elems)
    ensures forall xs: seq<Json> | Get(payload, "results") == Some(JArr(xs)) :: NormalizeItems(payload) == Some(xs)
    ensures forall xs: seq<Json> | Get(payload, "items") == Some(JArr(xs)) && ListAt(Get(payload, "results")).None? ::
              NormalizeItems(payload) == Some(xs)
  {
  }

  /** Which idempotence test guards an insertion: the source's (the
      container holds no block), or that test extended by "no block was
      already inserted right after this link" (see `RerunDuplicatesAsWritten`). */
  datatype Guard = AsWritten | Corrected

  predicate AlreadyInjected(guard: Guard, doc: Doc, a: NodeId, container: NodeId) {
    HasBlockWithin(doc, container) || (guard == Corrected && HasBlockAfter(doc, a))
  }

  /** The work done for one anchor: nothing when no rule matches or the
      guard finds a block; otherwise one block, whose rows show the matched
      item's fields. The boolean says whether a block was inserted. */
  function ProcessLink(guard: Guard, ix: Indexes, doc: Doc, l: Link): (r: (Doc, bool))
    ensures r.0.elements == doc.elements
    ensures !r.1 ==> r.0 == doc
    ensures r.1 <==> MatchLink(ix, l.href, l.text).Some?
                     && !AlreadyInjected(guard, doc, l.node, FindCardContainer(doc.elements, l.node))
    ensures r.1 ==> |r.0.blocks| == |doc.blocks| + 1 && r.0.blocks[..|doc.blocks|] == doc.blocks
                    && r.0.blocks[|doc.blocks|].rows == Rows(ExtractFields(MatchLink(ix, l.href, l.text).value.item))
  {
    match MatchLink(ix, l.href, l.text)
    case None => (doc, false)
    case Some(m) =>
      var c := FindCardContainer(doc.elements, l.node);
      if AlreadyInjected(guard, doc, l.node, c) then (doc, false)
      else (InsertBlock(doc, l.node, c, Rows(ExtractFields(m.item))), true)
  }

  /** `anchors.forEach(...)`: the links in order, counting insertions. */
  function InjectAll(guard: Guard, ix: Indexes, doc: Doc, links: seq<Link>): (r: (Doc, nat))
    ensures r.0.elements == doc.elements
    ensures r.1 <= |links|
    ensures |r.0.blocks| == |doc.blocks| + r.1 && r.0.blocks[..|doc.blocks|] == doc.blocks
    decreases |links|
  {
    if |links| == 0 then (doc, 0)
    else
      var (d, n) := InjectAll(guard, ix, doc, links[..|links| - 1]);
      var (d2, added) := ProcessLink(guard, ix, d, links[|links| - 1]);
      assert d2.blocks[..|doc.blocks|] == d.blocks[..|doc.blocks|];
      (d2, if added then n + 1 else n)
  }

  /** The overlay counters. */
  datatype Counters = Counters(anchors: nat, indexed: nat, injected: nat)

  datatype RunResult = RunResult(doc: Doc, counters: Counters)

  /** `augmentFromPayload(url, payload)` over a page; the url only appears
      in log lines. */
  function Augment(guard: Guard, payload: Json, doc: Doc, links: seq<Link>): (r: RunResult)
    ensures NormalizeItems(payload).None? ==> r == RunResult(doc, Counters(0, 0, 0))
    ensures NormalizeItems(payload).Some? ==>
              && r.counters.indexed == |NormalizeItems(payload).value|
              && r.counters.anchors == |Candidates(links)|
              && r.counters.injected <= r.counters.anchors
              && |r.doc.blocks| == |doc.blocks| + r.counters.injected
    ensures r.doc.elements == doc.elements && |doc.blocks| <= |r.doc.blocks| && r.doc.blocks[..|doc.blocks|] == doc.blocks
  {
    match NormalizeItems(payload)
    case None => RunResult(doc, Counters(0, 0, 0))
    case Some(items) =>
      var cands := Candidates(links);
      var (d, n) := InjectAll(guard, BuildIndexes(items), doc, cands);
      RunResult(d, Counters(|cands|, |items|, n))
  }

  // ---------------------------------------------------------------------
  // Idempotence
  // ---------------------------------------------------------------------

  /** A link that is a card and has a parent: its own container, with the
      block inserted beside it rather than inside it. */
  predicate SelfCard(t: Tree, a: NodeId) {
    IsCardNode(t, a) && ParentOf(t, a).Some?
  }

  /** Every link that matches already meets the guard. */
  ghost predicate Settled(guard: Guard, ix: Indexes, doc: Doc, links: seq<Link>) {
    forall j | 0 <= j < |links| && MatchLink(ix, links[j].href, links[j].text).Some? ::
      AlreadyInjected(guard, doc, links[j].node, FindCardContainer(doc.elements, links[j].node))
  }

  /** Adding blocks keeps a page settled. */
  lemma SettledGrows(guard: Guard, ix: Indexes, doc: Doc, d: Doc, links: seq<Link>)
    requires Settled(guard, ix, doc, links)
    requires d.elements == doc.elements && |doc.blocks| <= |d.blocks| && d.blocks[..|doc.blocks|] == doc.blocks
    ensures Settled(guard, ix, d, links)
  {
    forall j | 0 <= j < |links| && MatchLink(ix, links[j].href, links[j].text).Some?
      ensures AlreadyInjected(guard, d, links[j].node, FindCardContainer(d.elements, links[j].node))
    {
      MoreBlocksKeepSeen(doc, d, FindCardContainer(doc.elements, links[j].node), links[j].node);
    }
  }

  /** The link just processed meets the guard afterwards: with the
      corrected guard always, with the source's guard unless the link is a
      card with a parent. */
  lemma ProcessLinkSettles(guard: Guard, ix: Indexes, doc: Doc, l: Link)
    requires guard == Corrected || !SelfCard(doc.elements, l.node)
    ensures MatchLink(ix, l.href, l.text).Some? ==>
              AlreadyInjected(guard, ProcessLink(guard, ix, doc, l).0, l.node, FindCardContainer(doc.elements, l.node))
  {
    var c := FindCardContainer(doc.elements, l.node);
    if MatchLink(ix, l.href, l.text).Some? && !AlreadyInjected(guard, doc, l.node, c) {
      InsertedBlockPlacement(doc, l.node, Rows(ExtractFields(MatchLink(ix, l.href, l.text).value.item)));
      ContainerIsAncestor(doc.elements, l.node);
    }
  }

  /** After one pass every matched link meets the guard: with the corrected
      guard always, with the source's guard when no link is a card with a
      parent. */
  lemma {:induction false} InjectAllSettles(guard: Guard, ix: Indexes, doc: Doc, links: seq<Link>)
    requires guard == Corrected || forall j | 0 <= j < |links| :: !SelfCard(doc.elements, links[j].node)
    ensures Settled(guard, ix, InjectAll(guard, ix, doc, links).0, links)
    decreases |links|
  {
    if |links| > 0 {
      var front := links[..|links| - 1];
      var l := links[|links| - 1];
      assert forall j | 0 <= j < |front| :: links[j] == front[j];
      var d := InjectAll(guard, ix, doc, front).0;
      InjectAllSettles(guard, ix, doc, front);
      assert links == front + [l];
      SettlesStep(guard, ix, d, front, l);
    }
  }

  /** Processing one more link keeps the earlier links settled and settles
      the new one. */
  lemma SettlesStep(guard: Guard, ix: Indexes, d: Doc, front: seq<Link>, l: Link)
    requires Settled(guard, ix, d, front)
    requires guard == Corrected || !SelfCard(d.elements, l.node)
    ensures Settled(guard, ix, ProcessLink(guard, ix, d, l).0, front + [l])
  {
    var d2 := ProcessLink(guard, ix, d, l).0;
    var links := front + [l];
    SettledGrows(guard, ix, d, d2, front);
    ProcessLinkSettles(guard, ix, d, l);
    assert forall j | 0 <= j < |front| :: links[j] == front[j];
    assert links[|front|] == l;
  }

  /** A settled page is left as it is: nothing is inserted. */
  lemma {:induction false} SettledInjectsNothing(guard: Guard, ix: Indexes, doc: Doc, links: seq<Link>)
    requires Settled(guard, ix, doc, links)
    ensures InjectAll(guard, ix, doc, links) == (doc, 0)
    decreases |links|
  {
    if |links| > 0 {
      var front := links[..|links| - 1];
      assert forall j | 0 <= j < |front| :: front[j] == links[j];
      SettledInjectsNothing(guard, ix, doc, front);
    }
  }

  /** With the corrected guard a second run over the page the first run
      left, with the same payload and links, inserts nothing and reports the
      same anchor and item counts. */
  lemma RerunInjectsNothing(payload: Json, doc: Doc, links: seq<Link>)
    ensures var r1 := Augment(Corrected, payload, doc, links);
            var r2 := Augment(Corrected, payload, r1.doc, links);
            && r2.doc == r1.doc
            && r2.counters == r1.counters.(injected := 0)
  {
    var r1 := Augment(Corrected, payload, doc, links);
    if NormalizeItems(payload).Some? {
      var ix := BuildIndexes(NormalizeItems(payload).value);
      var cands := Candidates(links);
      InjectAllSettles(Corrected, ix, doc, cands);
      SettledInjectsNothing(Corrected, ix, r1.doc, cands);
    }
  }

  /** The source's guard gives the same guarantee as long as no candidate
      link is itself a card with a parent. */
  lemma RerunInjectsNothingAsWritten(payload: Json, doc: Doc, links: seq<Link>)
    requires forall l | l in links && IsCandidate(l) :: !SelfCard(doc.elements, l.node)
    ensures var r1 := Augment(AsWritten, payload, doc, links);
            var r2 := Augment(AsWritten, payload, r1.doc, links);
            && r2.doc == r1.doc
            && r2.counters == r1.counters.(injected := 0)
  {
    var r1 := Augment(AsWritten, payload, doc, links);
    if NormalizeItems(payload).Some? {
      var ix := BuildIndexes(NormalizeItems(payload).value);
      var cands := Candidates(links);
      assert forall j | 0 <= j < |cands| :: cands[j] in cands;
      InjectAllSettles(AsWritten, ix, doc, cands);
      SettledInjectsNothing(AsWritten, ix, r1.doc, cands);
    }
  }

  // ---------------------------------------------------------------------
  // Worked examples
  // ---------------------------------------------------------------------

  /** A page where the link is itself a card (class `card`) inside a parent
      element, and a payload whose item has the link's numeric id. */
  const CardLinkTree: Tree := map[0 := Element({}, map[], None), 1 := Element({"card"}, map[], Some(0))]
  const CardLink := Link(1, Some("/work/7"), "/work/7", "")
  const CardLinkPayload := JArr([JObj(map["id" := JStr("7")])])

  /** With the source's guard, running twice over the page above inserts a
      block each time: the block lands beside the link, outside the link's
      own container, so the second run does not see it. The corrected guard
      inserts nothing the second time. */
  lemma RerunDuplicatesAsWritten()
    ensures var r1 := Augment(AsWritten, CardLinkPayload, Doc(CardLinkTree, []), [CardLink]);
            var r2 := Augment(AsWritten, CardLinkPayload, r1.doc, [CardLink]);
            && r1.counters.injected == 1
            && r2.counters.injected == 1
            && |r2.doc.blocks| == 2
    ensures var r1 := Augment(Corrected, CardLinkPayload, Doc(CardLinkTree, []), [CardLink]);
            var r2 := Augment(Corrected, CardLinkPayload, r1.doc, [CardLink]);
            && r1.counters.injected == 1
            && r2.counters.injected == 0
            && |r2.doc.blocks| == 1
  {
    CardLinkTwiceAsWritten();
    CardLinkTwiceCorrected();
  }

  /** The source's guard over the example: a block on each run. */
  lemma CardLinkTwiceAsWritten()
    ensures var r1 := Augment(AsWritten, CardLinkPayload, Doc(CardLinkTree, []), [CardLink]);
            var r2 := Augment(AsWritten, CardLinkPayload, r1.doc, [CardLink]);
            && r1.counters.injected == 1
            && r2.counters.injected == 1
            && |r2.doc.blocks| == 2
  {
    CardLinkFacts();
    var ix := BuildIndexes(CardLinkPayload.elems);
    var doc0 := Doc(CardLinkTree, []);
    OneLinkRun(AsWritten, CardLinkPayload, doc0, CardLink);
    var d1 := ProcessLink(AsWritten, ix, doc0, CardLink).0;
    CardLinkFirstBlock();
    OneLinkRun(AsWritten, CardLinkPayload, d1, CardLink);
  }

  /** The first run over the example inserts one block, beside the link
      and so outside the link's own container. */
  lemma CardLinkFirstBlock()
    ensures var r := ProcessLink(AsWritten, BuildIndexes(CardLinkPayload.elems), Doc(CardLinkTree, []), CardLink);
            && r.1 && r.0.elements == CardLinkTree && |r.0.blocks| == 1
            && !HasBlockWithin(r.0, 1)
  {
    CardLinkFacts();
    var d1 := ProcessLink(AsWritten, BuildIndexes(CardLinkPayload.elems), Doc(CardLinkTree, []), CardLink).0;
    assert d1.blocks[0].parent == 0;
    assert !IsAncestorOrSelf(CardLinkTree, 1, 0);
  }

  /** The corrected guard over the example: a block on the first run
      only. */
  lemma CardLinkTwiceCorrected()
    ensures var r1 := Augment(Corrected, CardLinkPayload, Doc(CardLinkTree, []), [CardLink]);
            var r2 := Augment(Corrected, CardLinkPayload, r1.doc, [CardLink]);
            && r1.counters.injected == 1
            && r2.counters.injected == 0
            && |r2.doc.blocks| == 1
  {
    CardLinkFacts();
    OneLinkRun(Corrected, CardLinkPayload, Doc(CardLinkTree, []), CardLink);
    RerunInjectsNothing(CardLinkPayload, Doc(CardLinkTree, []), [CardLink]);
  }

  /** A run over a single candidate link is one step of `ProcessLink`. */
  lemma OneLinkRun(guard: Guard, payload: Json, doc: Doc, l: Link)
    requires NormalizeItems(payload).Some? && Candidates([l]) == [l]
    ensures Augment(guard, payload, doc, [l]).doc
              == ProcessLink(guard, BuildIndexes(NormalizeItems(payload).value), doc, l).0
    ensures Augment(guard, payload, doc, [l]).counters
              == Counters(1, |NormalizeItems(payload).value|,
                          if ProcessLink(guard, BuildIndexes(NormalizeItems(payload).value), doc, l).1 then 1 else 0)
  {
    var ix := BuildIndexes(NormalizeItems(payload).value);
    var step := ProcessLink(guard, ix, doc, l);
    assert InjectAll(guard, ix, doc, [l]) == (step.0, if step.1 then 1 else 0) by {
      assert [l][..0] == [];
      assert InjectAll(guard, ix, doc, []) == (doc, 0);
    }
  }

  /** The link above is a candidate, matches by id, and is its own
      container. */
  lemma CardLinkFacts()
    ensures Candidates([CardLink]) == [CardLink]
    ensures MatchLink(BuildIndexes(CardLinkPayload.elems), CardLink.href, CardLink.text).Some?
    ensures NormalizeItems(CardLinkPayload) == Some(CardLinkPayload.elems)
    ensures FindCardContainer(CardLinkTree, 1) == 1
    ensures ParentOf(CardLinkTree, 1) == Some(0) && ParentOf(CardLinkTree, 0) == None
  {
    CardLinkIsCandidate();
    CardLinkMatches();
    assert IsCardNode(CardLinkTree, 1);
  }

  /** The link above is one of the selector's anchors. */
  lemma CardLinkIsCandidate()
    ensures IsCandidate(CardLink)
  {
    var href := "/work/7";
    OccursExactlyIff(href, "/work/", 0);
    assert href[0..6] == "/work/";
    assert LinkPatterns[1] == "/work/";
  }

  /** The link above matches its item by id. */
  lemma CardLinkMatches()
    ensures MatchLink(BuildIndexes(CardLinkPayload.elems), CardLink.href, CardLink.text).Some?
  {
    var href := "/work/7";
    GetNumericIdIsLastRun(href, 6, 7);
    assert href[6..7] == "7";
    var item := JObj(map["id" := JStr("7")]);
    assert KeyOf(Id, item) == Some("7");
    IndexSingle(item, Id);
  }

  /** The item of the worked example. */
  const AcmeItem := JObj(map["id" := JStr("1"), "workNumber" := JStr("500123"), "companyName" := JStr("Acme")])

  /** A worked example: the payload
      `[{id: "1", workNumber: "500123", companyName: "Acme"}]` and one link
      whose destination ends in `/work/500123` after a digit-free prefix.
      The id rule misses ("1" is not "500123"), the work-number rule
      matches, and one block is inserted showing `Work order: 500123` and
      `Company name: Acme`. */
  lemma AcmeExample(prefix: string, l: Link, tree: Tree)
    requires NoDigits(prefix) && l.href == prefix + "500123" && IsCandidate(l)
    ensures var r := Augment(AsWritten, JArr([AcmeItem]), Doc(tree, []), [l]);
            && MatchLink(BuildIndexes([AcmeItem]), l.href, l.text) == Some(Match(AcmeItem, ByWorkNumber))
            && r.counters == Counters(1, 1, 1)
            && |r.doc.blocks| == 1
            && |r.doc.blocks[0].rows| == 6
            && r.doc.blocks[0].rows[0] == ("Work order", "500123")
            && r.doc.blocks[0].rows[3] == ("Company name", "Acme")
  {
    var ix := BuildIndexes([AcmeItem]);
    AcmeMatch(prefix, l.href, l.text);
    assert Candidates([l]) == [l];
    OneLinkRun(AsWritten, JArr([AcmeItem]), Doc(tree, []), l);
    FirstRunInserts(AsWritten, ix, tree, l);
    AcmeRows();
  }

  /** On a page without blocks, a link that matches gets one. */
  lemma FirstRunInserts(guard: Guard, ix: Indexes, tree: Tree, l: Link)
    requires MatchLink(ix, l.href, l.text).Some?
    ensures ProcessLink(guard, ix, Doc(tree, []), l).1
  {
  }

  /** The rows shown for the example's item. */
  lemma AcmeRows()
    ensures Rows(ExtractFields(AcmeItem))[0] == ("Work order", "500123")
    ensures Rows(ExtractFields(AcmeItem))[3] == ("Company name", "Acme")
  {
    var info := ExtractFields(AcmeItem);
    assert ["workNumber"][0] == "workNumber";
    assert info.workOrder == JStr("500123");
    assert ["companyName", "company_name"][0] == "companyName";
    assert info.companyName == JStr("Acme");
  }

  /** The matching half of the example. */
  lemma AcmeMatch(prefix: string, href: string, text: string)
    requires NoDigits(prefix) && href == prefix + "500123"
    ensures MatchLink(BuildIndexes([AcmeItem]), href, text) == Some(Match(AcmeItem, ByWorkNumber))
  {
    AcmeDigits(prefix, href);
    AcmeIndexes();
  }

  /** The indexes of the example's one-item list. */
  lemma AcmeIndexes()
    ensures BuildIndexes([AcmeItem]).byId.entries == map["1" := AcmeItem]
    ensures BuildIndexes([AcmeItem]).byUuid.entries == map[]
    ensures BuildIndexes([AcmeItem]).byWorkNumber.entries == map["500123" := AcmeItem]
  {
    var item := AcmeItem;
    assert KeyOf(Id, item) == Some("1");
    assert KeyOf(Uuid, item) == None;
    assert KeyOf(WorkNumber, item) == Some("500123");
    IndexSingle(item, Id);
    IndexSingle(item, Uuid);
    IndexSingle(item, WorkNumber);
  }

  /** The example's link: both its numeric id and its first run of six or
      more digits are "500123". */
  lemma AcmeDigits(prefix: string, href: string)
    requires NoDigits(prefix) && href == prefix + "500123"
    ensures GetNumericId(href) == Some("500123")
    ensures FirstLongRun(href) == Some("500123")
  {
    var p := |prefix|;
    assert forall k | p <= k < |href| :: href[k] == "500123"[k - p];
    assert href[p..|href|] == "500123";
    assert IsLastDigitRun(href, p, |href|);
    GetNumericIdIsLastRun(href, p, |href|);
    assert LongRunAt(href, p);
    assert forall j | 0 <= j < p :: href[j] == prefix[j];
    var r := LongRunStart(href, 0);
    assert r.Some? && r.value <= p;
    assert IsDigit(href[r.value]);
    assert r.value == p;
    DigitRunEndUnique(href, p, |href|);
  }

  /** The index of a one-item list. */
  lemma IndexSingle(item: Json, f: Field)
    ensures KeyOf(f, item).None? ==> IndexBy([item], f).entries == map[]
    ensures KeyOf(f, item).Some? ==> IndexBy([item], f).entries == map[KeyOf(f, item).value := item]
  {
    assert [item][..0] == [] && [item][0] == item;
  }
}
