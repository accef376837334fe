/** The part of the rendered page the enricher reads and writes: elements
    with their classes, attributes and parent, and the details blocks it
    inserts; plus `findCardContainer` (workmarket/worker/browse/index.js). */
module Dom {
  import opened Options

  /** Elements are numbered in document order. */
  type NodeId = nat

  datatype Element = Element(classes: set<string>, attributes: map<string, string>, parent: Option<NodeId>)

  /** Where an inserted block went: right after a link, inside the link's
      parent (`insertBefore(block, anchor.nextSibling)`), or appended as the
      last child of a container. */
  datatype Placement = AfterLink(link: NodeId) | Appended

  /** A `.wm-feed-details-block`: the element it was inserted into, how, and
      its label/value rows. */
  datatype Block = Block(parent: NodeId, placement: Placement, rows: seq<(string, string)>)

  /** The page's elements by number. */
  type Tree = map<NodeId, Element>

  /** The page: its elements and the blocks inserted so far. */
  datatype Doc = Doc(elements: Tree, blocks: seq<Block>)

  /** `n.parentElement`. A parent always precedes its child in document
      order, so a recorded parent that is not an earlier element of the
      document is ignored: every modelled document is a forest. */
  function ParentOf(t: Tree, n: NodeId): (r: Option<NodeId>)
    ensures r.Some? ==> r.value < n && r.value in t
  {
    if n in t then
      match t[n].parent
      case Some(p) => if p < n && p in t then Some(p) else None
      case None => None
    else None
  }

  /** `c` is `n` itself or one of its ancestors. */
  predicate IsAncestorOrSelf(t: Tree, c: NodeId, n: NodeId)
    decreases n
  {
    n == c || (ParentOf(t, n).Some? && IsAncestorOrSelf(t, c, ParentOf(t, n).value))
  }

  /** The node `k` steps up from `a` (`a` itself for `k == 0`), if any. */
  function Up(t: Tree, a: NodeId, k: nat): Option<NodeId>
    decreases k
  {
    if k == 0 then Some(a)
    else
      match Up(t, a, k - 1)
      case None => None
      case Some(n) => ParentOf(t, n)
  }

  /** The card signature `findCardContainer` looks for: class `card`,
      `assignment-card` or `list-item`, a non-empty `data-assignment`
      attribute (`getAttribute` is truthy), or `role="article"`. */
  predicate IsCardNode(t: Tree, n: NodeId) {
    && n in t
    && var e := t[n];
       || "card" in e.classes
       || "assignment-card" in e.classes
       || "list-item" in e.classes
       || ("data-assignment" in e.attributes && e.attributes["data-assignment"] != "")
       || ("role" in e.attributes && e.attributes["role"] == "article")
  }

  /** The node `k` steps up from `a` exists and is a card. */
  predicate IsCardAt(t: Tree, a: NodeId, k: nat) {
    Up(t, a, k).Some? && IsCardNode(t, Up(t, a, k).value)
  }

  /** The number of nodes the walk examines. */
  const WalkBudget: nat := 6

  /** The loop of `findCardContainer`: from `el`, at most `budget` more
      nodes, stopping at the first card. */
  function Walk(t: Tree, el: Option<NodeId>, budget: nat): Option<NodeId>
    decreases budget
  {
    if budget == 0 then None
    else
      match el
      case None => None
      case Some(n) => if IsCardNode(t, n) then Some(n) else Walk(t, ParentOf(t, n), budget - 1)
  }

  /** `findCardContainer(anchor)`: the first card among the anchor and its
      ancestors, at most six nodes in all; failing that the anchor's parent,
      or the anchor when it has none. */
  function FindCardContainer(t: Tree, a: NodeId): NodeId {
    match Walk(t, Some(a), WalkBudget)
    case Some(c) => c
    case None => ParentOf(t, a).GetOr(a)
  }

  // ---------------------------------------------------------------------
  // The walk against the ancestor path
  // ---------------------------------------------------------------------

  /** Once the path has ended it stays ended. */
  lemma {:induction false} UpNoneStays(t: Tree, a: NodeId, j: nat, k: nat)
    requires j <= k && Up(t, a, j).None?
    ensures Up(t, a, k).None?
    decreases k - j
  {
    if j < k {
      UpNoneStays(t, a, j + 1, k);
    }
  }

  /** The walk from the `j`-th node of the path with budget `b` finds a card
      exactly when one of the nodes `j .. j + b - 1` is a card, and then the
      first of them. */
  lemma WalkFrom(t: Tree, a: NodeId, j: nat, b: nat)
    ensures Walk(t, Up(t, a, j), b).Some? <==> exists k | j <= k < j + b :: IsCardAt(t, a, k)
    ensures forall k | j <= k < j + b && IsCardAt(t, a, k) && (forall i | j <= i < k :: !IsCardAt(t, a, i)) ::
              Walk(t, Up(t, a, j), b) == Up(t, a, k)
  {
    WalkFinds(t, a, j, b);
    WalkFindsFirst(t, a, j, b);
  }

  /** The walk finds a card exactly when one of the nodes it may examine is
      a card. */
  lemma {:induction false} WalkFinds(t: Tree, a: NodeId, j: nat, b: nat)
    ensures Walk(t, Up(t, a, j), b).Some? <==> exists k | j <= k < j + b :: IsCardAt(t, a, k)
    decreases b
  {
    if b > 0 {
      match Up(t, a, j)
      case None =>
        forall k | j <= k < j + b ensures !IsCardAt(t, a, k) {
          UpNoneStays(t, a, j, k);
        }
      case Some(n) =>
        if IsCardNode(t, n) {
          assert IsCardAt(t, a, j);
        } else {
          assert !IsCardAt(t, a, j);
          assert Up(t, a, j + 1) == ParentOf(t, n);
          WalkFinds(t, a, j + 1, b - 1);
        }
    }
  }

  /** What the walk finds is the first card among the nodes it may
      examine. */
  lemma {:induction false} WalkFindsFirst(t: Tree, a: NodeId, j: nat, b: nat)
    ensures forall k | j <= k < j + b && IsCardAt(t, a, k) && (forall i | j <= i < k :: !IsCardAt(t, a, i)) ::
              Walk(t, Up(t, a, j), b) == Up(t, a, k)
    decreases b
  {
    if b > 0 {
      match Up(t, a, j)
      case None =>
        forall k | j <= k < j + b ensures !IsCardAt(t, a, k) {
          UpNoneStays(t, a, j, k);
        }
      case Some(n) =>
        if IsCardNode(t, n) {
          assert IsCardAt(t, a, j);
        } else {
          assert !IsCardAt(t, a, j);
          assert Up(t, a, j + 1) == ParentOf(t, n);
          WalkFindsFirst(t, a, j + 1, b - 1);
        }
    }
  }

  /** `findCardContainer` returns the first card among the first six nodes
      of the path from the anchor upwards; with no card among them, the
      anchor's parent, or the anchor itself. */
  lemma FindCardContainerSpec(t: Tree, a: NodeId)
    ensures forall k | 0 <= k < WalkBudget && IsCardAt(t, a, k) && (forall i | 0 <= i < k :: !IsCardAt(t, a, i)) ::
              Some(FindCardContainer(t, a)) == Up(t, a, k)
    ensures (forall k | 0 <= k < WalkBudget :: !IsCardAt(t, a, k)) ==>
              FindCardContainer(t, a) == ParentOf(t, a).GetOr(a)
  {
    WalkFrom(t, a, 0, WalkBudget);
  }

  /** The parent of an ancestor is an ancestor. */
  lemma {:induction false} AncestorParent(t: Tree, m: NodeId, n: NodeId)
    requires IsAncestorOrSelf(t, m, n) && ParentOf(t, m).Some?
    ensures IsAncestorOrSelf(t, ParentOf(t, m).value, n)
    decreases n
  {
    if n != m {
      AncestorParent(t, m, ParentOf(t, n).value);
    }
  }

  /** Ancestors come earlier in document order. */
  lemma {:induction false} AncestorPrecedes(t: Tree, c: NodeId, n: NodeId)
    requires IsAncestorOrSelf(t, c, n)
    ensures c <= n
    decreases n
  {
    if n != c {
      AncestorPrecedes(t, c, ParentOf(t, n).value);
    }
  }

  /** Every node on the path from `a` is an ancestor of `a` (or `a`). */
  lemma {:induction false} UpIsAncestor(t: Tree, a: NodeId, k: nat)
    requires Up(t, a, k).Some?
    ensures IsAncestorOrSelf(t, Up(t, a, k).value, a)
    decreases k
  {
    if k > 0 {
      UpIsAncestor(t, a, k - 1);
      AncestorParent(t, Up(t, a, k - 1).value, a);
    }
  }

  /** The walk from `Up(a, j)` ends, when it finds something, on a node of
      the path at or above step `j`. */
  lemma {:induction false} WalkOnPath(t: Tree, a: NodeId, j: nat, b: nat)
    ensures Walk(t, Up(t, a, j), b).Some? ==>
              exists k | j <= k :: Up(t, a, k) == Walk(t, Up(t, a, j), b)
    decreases b
  {
    if b > 0 && Up(t, a, j).Some? && !IsCardNode(t, Up(t, a, j).value) {
      assert Up(t, a, j + 1) == ParentOf(t, Up(t, a, j).value);
      WalkOnPath(t, a, j + 1, b - 1);
    }
  }

  /** The container is the anchor or one of its ancestors, and it is the
      anchor itself only when the anchor is a card or has no parent. */
  lemma ContainerIsAncestor(t: Tree, a: NodeId)
    ensures IsAncestorOrSelf(t, FindCardContainer(t, a), a)
    ensures FindCardContainer(t, a) == a ==> IsCardNode(t, a) || ParentOf(t, a).None?
  {
    var w := Walk(t, Some(a), WalkBudget);
    WalkOnPath(t, a, 0, WalkBudget);
    if w.Some? {
      var k :| 0 <= k && Up(t, a, k) == w;
      UpIsAncestor(t, a, k);
      if w.value == a && !IsCardNode(t, a) && ParentOf(t, a).Some? {
        assert Up(t, a, 1) == ParentOf(t, a);
        WalkOnPath(t, a, 1, WalkBudget - 1);
        var k1 :| 1 <= k1 && Up(t, a, k1) == w;
        UpIsAncestor(t, ParentOf(t, a).value, k1 - 1) by {
          UpShift(t, a, k1);
        }
        AncestorPrecedes(t, a, ParentOf(t, a).value) by {
          UpShift(t, a, k1);
        }
      }
    }
  }

  /** The path from `a`, one step in, is the path from `a`'s parent. */
  lemma {:induction false} UpShift(t: Tree, a: NodeId, k: nat)
    requires k >= 1 && ParentOf(t, a).Some?
    ensures Up(t, a, k) == Up(t, ParentOf(t, a).value, k - 1)
    decreases k
  {
    if k > 1 {
      UpShift(t, a, k - 1);
    }
  }

  // ---------------------------------------------------------------------
  // Details blocks
  // ---------------------------------------------------------------------

  /** `container.querySelector('.wm-feed-details-block')` finds something:
      some block sits in the container or below it. */
  predicate HasBlockWithin(doc: Doc, c: NodeId) {
    exists i | 0 <= i < |doc.blocks| :: IsAncestorOrSelf(doc.elements, c, doc.blocks[i].parent)
  }

  /** Some block was inserted right after link `a`. */
  predicate HasBlockAfter(doc: Doc, a: NodeId) {
    exists i | 0 <= i < |doc.blocks| :: doc.blocks[i].placement == AfterLink(a)
  }

  /** `if (anchor.parentElement) anchor.parentElement.insertBefore(block,
      anchor.nextSibling); else container.appendChild(block);` */
  function InsertBlock(doc: Doc, a: NodeId, container: NodeId, rows: seq<(string, string)>): (d: Doc)
    ensures d.elements == doc.elements && |d.blocks| == |doc.blocks| + 1 && d.blocks[..|doc.blocks|] == doc.blocks
    ensures d.blocks[|doc.blocks|].rows == rows
  {
    match ParentOf(doc.elements, a)
    case Some(p) => doc.(blocks := doc.blocks + [Block(p, AfterLink(a), rows)])
    case None => doc.(blocks := doc.blocks + [Block(container, Appended, rows)])
  }

  /** Where a block inserted for link `a` lands relative to the container
      `findCardContainer(a)`: inside it whenever the container is not the
      link itself or the link has no parent; when the link is a card with a
      parent, the block goes next to the link, outside the container, and
      the container's `querySelector` does not see it. */
  lemma InsertedBlockPlacement(doc: Doc, a: NodeId, rows: seq<(string, string)>)
    ensures var c := FindCardContainer(doc.elements, a);
            var d := InsertBlock(doc, a, c, rows);
            && (ParentOf(doc.elements, a).Some? ==> HasBlockAfter(d, a))
            && (c != a || ParentOf(doc.elements, a).None? ==> HasBlockWithin(d, c))
            && (IsCardNode(doc.elements, a) && ParentOf(doc.elements, a).Some? ==>
                  (HasBlockWithin(d, c) <==> HasBlockWithin(doc, c)))
  {
    var t := doc.elements;
    var c := FindCardContainer(t, a);
    var d := InsertBlock(doc, a, c, rows);
    var n := |doc.blocks|;
    ContainerIsAncestor(t, a);
    if IsCardNode(t, a) {
      assert Walk(t, Some(a), WalkBudget) == Some(a);
    }
    match ParentOf(t, a)
    case None =>
      assert d.blocks[n].parent == c;
    case Some(p) =>
      assert d.blocks[n].placement == AfterLink(a);
      if c != a {
        assert d.blocks[n].parent == p;
        StrictAncestorOfParent(t, c, a);
      } else {
        if IsAncestorOrSelf(t, c, p) {
          AncestorPrecedes(t, c, p);
        }
        forall i | 0 <= i < n ensures d.blocks[i] == doc.blocks[i] { }
      }
  }

  /** An ancestor of `n` other than `n` is an ancestor of `n`'s parent. */
  lemma StrictAncestorOfParent(t: Tree, c: NodeId, n: NodeId)
    requires IsAncestorOrSelf(t, c, n) && c != n
    ensures ParentOf(t, n).Some? && IsAncestorOrSelf(t, c, ParentOf(t, n).value)
  {
  }

  /** More blocks never make a container look empty, nor remove a block
      after a link. */
  lemma MoreBlocksKeepSeen(doc: Doc, d: Doc, c: NodeId, a: NodeId)
    requires d.elements == doc.elements && |doc.blocks| <= |d.blocks| && d.blocks[..|doc.blocks|] == doc.blocks
    ensures HasBlockWithin(doc, c) ==> HasBlockWithin(d, c)
    ensures HasBlockAfter(doc, a) ==> HasBlockAfter(d, a)
  {
    if HasBlockWithin(doc, c) {
      var i :| 0 <= i < |doc.blocks| && IsAncestorOrSelf(doc.elements, c, doc.blocks[i].parent);
      assert d.blocks[i] == doc.blocks[i];
    }
    if HasBlockAfter(doc, a) {
      var i :| 0 <= i < |doc.blocks| && doc.blocks[i].placement == AfterLink(a);
      assert d.blocks[i] == doc.blocks[i];
    }
  }
}
