/** The three lookup maps the enricher builds over a payload's item list
    (`buildIndexesFromItems`, workmarket/worker/browse/index.js). */
module FeedIndex {
  import opened Options
  import opened Json
  import opened Sequences

  /** A JavaScript `Map` from string keys to items: `entries` holds the
      current value of each key and `order` the keys in the order they were
      first set, which is the order `Map.prototype.entries()` visits them. */
  datatype KeyedMap = KeyedMap(order: seq<string>, entries: map<string, Json>)

  const EmptyMap := KeyedMap([], map[])

  /** `m.set(k, v)`: a key already present keeps its place and gets the new
      value; a new key goes to the end. */
  function Put(m: KeyedMap, k: string, v: Json): KeyedMap {
    if k in m.entries then KeyedMap(m.order, m.entries[k := v])
    else KeyedMap(m.order + [k], m.entries[k := v])
  }

  /** The three identifying fields an item can be looked up by. */
  datatype Field = Id | Uuid | WorkNumber

  /** The key under which an item is filed in the map for `f`, or None when
      the item stays out of that map: `id` and `workNumber` count whenever
      they are not null or undefined (so `0` and `""` count), `uuid` only
      when it is truthy. The key is `String(value)`. */
  function KeyOf(f: Field, item: Json): (r: Option<string>)
    ensures r.Some? ==> item.JObj?
  {
    match f
    case Id =>
      var v := Get(item, "id");
      if Nullish(v) then None else Some(ToJsString(v.value))
    case Uuid =>
      var v := Get(item, "uuid");
      if Truthy(v) then Some(ToJsString(v.value)) else None
    case WorkNumber =>
      var v := Get(item, "workNumber");
      if Nullish(v) then None else Some(ToJsString(v.value))
  }

  /** The keys the items carry for `f`, in item order, repeats included. */
  function KeysOf(items: seq<Json>, f: Field): seq<string>
    decreases |items|
  {
    if |items| == 0 then []
    else
      var front := KeysOf(items[..|items| - 1], f);
      match KeyOf(f, items[|items| - 1])
      case None => front
      case Some(k) => front + [k]
  }

  /** One map of the index, as the single pass over the items leaves it. */
  function IndexBy(items: seq<Json>, f: Field): KeyedMap
    decreases |items|
  {
    if |items| == 0 then EmptyMap
    else
      var m := IndexBy(items[..|items| - 1], f);
      match KeyOf(f, items[|items| - 1])
      case None => m
      case Some(k) => Put(m, k, items[|items| - 1])
  }

  datatype Indexes = Indexes(byId: KeyedMap, byUuid: KeyedMap, byWorkNumber: KeyedMap)

  /** `buildIndexesFromItems(items)`. */
  function BuildIndexes(items: seq<Json>): Indexes {
    Indexes(IndexBy(items, Id), IndexBy(items, Uuid), IndexBy(items, WorkNumber))
  }

  function MapFor(ix: Indexes, f: Field): KeyedMap {
    match f
    case Id => ix.byId
    case Uuid => ix.byUuid
    case WorkNumber => ix.byWorkNumber
  }

  /** No later item carries the key that item `i` carries for `f`. */
  predicate LastWithKey(items: seq<Json>, f: Field, i: nat)
    requires i < |items|
  {
    forall j | i < j < |items| :: KeyOf(f, items[j]) != KeyOf(f, items[i])
  }

  /** A key appears in the key list exactly when some item carries it. */
  lemma KeysOfSpec(items: seq<Json>, f: Field)
    ensures forall k :: k in KeysOf(items, f) <==> exists i | 0 <= i < |items| :: KeyOf(f, items[i]) == Some(k)
  {
    KeysOfHas(items, f);
    forall k | k in KeysOf(items, f) ensures exists i | 0 <= i < |items| :: KeyOf(f, items[i]) == Some(k) {
      var i := KeysOfCarrier(items, f, k);
    }
  }

  /** Every key an item carries is in the key list. */
  lemma {:induction false} KeysOfHas(items: seq<Json>, f: Field)
    ensures forall i | 0 <= i < |items| && KeyOf(f, items[i]).Some? :: KeyOf(f, items[i]).value in KeysOf(items, f)
    decreases |items|
  {
    if |items| > 0 {
      var front := items[..|items| - 1];
      KeysOfHas(front, f);
      forall i | 0 <= i < |front| && KeyOf(f, items[i]).Some?
        ensures KeyOf(f, items[i]).value in KeysOf(items, f)
      {
        assert items[i] == front[i];
      }
    }
  }

  /** An item carrying a key of the key list. */
  lemma {:induction false} KeysOfCarrier(items: seq<Json>, f: Field, k: string) returns (i: nat)
    requires k in KeysOf(items, f)
    ensures i < |items| && KeyOf(f, items[i]) == Some(k)
    decreases |items|
  {
    var front := items[..|items| - 1];
    if KeyOf(f, items[|items| - 1]) == Some(k) {
      i := |items| - 1;
    } else {
      i := KeysOfCarrier(front, f, k);
      assert items[i] == front[i];
    }
  }

  /** The key order of one map is the order in which keys first occur
      among the items (a repeated key keeps its first position), and the
      map holds exactly the keys of that order. */
  lemma {:induction false} IndexByOrder(items: seq<Json>, f: Field)
    ensures IndexBy(items, f).order == Dedup(KeysOf(items, f))
    ensures forall k :: k in IndexBy(items, f).entries <==> k in IndexBy(items, f).order
    decreases |items|
  {
    if |items| > 0 {
      var front := items[..|items| - 1];
      IndexByOrder(front, f);
      match KeyOf(f, items[|items| - 1])
      case None =>
      case Some(k) =>
        var ks := KeysOf(items, f);
        assert ks[..|ks| - 1] == KeysOf(front, f);
    }
  }

  /** The values of one map: every item's key is present, the value stored
      under a key is the LAST item carrying it, and every stored value is an
      object carrying the key it is stored under. */
  lemma IndexByValues(items: seq<Json>, f: Field)
    ensures forall i | 0 <= i < |items| && KeyOf(f, items[i]).Some? ::
              KeyOf(f, items[i]).value in IndexBy(items, f).entries
    ensures forall i | 0 <= i < |items| && KeyOf(f, items[i]).Some? && LastWithKey(items, f, i) ::
              IndexBy(items, f).entries[KeyOf(f, items[i]).value] == items[i]
    ensures forall k | k in IndexBy(items, f).entries ::
              IndexBy(items, f).entries[k].JObj? && KeyOf(f, IndexBy(items, f).entries[k]) == Some(k)
  {
    IndexByHasKeys(items, f);
    IndexByLast(items, f);
    IndexByObjects(items, f);
  }

  /** Every item's key is present. */
  lemma {:induction false} IndexByHasKeys(items: seq<Json>, f: Field)
    ensures forall i | 0 <= i < |items| && KeyOf(f, items[i]).Some? ::
              KeyOf(f, items[i]).value in IndexBy(items, f).entries
    decreases |items|
  {
    if |items| > 0 {
      var front := items[..|items| - 1];
      IndexByHasKeys(front, f);
      forall i | 0 <= i < |front| && KeyOf(f, items[i]).Some?
        ensures KeyOf(f, items[i]).value in IndexBy(items, f).entries
      {
        assert items[i] == front[i];
      }
    }
  }

  /** The value stored under a key is the last item carrying it. */
  lemma {:induction false} IndexByLast(items: seq<Json>, f: Field)
    ensures forall i | 0 <= i < |items| && KeyOf(f, items[i]).Some? && LastWithKey(items, f, i) ::
              && KeyOf(f, items[i]).value in IndexBy(items, f).entries
              && IndexBy(items, f).entries[KeyOf(f, items[i]).value] == items[i]
    decreases |items|
  {
    if |items| > 0 {
      var front := items[..|items| - 1];
      IndexByLast(front, f);
      forall i | 0 <= i < |front| && KeyOf(f, items[i]).Some? && LastWithKey(items, f, i)
        ensures && KeyOf(f, items[i]).value in IndexBy(items, f).entries
                && IndexBy(items, f).entries[KeyOf(f, items[i]).value] == items[i]
      {
        LastWithKeyOfFront(items, f, i);
      }
    }
  }

  /** Every stored value is an object carrying the key it is stored
      under. */
  lemma {:induction false} IndexByObjects(items: seq<Json>, f: Field)
    ensures forall k | k in IndexBy(items, f).entries ::
              IndexBy(items, f).entries[k].JObj? && KeyOf(f, IndexBy(items, f).entries[k]) == Some(k)
    decreases |items|
  {
    if |items| > 0 {
      IndexByObjects(items[..|items| - 1], f);
    }
  }

  /** An item that is last with its key among all items is last among the
      items before the final one, and its key differs from the final item's. */
  lemma LastWithKeyOfFront(items: seq<Json>, f: Field, i: nat)
    requires i + 1 < |items| && LastWithKey(items, f, i)
    ensures LastWithKey(items[..|items| - 1], f, i)
    ensures KeyOf(f, items[|items| - 1]) != KeyOf(f, items[i])
    ensures items[..|items| - 1][i] == items[i]
  {
  }

  /** The three maps of `BuildIndexes` together: an item enters `byId` and
      `byWorkNumber` exactly when that field is not null/undefined and
      `byUuid` exactly when `uuid` is truthy, each key is `String(field)`,
      and a later item with the same key replaces the earlier one. */
  lemma BuildIndexesSpec(items: seq<Json>, f: Field, i: nat)
    requires i < |items| && LastWithKey(items, f, i)
    ensures f != Uuid ==> (KeyOf(f, items[i]).Some? <==> !Nullish(Get(items[i], if f == Id then "id" else "workNumber")))
    ensures f == Uuid ==> (KeyOf(f, items[i]).Some? <==> Truthy(Get(items[i], "uuid")))
    ensures KeyOf(f, items[i]).Some? ==>
              KeyOf(f, items[i]).value in MapFor(BuildIndexes(items), f).entries
              && MapFor(BuildIndexes(items), f).entries[KeyOf(f, items[i]).value] == items[i]
  {
    IndexByValues(items, f);
  }

  /** Every item found in any of the three maps is an object, so it is
      truthy: once a lookup succeeds, a later `!matched` test fails. */
  lemma IndexedItemsAreObjects(items: seq<Json>, f: Field, k: string)
    requires k in MapFor(BuildIndexes(items), f).entries
    ensures MapFor(BuildIndexes(items), f).entries[k].JObj?
    ensures Truthy(Some(MapFor(BuildIndexes(items), f).entries[k]))
  {
    IndexByValues(items, f);
  }
}
