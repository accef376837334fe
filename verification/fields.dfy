/** The display fields of a matched item and the rows of the details
    block: `extractFields` and `buildInfoBlock`
    (workmarket/worker/browse/index.js). */
module Fields {
  import opened Options
  import opened Json

  /** `item.k0 ?? item.k1 ?? ... ?? null`. */
  function FirstNonNullish(item: Json, keys: seq<string>): (r: Json)
    ensures r == JNull <==> forall i | 0 <= i < |keys| :: Nullish(Get(item, keys[i]))
    ensures r != JNull ==>
              exists i | 0 <= i < |keys| :: Get(item, keys[i]) == Some(r)
                                          && forall j | 0 <= j < i :: Nullish(Get(item, keys[j]))
    decreases |keys|
  {
    if |keys| == 0 then JNull
    else
      var v := Get(item, keys[0]);
      if !Nullish(v) then v.value
      else
        var r := FirstNonNullish(item, keys[1..]);
        assert forall i | 1 <= i < |keys| :: keys[i] == keys[1..][i - 1];
        r
  }

  /** `v?.[0]`: the first element of an array, the first character of a
      string, the property "0" of an object; undefined otherwise. */
  function Index0(v: Json): (r: Option<Json>)
    ensures v.JArr? && |v.elems| > 0 ==> r == Some(v.elems[0])
    ensures v.JNull? || v.JBool? || v.JNum? ==> r.None?
  {
    match v
    case JArr(xs) => if |xs| > 0 then Some(xs[0]) else None
    case JStr(s) => if |s| > 0 then Some(JStr([s[0]])) else None
    case JObj(fs) => if "0" in fs then Some(fs["0"]) else None
    case _ => None
  }

  /** The text shown for an item flagged `assignToFirstResource: true`. */
  const AssignToFirstSentinel := "(assignToFirstResource:true)"

  /** The fields of the details block; a null field renders as a dash. */
  datatype Info = Info(
    workOrder: Json,
    spendLimit: Json,
    pricingType: Json,
    companyName: Json,
    company: Json,
    assignedToFirst: Json)

  /** `item.assignToFirstResource === true ? sentinel
      : (item.assignedTo?.[0]?.name ?? item.assignedTo?.[0] ?? null)`. */
  function AssignedToFirst(item: Json): Json {
    if Get(item, "assignToFirstResource") == Some(JBool(true)) then JStr(AssignToFirstSentinel)
    else
      var first := match Get(item, "assignedTo") case None => None case Some(a) => Index0(a);
      var name := match first case None => None case Some(f) => Get(f, "name");
      if !Nullish(name) then name.value
      else if !Nullish(first) then first.value
      else JNull
  }

  /** `extractFields(item)`. The source returns `{}` for a falsy item; every
      field of `{}` is undefined, which is also what the general case gives
      for a value that is not an object, so no separate branch is needed. */
  function ExtractFields(item: Json): Info {
    Info(
      FirstNonNullish(item, ["workNumber"]),
      FirstNonNullish(item, ["spendLimit", "spend_limit", "budget"]),
      FirstNonNullish(item, ["pricingType", "pricing_type", "pricing"]),
      FirstNonNullish(item, ["companyName", "company_name"]),
      FirstNonNullish(item, ["company", "client"]),
      AssignedToFirst(item))
  }

  /** The dash a null or undefined value renders as. */
  const Dash := "\U{2014}"

  /** `(v !== null && v !== undefined) ? String(v) : '—'`. */
  function Render(v: Json): (r: string)
    ensures v.JNull? ==> r == Dash
    ensures v.JStr? ==> r == v.s
  {
    if v.JNull? then Dash else ToJsString(v)
  }

  /** The labels of the six rows, in display order. */
  const Labels: seq<string> := ["Work order", "Spend limit", "Pricing type", "Company name", "Company", "Assigned to (first resource)"]

  /** The label/value rows of `buildInfoBlock(info)` (each label is shown
      followed by ": "). */
  function Rows(info: Info): (rows: seq<(string, string)>)
    ensures |rows| == |Labels|
    ensures forall i | 0 <= i < |rows| :: rows[i].0 == Labels[i]
  {
    [("Work order", Render(info.workOrder)),
     ("Spend limit", Render(info.spendLimit)),
     ("Pricing type", Render(info.pricingType)),
     ("Company name", Render(info.companyName)),
     ("Company", Render(info.company)),
     ("Assigned to (first resource)", Render(info.assignedToFirst))]
  }

  /** The assignee row: the sentinel whenever the flag is the boolean
      `true` (a string "true" or the number 1 does not count); otherwise the
      first assignee's `name`, else the first assignee itself, else null,
      which is also what a missing, empty or non-array `assignedTo` gives. */
  lemma AssignedToFirstSpec(item: Json)
    ensures Get(item, "assignToFirstResource") == Some(JBool(true)) ==> AssignedToFirst(item) == JStr(AssignToFirstSentinel)
    ensures Get(item, "assignedTo").None? && Get(item, "assignToFirstResource") != Some(JBool(true)) ==>
              AssignedToFirst(item) == JNull
    ensures forall xs: seq<Json>, name: Json |
              && Get(item, "assignToFirstResource") != Some(JBool(true))
              && Get(item, "assignedTo") == Some(JArr(xs)) && |xs| > 0
              && Get(xs[0], "name") == Some(name) && name != JNull ::
              AssignedToFirst(item) == name
    ensures forall xs: seq<Json> |
              && Get(item, "assignToFirstResource") != Some(JBool(true))
              && Get(item, "assignedTo") == Some(JArr(xs)) && |xs| > 0 && Nullish(Get(xs[0], "name")) ::
              AssignedToFirst(item) == xs[0]
    ensures Get(item, "assignToFirstResource") != Some(JBool(true))
            && (Get(item, "assignedTo").None? || Index0(Get(item, "assignedTo").value).None?) ==>
              AssignedToFirst(item) == JNull
  {
  }

  /** Each field falls back along its list of property names and is null
      only when all of them are null or missing; the rows show a dash for
      exactly the null fields. */
  lemma ExtractFieldsSpec(item: Json)
    ensures var info := ExtractFields(item);
            && (info.spendLimit == JNull <==>
                  Nullish(Get(item, "spendLimit")) && Nullish(Get(item, "spend_limit")) && Nullish(Get(item, "budget")))
            && (!Nullish(Get(item, "spendLimit")) ==> Some(info.spendLimit) == Get(item, "spendLimit"))
            && (Nullish(Get(item, "spendLimit")) && !Nullish(Get(item, "spend_limit")) ==>
                  Some(info.spendLimit) == Get(item, "spend_limit"))
            && (Nullish(Get(item, "spendLimit")) && Nullish(Get(item, "spend_limit")) ==>
                  info.spendLimit == (if Nullish(Get(item, "budget")) then JNull else Get(item, "budget").value))
            && (info.workOrder == JNull <==> Nullish(Get(item, "workNumber")))
            && (!Nullish(Get(item, "workNumber")) ==> Some(info.workOrder) == Get(item, "workNumber"))
            && (info.companyName == JNull <==> Nullish(Get(item, "companyName")) && Nullish(Get(item, "company_name")))
            && (info.company == JNull <==> Nullish(Get(item, "company")) && Nullish(Get(item, "client")))
            && (info.pricingType == JNull <==>
                  Nullish(Get(item, "pricingType")) && Nullish(Get(item, "pricing_type")) && Nullish(Get(item, "pricing")))
  {
    var info := ExtractFields(item);
    var sl := ["spendLimit", "spend_limit", "budget"];
    assert sl[0] == "spendLimit" && sl[1] == "spend_limit" && sl[2] == "budget";
    var pt := ["pricingType", "pricing_type", "pricing"];
    assert pt[0] == "pricingType" && pt[1] == "pricing_type" && pt[2] == "pricing";
    var cn := ["companyName", "company_name"];
    assert cn[0] == "companyName" && cn[1] == "company_name";
    var co := ["company", "client"];
    assert co[0] == "company" && co[1] == "client";
    var wn := ["workNumber"];
    assert wn[0] == "workNumber";
  }

  /** A row shows a dash exactly for a null field, and the field's string
      form otherwise. */
  lemma RowsSpec(info: Info)
    ensures var rows := Rows(info);
            var vals := [info.workOrder, info.spendLimit, info.pricingType, info.companyName, info.company, info.assignedToFirst];
            forall i | 0 <= i < 6 ::
              && (vals[i] == JNull ==> rows[i].1 == Dash)
              && (vals[i] != JNull ==> rows[i].1 == ToJsString(vals[i]))
  {
  }
}
