/** `parseDetailsPage(htmlString, id)` (workmarket/assignments/index.js):
    the record built for one assignment from its details page. What the
    browser does with the page (DOM parsing, CSS selectors, entity decoding,
    the `<li>`/`<p>`/`<br>` rewriting of `cleanHtml`, `JSON.parse` and date
    formatting) is given as a `Browser` value. */
module Details {
  import opened Options
  import opened Text
  import opened Json
  import opened BlankLines
  import opened ToolsSplit
  import opened WorkEncoded

  const DetailsPrefix := "https://www.workmarket.com/assignments/details/"

  /** The details page of an assignment. */
  function DetailsUrl(id: string): (u: string)
    ensures |u| == |DetailsPrefix| + |id|
    ensures u[..|DetailsPrefix|] == DetailsPrefix && u[|DetailsPrefix|..] == id
  {
    DetailsPrefix + id
  }

  /** What the page's selectors find: the header text without its `<small>`
      part, the first line of the location, the company link text, and
      `getText('#desc-text')`; each is "Not found" when its element is
      missing. */
  datatype PageView = PageView(title: string, location: string, company: string, descText: string)

  /** The browser services the parser calls. `renderText` decodes HTML
      entities and rewrites the markup as `cleanHtml` does, giving the text
      content, or the message of what it threw; `parseJson` is `JSON.parse`
      (None when it throws); `formatDate` is
      `new Date(v).toLocaleString()`, which throws when `v` is an object that
      converts to no primitive value. */
  datatype Browser = Browser(
    view: string -> PageView,
    parseJson: string -> Option<Json>,
    renderText: string -> Outcome<string>,
    formatDate: Json -> Outcome<string>)

  /** The returned record. A pay field is None when the work data's
      `pricing` object lacks that property (it is then `undefined`). */
  datatype Details = Details(
    id: string,
    url: string,
    status: string,
    title: string,
    company: string,
    location: string,
    startDate: string,
    payType: Option<Json>,
    payRate: Option<Json>,
    maxHours: Option<Json>,
    maxSpend: Option<Json>,
    description: string,
    requiredTools: string)

  /** `cleanHtml(decodeHtmlEntities(html))`. */
  function CleanHtml(b: Browser, html: string): (r: Outcome<string>)
    ensures r.Ok? <==> b.renderText(html).Ok?
    ensures r.Ok? ==> r.value == CleanText(b.renderText(html).value)
  {
    match b.renderText(html)
    case Ok(content) => Ok(CleanText(content))
    case Thrown(m) => Thrown(m)
  }

  /** The record before the work data is read: the found texts, and
      "Not found" or 0 everywhere else. */
  function Defaults(id: string, v: PageView): Details {
    Details(id, DetailsUrl(id), "Succeeded", v.title, v.company, v.location, NotFound,
            Some(JStr(NotFound)), Some(JNum(0)), Some(JNum(0)), Some(JNum(0)), NotFound, NotFound)
  }

  /** The description and tools from the work data: split from the cleaned
      description when it is truthy, left at "Not found" otherwise; None
      when cleaning it threw. */
  function DescriptionOf(b: Browser, w: Json): (r: Option<(string, string)>)
    ensures !Truthy(Get(w, "description")) ==> r == Some((NotFound, NotFound))
    ensures r.Some? && Truthy(Get(w, "description")) ==>
              CleanHtml(b, ToJsString(Get(w, "description").value)).Ok?
              && r.value == SplitTools(CleanHtml(b, ToJsString(Get(w, "description").value)).value)
    ensures r.None? <==> Truthy(Get(w, "description")) && CleanHtml(b, ToJsString(Get(w, "description").value)).Thrown?
    ensures r.Some? ==> IsTrimmed(r.value.0) && IsTrimmed(r.value.1)
  {
    var desc := Get(w, "description");
    if Truthy(desc) then
      match CleanHtml(b, ToJsString(desc.value))
      case Ok(clean) => Some(SplitTools(clean))
      case Thrown(_) => None
    else Some((NotFound, NotFound))
  }

  /** How far reading the work data got: every step done, or a step threw
      and the record holds what was assigned before it. */
  datatype Reading = Read(record: Details) | Interrupted(record: Details)

  /** The value `new Date` is given, when the work data has a truthy
      `schedule` with a truthy `from`. */
  function ScheduleFrom(w: Json): Option<Json> {
    var schedule := Get(w, "schedule");
    if Truthy(schedule) && Truthy(Get(schedule.value, "from")) then Get(schedule.value, "from") else None
  }

  /** Formatting the start date throws. */
  predicate DateThrows(b: Browser, w: Json) {
    ScheduleFrom(w).Some? && b.formatDate(ScheduleFrom(w).value).Thrown?
  }

  /** The pay fields a truthy `pricing` sets, whatever it holds. */
  predicate PayFrom(d: Details, base: Details, w: Json) {
    var pricing := Get(w, "pricing");
    if Truthy(pricing) then
      d.payType == Get(pricing.value, "type") && d.payRate == Get(pricing.value, "perHourPrice")
      && d.maxHours == Get(pricing.value, "maxNumberOfHours") && d.maxSpend == Get(pricing.value, "maxSpendLimit")
    else
      d.payType == base.payType && d.payRate == base.payRate
      && d.maxHours == base.maxHours && d.maxSpend == base.maxSpend
  }

  /** The work data read in order: description and tools, then the pay
      fields when `pricing` is truthy, then the start date when
      `schedule.from` is truthy. Cleaning the description throwing
      interrupts with nothing assigned; formatting the date throwing
      interrupts after the description, tools and pay fields. */
  function FromWorkData(b: Browser, base: Details, w: Json): (r: Reading)
    ensures r.Interrupted? <==> DescriptionOf(b, w).None? || DateThrows(b, w)
    ensures DescriptionOf(b, w).None? ==> r.record == base
    ensures DescriptionOf(b, w).Some? ==>
              (r.record.description, r.record.requiredTools) == DescriptionOf(b, w).value
              && PayFrom(r.record, base, w)
    ensures r.Read? && ScheduleFrom(w).Some? ==> r.record.startDate == b.formatDate(ScheduleFrom(w).value).value
    ensures r.Interrupted? || ScheduleFrom(w).None? ==> r.record.startDate == base.startDate
    ensures r.record.(startDate := base.startDate, payType := base.payType, payRate := base.payRate,
                      maxHours := base.maxHours, maxSpend := base.maxSpend,
                      description := base.description, requiredTools := base.requiredTools) == base
  {
    match DescriptionOf(b, w)
    case None => Interrupted(base)
    case Some(split) =>
      var d := base.(description := split.0, requiredTools := split.1);
      var pricing := Get(w, "pricing");
      var d := if Truthy(pricing) then
          d.(payType := Get(pricing.value, "type"),
             payRate := Get(pricing.value, "perHourPrice"),
             maxHours := Get(pricing.value, "maxNumberOfHours"),
             maxSpend := Get(pricing.value, "maxSpendLimit"))
        else d;
      match ScheduleFrom(w)
      case None => Read(d)
      case Some(from) =>
        match b.formatDate(from)
        case Ok(date) => Read(d.(startDate := date))
        case Thrown(_) => Interrupted(d)
  }

  /** The work data of a page: the object `JSON.parse` makes of the
      embedded text, unless there is none, parsing throws, or it is null
      (reading a property of null throws). */
  function WorkObject(b: Browser, html: string): (r: Option<Json>)
    ensures r.Some? ==> WorkData(html).Some? && b.parseJson(WorkData(html).value) == r && r.value != JNull
    ensures WorkData(html).None? ==> r.None?
  {
    match WorkData(html)
    case None => None
    case Some(text) =>
      match b.parseJson(text)
      case None => None
      case Some(w) => if w == JNull then None else Some(w)
  }

  /** `parseDetailsPage(html, id)`. Without usable work data, or when
      reading it threw, the description falls back to the cleaned
      `#desc-text` and the other fields keep what was assigned; what that
      cleaning throws leaves the function. */
  function ParseDetails(b: Browser, html: string, id: string): (r: Outcome<Details>)
    ensures r.Ok? ==> r.value.id == id && r.value.url == DetailsUrl(id) && r.value.status == "Succeeded"
    ensures r.Ok? ==> r.value.title == b.view(html).title && r.value.company == b.view(html).company
                      && r.value.location == b.view(html).location
    ensures r.Thrown? ==> CleanHtml(b, b.view(html).descText).Thrown?
    ensures r.Ok? ==> IsTrimmed(r.value.description) && IsTrimmed(r.value.requiredTools)
  {
    var v := b.view(html);
    var base := Defaults(id, v);
    var reading := match WorkObject(b, html) case None => Interrupted(base) case Some(w) => FromWorkData(b, base, w);
    match reading
    case Read(d) => Ok(d)
    case Interrupted(d) =>
      match CleanHtml(b, v.descText)
      case Ok(t) => Ok(d.(description := t))
      case Thrown(m) => Thrown(m)
  }

  // ---------------------------------------------------------------------
  // Properties
  // ---------------------------------------------------------------------

  /** With usable work data whose description cleans and whose start date
      formats without throwing, the record is the one built from the work
      data. */
  lemma ParseWithWorkData(b: Browser, html: string, id: string, w: Json)
    requires WorkObject(b, html) == Some(w) && DescriptionOf(b, w).Some? && !DateThrows(b, w)
    ensures ParseDetails(b, html, id) == Ok(FromWorkData(b, Defaults(id, b.view(html)), w).record)
  {
  }

  /** When formatting the start date throws, the `catch` keeps the tools and
      pay fields already read from the work data, leaves the start date at
      "Not found", and replaces only the description, with the cleaned
      `#desc-text`. */
  lemma DateThrowRecord(b: Browser, html: string, id: string, w: Json)
    requires WorkObject(b, html) == Some(w) && DescriptionOf(b, w).Some? && DateThrows(b, w)
    ensures var v := b.view(html);
            match CleanHtml(b, v.descText)
            case Thrown(m) => ParseDetails(b, html, id) == Thrown(m)
            case Ok(t) =>
              && ParseDetails(b, html, id).Ok?
              && var d := ParseDetails(b, html, id).value;
              && d.description == t
              && d.requiredTools == DescriptionOf(b, w).value.1
              && d.startDate == NotFound
              && PayFrom(d, Defaults(id, v), w)
  {
  }

  /** The tools are set only from embedded work data whose description,
      once cleaned, holds the "Required Tools:" heading; in every other case
      they stay "Not found". */
  lemma ToolsNeedHeading(b: Browser, html: string, id: string)
    requires ParseDetails(b, html, id).Ok?
    requires ParseDetails(b, html, id).value.requiredTools != NotFound
    ensures WorkObject(b, html).Some?
    ensures var w := WorkObject(b, html).value;
            && Truthy(Get(w, "description"))
            && CleanHtml(b, ToJsString(Get(w, "description").value)).Ok?
            && HasTools(CleanHtml(b, ToJsString(Get(w, "description").value)).value)
  {
  }

  /** Without usable work data (none embedded, `JSON.parse` throwing or
      giving null), or when cleaning its description threw, the record holds
      the defaults except for the description, which is the cleaned
      `#desc-text`. */
  lemma FallbackRecord(b: Browser, html: string, id: string)
    requires WorkObject(b, html).None? || DescriptionOf(b, WorkObject(b, html).value).None?
    ensures var v := b.view(html);
            ParseDetails(b, html, id) ==
              match CleanHtml(b, v.descText)
              case Ok(t) => Ok(Defaults(id, v).(description := t))
              case Thrown(m) => Thrown(m)
  {
  }

  /** Text that is already clean is left as it is. */
  lemma CleanTextOfClean(text: string)
    requires NoBlankLine(text) && IsTrimmed(text)
    ensures CleanText(text) == text
  {
    CollapseOfClean(text, 0);
    assert text[0..] == text;
    TrimOfTrimmed(text);
  }

  /** A string description rendered as heading-free text, "Required
      Tools:" and heading-free text splits back into the two texts. */
  lemma DescriptionRoundTrip(b: Browser, w: Json, content: string, pre: string, tools: string)
    requires Get(w, "description") == Some(JStr(content)) && content != ""
    requires b.renderText(content) == Ok(pre + ToolsMarker + tools)
    requires NoBlankLine(pre + ToolsMarker + tools) && IsTrimmed(pre + ToolsMarker + tools)
    requires !HasTools(pre) && !HasTools(tools)
    ensures DescriptionOf(b, w) == Some((Trim(RemoveFirst(pre, ScopeMarker)), Trim(tools)))
  {
    var text := pre + ToolsMarker + tools;
    CleanHtmlOfClean(b, content, text);
    DescriptionOfString(b, w, content, text);
    SplitToolsRoundTrip(pre, tools);
  }

  /** A non-empty string description is split once cleaned. */
  lemma DescriptionOfString(b: Browser, w: Json, content: string, text: string)
    requires Get(w, "description") == Some(JStr(content)) && content != ""
    requires CleanHtml(b, content) == Ok(text)
    ensures DescriptionOf(b, w) == Some(SplitTools(text))
  {
  }

  /** Markup that renders to clean text is cleaned to that text. */
  lemma CleanHtmlOfClean(b: Browser, html: string, text: string)
    requires b.renderText(html) == Ok(text) && NoBlankLine(text) && IsTrimmed(text)
    ensures CleanHtml(b, html) == Ok(text)
  {
    CleanTextOfClean(text);
  }

  /** A page whose work data has a string description written as
      heading-free text, "Required Tools:" and heading-free text yields that
      text back: the description from the first part, the tools from the
      second, both trimmed. */
  lemma ToolsRoundTrip(b: Browser, html: string, id: string, content: string, pre: string, tools: string)
    requires WorkObject(b, html).Some?
    requires Get(WorkObject(b, html).value, "description") == Some(JStr(content)) && content != ""
    requires b.renderText(content) == Ok(pre + ToolsMarker + tools)
    requires NoBlankLine(pre + ToolsMarker + tools) && IsTrimmed(pre + ToolsMarker + tools)
    requires !HasTools(pre) && !HasTools(tools)
    ensures !DateThrows(b, WorkObject(b, html).value) ==>
              && ParseDetails(b, html, id).Ok?
              && ParseDetails(b, html, id).value.description == Trim(RemoveFirst(pre, ScopeMarker))
    ensures ParseDetails(b, html, id).Ok? ==> ParseDetails(b, html, id).value.requiredTools == Trim(tools)
  {
    var w := WorkObject(b, html).value;
    DescriptionRoundTrip(b, w, content, pre, tools);
    if !DateThrows(b, w) {
      ParseWithWorkData(b, html, id, w);
    }
  }

  /** Different ids give different urls. */
  lemma DetailsUrlInjective(a: string, b: string)
    requires DetailsUrl(a) == DetailsUrl(b)
    ensures a == b
  {
    assert a == DetailsUrl(a)[|DetailsPrefix|..];
  }
}
