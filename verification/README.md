# WorkMarket userscripts: a Dafny model of their decision logic

This project models the pure decision logic of two browser userscripts for
WorkMarket and proves properties of it.

**The Browse Work enricher** (`workmarket/worker/browse/index.js`) reacts to
each captured `/feed/firehose` response:

- it turns the response body into a payload (`tryParse(text) ?? text`);
- it records the payload (`emitPayload`);
- it normalises the payload to an item list and indexes the items by `id`,
  `uuid` and `workNumber`;
- it resolves every rendered assignment link to an item through an ordered
  chain of rules;
- it inserts a "Feed details" block next to each matched link whose card
  container does not hold one yet;
- it keeps three overlay counters.

**The assignments scraper** (`workmarket/assignments/index.js`):

- collects the `Assign. ID:` numbers of a page, without duplicates;
- fetches and parses every details page in turn, tallying successes and
  failures;
- builds each record from the `workEncoded` object embedded in the page;
- splits the cleaned description at the `Required Tools:` heading and
  collapses blank lines.

Modules follow the two programs:

| module | models |
|---|---|
| `Json` | decoded JSON values, `v.key`, `??`/truthiness, `String(v)` |
| `Text` | `\d`, `\s`, ASCII case folding, `indexOf`-style search, `replace`, `trim`, decimal text |
| `Sequences` | insertion-ordered de-duplication (a `Set` or a `Map`'s key order) |
| `FeedIndex` | `buildIndexesFromItems`, with JavaScript `Map` key order |
| `DigitRuns` | `getNumericId` and the `/(\d{6,})/g` work-number candidate |
| `Fields` | `extractFields` and the rows of `buildInfoBlock` |
| `Dom` | the page tree, `findCardContainer`, block insertion and `querySelector` |
| `Matching` | the four-rule matching chain |
| `Enricher` | `augmentFromPayload`: normalisation, injection, counters, idempotence |
| `PayloadStore` | `tryParse`/`emitPayload`, the stored-payload run and `runNow` |
| `AssignmentIds` | `getAssignmentIds` |
| `BlankLines` | `content.replace(/\n\s*\n/g, '\n').trim()` |
| `ToolsSplit` | the description/tools split |
| `WorkEncoded` | the `workEncoded:\s*({[\s\S]*?}),\s*authEncoded:` match |
| `Details` | `parseDetailsPage` |
| `Batch` | `fetchAssignmentDetails` and the `fetchAllDetails` loop |

How JavaScript semantics are modelled:

- Regular expressions are modelled by their leftmost-match semantics. A
  function tries the expression at one index, and another finds the first
  index where it matches.
- JavaScript `Map` insertion order is modelled as a key sequence next to the
  entries. `set` on a present key keeps the key's place.
- Whatever a JavaScript call may throw becomes an `Outcome` value, `Ok` or
  `Thrown(message)`.

The matching order is the one the code uses: the id lookup, then the uuid
lookup (both keyed by `getNumericId(href)`, the last run of digits in the
href), then the first run of six or more digits (href, then text) in
`byWorkNumber`, then the substring scan over the `byWorkNumber` keys.

## Model

| member | source | states |
|---|---|---|
| Json.Get | workmarket/worker/browse/index.js:244-246 | a property read yields a value exactly when the value is an object that has the key; primitives and arrays give `undefined` |
| Json.ToJsString | workmarket/worker/browse/index.js:244-246 | `String(v)` of a string is the string itself, and of a non-negative integer is a non-empty run of digits |
| Text.DigitRunEnd | workmarket/worker/browse/index.js:238 | the end of the maximal run of `\d` characters from an index: everything before it is a digit and the character at it is not |
| Text.SpaceRunEnd | workmarket/assignments/index.js:151 | the end of what a greedy `\s*` consumes: all white space before it, none at it |
| Text.FindFrom | workmarket/assignments/index.js:316-317 | the leftmost occurrence at or after an index, under exact or ASCII-case-insensitive comparison; None exactly when there is no occurrence there |
| Text.OccursExactlyIff | workmarket/worker/browse/index.js:334 | `includes` at an index is the same as a slice equal to the pattern |
| Text.RemoveFirst | workmarket/assignments/index.js:319 | `replace` with a string pattern changes nothing when the pattern is absent and otherwise removes one copy of it |
| Text.Trim | workmarket/assignments/index.js:319-322 | the result is trimmed and is a slice of the input with only white space cut off at either end |
| Text.TrimCut | workmarket/assignments/index.js:265 | the two cuts of `trim` leave white space outside and a trimmed slice between |
| Text.NatToDecimal | workmarket/assignments/index.js:195 | the decimal text of a status code is a non-empty digit string without leading zeros |
| Text.DecimalRoundTrip | workmarket/assignments/index.js:195 | reading back the decimal text of a number gives the number |
| Sequences.DedupSpec | workmarket/assignments/index.js:149-174 | the `Set`'s contents have no duplicates, hold exactly the values added, and list them in order of first appearance |
| Sequences.DedupOfDistinct | workmarket/assignments/index.js:170-174 | adding distinct values to a `Set` and reading it back gives them unchanged |
| FeedIndex.KeyOf | workmarket/worker/browse/index.js:244-246 | only an object is ever filed under a key |
| FeedIndex.KeysOfSpec | workmarket/worker/browse/index.js:242-248 | a key is offered to a map exactly when some item carries it |
| FeedIndex.KeysOfHas | workmarket/worker/browse/index.js:242-248 | every key an item carries is offered to the map |
| FeedIndex.KeysOfCarrier | workmarket/worker/browse/index.js:242-248 | every key offered to the map comes from some item |
| FeedIndex.IndexByOrder | workmarket/worker/browse/index.js:241-248 | a map's key order is the order in which keys first occur among the items, with no repeats, and the map's keys are exactly that order's |
| FeedIndex.IndexByValues | workmarket/worker/browse/index.js:244-246 | every item's key is present; the value under a key is the last item carrying it; every stored value is an object carrying its key |
| FeedIndex.IndexByHasKeys | workmarket/worker/browse/index.js:244-246 | every key an item carries is present in the map |
| FeedIndex.IndexByLast | workmarket/worker/browse/index.js:244-246 | a later item with the same key overwrites the earlier value |
| FeedIndex.IndexByObjects | workmarket/worker/browse/index.js:244-246 | every stored value is an object whose key for that map is the key it is stored under |
| FeedIndex.LastWithKeyOfFront | workmarket/worker/browse/index.js:242-248 | the last item with a key among all items is also last among the earlier ones, and the final item carries a different key |
| FeedIndex.BuildIndexesSpec | workmarket/worker/browse/index.js:240-250 | an item enters `byId` iff `id != null` and `byWorkNumber` iff `workNumber != null` (so `0` and `""` count); it enters `byUuid` iff `uuid` is truthy; the last such item is what the map holds |
| FeedIndex.IndexedItemsAreObjects | workmarket/worker/browse/index.js:338-353 | every item found by a lookup is a truthy object, so `if(!matched)` and `extractFields`' falsy guard never fire on it |
| DigitRuns.DigitRunEndStep | workmarket/worker/browse/index.js:238 | a digit run seen from one digit earlier ends at the same place |
| DigitRuns.NumericIdStart | workmarket/worker/browse/index.js:238 | the leftmost index where `(\d+)(?:\/?#?[^\d]*)?$` matches |
| DigitRuns.GetNumericIdSpec | workmarket/worker/browse/index.js:238 | `getNumericId` is null exactly when the url has no digit, and otherwise is the last maximal run of digits |
| DigitRuns.MatchExtendsBack | workmarket/worker/browse/index.js:238 | a match right after a digit also matches one index earlier, so the leftmost match starts a maximal run |
| DigitRuns.MatchAtOrAfter | workmarket/worker/browse/index.js:238 | from any digit on, the expression matches somewhere |
| DigitRuns.GetNumericIdIsLastRun | workmarket/worker/browse/index.js:238 | the last maximal run of digits is what `getNumericId` returns |
| DigitRuns.LongRunStart | workmarket/worker/browse/index.js:328 | the leftmost index where `\d{6,}` matches |
| DigitRuns.FirstLongRunSpec | workmarket/worker/browse/index.js:328 | the first match of `/(\d{6,})/g` is the first maximal digit run of length six or more; there is none exactly when every run is shorter |
| DigitRuns.WorkNumberCandidate | workmarket/worker/browse/index.js:328 | the candidate, from the href first and then the text, is six or more digits |
| DigitRuns.FirstLongRunDigits | workmarket/worker/browse/index.js:328 | the first long run is at least six digits long |
| Fields.FirstNonNullish | workmarket/worker/browse/index.js:255-259 | a `??` chain is null exactly when every property is null or undefined, and otherwise is the first property that is not |
| Fields.Index0 | workmarket/worker/browse/index.js:260 | `v?.[0]` of a non-empty array is its first element; of null, a boolean or a number, undefined |
| Fields.AssignedToFirstSpec | workmarket/worker/browse/index.js:260 | the sentinel whenever `assignToFirstResource === true`; otherwise `assignedTo[0].name`, else `assignedTo[0]`, else null, which is also the result for a missing, empty or non-array `assignedTo` |
| Fields.ExtractFieldsSpec | workmarket/worker/browse/index.js:252-262 | each field falls back along its property list (`spendLimit`, then `spend_limit`, then `budget`) and is null exactly when all of them are nullish |
| Fields.Render | workmarket/worker/browse/index.js:276 | null renders as the dash and a string as itself |
| Fields.Rows | workmarket/worker/browse/index.js:277-282 | six rows with the labels in display order |
| Fields.RowsSpec | workmarket/worker/browse/index.js:276-282 | a row shows the dash exactly for a null field, and otherwise the field's `String` |
| Dom.ParentOf | workmarket/worker/browse/index.js:291 | a parent is an element of the page that comes earlier in document order |
| Dom.UpNoneStays | workmarket/worker/browse/index.js:288-291 | once the walk runs out of parents it stays out |
| Dom.WalkFrom | workmarket/worker/browse/index.js:287-292 | the bounded walk finds a card exactly when one of the nodes it may examine is a card, and then returns the first such node |
| Dom.WalkFinds | workmarket/worker/browse/index.js:287-292 | the walk succeeds exactly when a card lies within its budget on the parent path |
| Dom.WalkFindsFirst | workmarket/worker/browse/index.js:287-292 | what the walk returns is the first card on the path |
| Dom.FindCardContainerSpec | workmarket/worker/browse/index.js:286-294 | the container is the first card among the anchor and its next five ancestors, else the anchor's parent, else the anchor |
| Dom.AncestorParent | workmarket/worker/browse/index.js:291 | the parent of an ancestor is an ancestor |
| Dom.AncestorPrecedes | workmarket/worker/browse/index.js:291 | ancestors come earlier in document order |
| Dom.UpIsAncestor | workmarket/worker/browse/index.js:288-291 | every node the walk reaches is the anchor or one of its ancestors |
| Dom.WalkOnPath | workmarket/worker/browse/index.js:288-291 | what the walk finds lies on the anchor's parent path |
| Dom.ContainerIsAncestor | workmarket/worker/browse/index.js:286-294 | the container is the anchor or an ancestor of it, and is the anchor only when the anchor is a card or has no parent |
| Dom.UpShift | workmarket/worker/browse/index.js:291 | the path from the anchor, one step in, is the path from its parent |
| Dom.InsertBlock | workmarket/worker/browse/index.js:352 | inserting adds exactly one block with the given rows and changes nothing else |
| Dom.InsertedBlockPlacement | workmarket/worker/browse/index.js:343-352 | the block lands after the link when it has a parent, and inside the container unless the container is the link itself; for a card link with a parent, the container's `querySelector` does not see the new block |
| Dom.StrictAncestorOfParent | workmarket/worker/browse/index.js:291 | a strict ancestor of a node is an ancestor of its parent |
| Dom.MoreBlocksKeepSeen | workmarket/worker/browse/index.js:345 | inserting more blocks never hides a block from a container |
| Matching.ScanFrom | workmarket/worker/browse/index.js:333-335 | the loop stops at the first key, in map order, that is non-empty and occurs in the href or the non-empty text |
| Matching.LastCarrierExists | workmarket/worker/browse/index.js:244-246 | a key some item carries has a last item carrying it |
| Matching.Lookup | workmarket/worker/browse/index.js:324-329 | `has` succeeds exactly when some item carries the key, and `get` gives the last such item |
| Matching.MatchById | workmarket/worker/browse/index.js:324 | when some item's `String(id)` equals the href's numeric id, the id rule wins with the last such item |
| Matching.MatchByUuid | workmarket/worker/browse/index.js:325 | with no id match, an item whose uuid equals the numeric id wins by uuid |
| Matching.MatchByWorkNumber | workmarket/worker/browse/index.js:327-330 | with neither id rule matching, an item whose work number equals the six-digit candidate wins by work number |
| Matching.MatchByContainedWorkNumber | workmarket/worker/browse/index.js:332-336 | when the first three rules miss, the match is the item of the first work-number key, in first-insertion order, contained in the href or text; there is none exactly when no key is contained |
| Matching.EarlyRulesMiss | workmarket/worker/browse/index.js:324-332 | an earlier rule that misses hands the link on unchanged to the substring scan |
| Matching.FallbackSpec | workmarket/worker/browse/index.js:332-336 | the substring scan finds the first contained key in map order and the last item carrying it, or nothing exactly when no key is contained |
| Matching.ScanOverKeys | workmarket/worker/browse/index.js:333-335 | scanning the keys in first-seen order finds a key exactly when one is contained, and no contained key is seen before it |
| Enricher.Candidates | workmarket/worker/browse/index.js:312 | the anchors are exactly the links whose `href` attribute contains one of the five path patterns |
| Enricher.NormalizeItemsSpec | workmarket/worker/browse/index.js:300-306 | the item list is the payload itself, else `results`, else `items`, else `data`, the first that is an array; none exactly when none is |
| Enricher.ProcessLink | workmarket/worker/browse/index.js:318-354 | a block is inserted exactly when a rule matches and the container holds no block; it shows the matched item's fields; otherwise the page is left as it is |
| Enricher.InjectAll | workmarket/worker/browse/index.js:315-356 | the count of insertions is at most the number of anchors and equals the number of blocks added; earlier blocks stay |
| Enricher.Augment | workmarket/worker/browse/index.js:297-361 | without an item list the counters are 0/0/0 and nothing is inserted; otherwise `indexed` is the list length, `anchors` the number of candidate links, and `injected` the number of blocks added |
| Enricher.SettledGrows | workmarket/worker/browse/index.js:345 | more blocks keep every matched link's container marked |
| Enricher.ProcessLinkSettles | workmarket/worker/browse/index.js:343-353 | after a link is processed, a second visit would skip it: with the source's check, as long as the link is not itself a card with a parent |
| Enricher.InjectAllSettles | workmarket/worker/browse/index.js:316-356 | after one pass every matched link would be skipped by a second pass |
| Enricher.SettlesStep | workmarket/worker/browse/index.js:343-353 | processing one more link keeps the earlier links settled and settles the new one |
| Enricher.SettledInjectsNothing | workmarket/worker/browse/index.js:343-348 | a pass over links that are all already marked inserts nothing |
| Enricher.RerunInjectsNothing | workmarket/worker/browse/index.js:343-361 | with the corrected check, a second run over the same page and payload leaves the page as it is and reports 0 injected |
| Enricher.RerunInjectsNothingAsWritten | workmarket/worker/browse/index.js:343-361 | with the source's check, the same holds whenever no candidate link is itself a card with a parent |
| Enricher.RerunDuplicatesAsWritten | workmarket/worker/browse/index.js:286-294 | for a link that is itself a card, the source's check inserts a block on every run, and the corrected check only on the first |
| Enricher.CardLinkTwiceAsWritten | workmarket/worker/browse/index.js:343-352 | the source's check lets the second run add a second block |
| Enricher.CardLinkFirstBlock | workmarket/worker/browse/index.js:352 | the first block goes beside the card link, outside the link's own subtree |
| Enricher.CardLinkTwiceCorrected | workmarket/worker/browse/index.js:343-352 | the corrected check adds a block on the first run only |
| Enricher.OneLinkRun | workmarket/worker/browse/index.js:309-360 | a run over one candidate link indexes the items and processes that link once |
| Enricher.CardLinkFacts | workmarket/worker/browse/index.js:290 | the example link is a candidate, matches by id, and is its own container |
| Enricher.CardLinkIsCandidate | workmarket/worker/browse/index.js:312 | an href containing `/work/` is selected |
| Enricher.CardLinkMatches | workmarket/worker/browse/index.js:324 | `/work/7` matches the item with id "7" |
| Enricher.AcmeExample | workmarket/worker/browse/index.js:297-361 | with the guard as written, payload `[{id:"1", workNumber:"500123", companyName:"Acme"}]` and a link ending in `500123` give one block showing `Work order: 500123` and `Company name: Acme`, matched by work number, with counters 1/1/1 |
| Enricher.FirstRunInserts | workmarket/worker/browse/index.js:343-353 | on a page without blocks every matched link gets one |
| Enricher.AcmeRows | workmarket/worker/browse/index.js:277-280 | the example item renders work order 500123 and company name Acme |
| Enricher.AcmeMatch | workmarket/worker/browse/index.js:324-329 | the example link misses by id ("1" is not "500123") and matches by work number |
| Enricher.AcmeIndexes | workmarket/worker/browse/index.js:240-250 | the example item is filed under id "1" and work number "500123" and not by uuid |
| Enricher.AcmeDigits | workmarket/worker/browse/index.js:238 | a digit-free prefix followed by `500123` has numeric id and work-number candidate `500123` |
| Enricher.IndexSingle | workmarket/worker/browse/index.js:240-250 | a one-item list files the item under its key, if it has one |
| PayloadStore.CaptureBody | workmarket/worker/browse/index.js:192-194 | the decoded body when it decodes to something other than null, else the raw text; null when reading the body failed |
| PayloadStore.Emit | workmarket/worker/browse/index.js:35-42 | the latest url and payload are set, and stored when the write succeeds; then every handler is called in registration order with them; a throwing handler is counted and does not stop the rest |
| PayloadStore.StoredRun | workmarket/worker/browse/index.js:380-392 | a stored record runs only when its payload is truthy, with `stored.url \|\| latestUrl` |
| PayloadStore.RunNow | workmarket/worker/browse/index.js:405-415 | the latest payload when it is truthy, else the stored one, else nothing |
| PayloadStore.EmitThenRunNow | workmarket/worker/browse/index.js:35-42 | after a truthy payload is emitted, `runNow` re-runs exactly that payload and url |
| AssignmentIds.IdAt | workmarket/assignments/index.js:151 | what `Assign\. ID:\s*(\d+)` captures at an index is a non-empty digit string |
| AssignmentIds.IdFrom | workmarket/assignments/index.js:151 | the leftmost index where the expression matches |
| AssignmentIds.IdIn | workmarket/assignments/index.js:167-171 | at most one id per text node: the capture of the leftmost match, none exactly when nothing matches |
| AssignmentIds.IdAtSpec | workmarket/assignments/index.js:151 | the capture is the whole digit run following the marker and white space |
| AssignmentIds.ExtractedHas | workmarket/assignments/index.js:165-171 | every node's id is collected |
| AssignmentIds.ExtractedFrom | workmarket/assignments/index.js:165-171 | every collected id is some node's id |
| AssignmentIds.GetAssignmentIds | workmarket/assignments/index.js:147-175 | the ids have no duplicates, are exactly those of the nodes that hold one, and keep first-seen order |
| AssignmentIds.NoMarkerBefore | workmarket/assignments/index.js:151 | no match starts inside marker-free text in front of the marker |
| AssignmentIds.IdAtMarker | workmarket/assignments/index.js:151 | right after the marker and white space, the whole run of digits is captured |
| AssignmentIds.IdAtParts | workmarket/assignments/index.js:151 | a match at an index where the marker, white space and a maximal digit run lie captures that run |
| AssignmentIds.IdInRoundTrip | workmarket/assignments/index.js:151-170 | a node written as marker-free text, the marker, white space, digits and a non-digit yields exactly those digits |
| AssignmentIds.NoMarkerNoId | workmarket/assignments/index.js:167-169 | a node without the marker yields nothing |
| BlankLines.LastNewline | workmarket/assignments/index.js:265 | the last line break in a range, or none when the range has none |
| BlankLines.NonSpaces | workmarket/assignments/index.js:265 | the characters that are not white space, in order |
| BlankLines.CopyRun | workmarket/assignments/index.js:265 | text without line breaks passes through the replacement unchanged |
| BlankLines.CollapseOther | workmarket/assignments/index.js:265 | a character other than a line break is copied |
| BlankLines.StartsAfterRun | workmarket/assignments/index.js:265 | after a run of white space, the replacement goes on with the next character |
| BlankLines.AfterBreak | workmarket/assignments/index.js:265 | what follows a kept line break has text before its first line break |
| BlankLines.CollapseNoBlankLine | workmarket/assignments/index.js:265 | after the replacement no two line breaks are separated by white space only |
| BlankLines.SpaceRunEndFrom | workmarket/assignments/index.js:265 | a white-space run seen from inside it ends at the same place |
| BlankLines.ShiftTextBetween | workmarket/assignments/index.js:265 | a character put in front keeps text between shifted line breaks |
| BlankLines.PrependBreak | workmarket/assignments/index.js:265 | a line break in front of text whose lines all start with text makes no blank line |
| BlankLines.PrependOther | workmarket/assignments/index.js:265 | any other character in front makes no blank line |
| BlankLines.SkipSpaces | workmarket/assignments/index.js:265 | white space contributes no text |
| BlankLines.CollapseKeepsText | workmarket/assignments/index.js:265 | the replacement removes white space only: the other characters are kept, in order |
| BlankLines.CollapseOfClean | workmarket/assignments/index.js:265 | text without blank lines has nothing to replace |
| BlankLines.NoBreakInRun | workmarket/assignments/index.js:265 | in text without blank lines, the white space after a line break holds no line break |
| BlankLines.CollapseFixedIff | workmarket/assignments/index.js:265 | the replacement leaves a text unchanged exactly when it has no blank line |
| BlankLines.SliceNoBlankLine | workmarket/assignments/index.js:265 | a slice of text without blank lines has none |
| BlankLines.TrimOfTrimmed | workmarket/assignments/index.js:265 | trimming trimmed text changes nothing |
| BlankLines.CleanTextSpec | workmarket/assignments/index.js:265 | the cleaned text is trimmed, has no blank line, keeps every character that is not white space, and cleaning it again changes nothing |
| BlankLines.TrimKeepsText | workmarket/assignments/index.js:265 | trimming removes white space only |
| BlankLines.DropLeadingSpace | workmarket/assignments/index.js:265 | leading white space contributes no text |
| BlankLines.DropTrailingSpace | workmarket/assignments/index.js:265 | trailing white space contributes no text |
| BlankLines.NonSpacesOfSpace | workmarket/assignments/index.js:265 | white space alone has no text |
| BlankLines.NonSpacesSplit | workmarket/assignments/index.js:265 | the text of a string is the text of its two halves |
| ToolsSplit.SplitTools | workmarket/assignments/index.js:316-323 | without the heading the tools stay "Not found" and the description is the text with the scope heading removed, trimmed; both parts are always trimmed |
| ToolsSplit.OccursInSlice | workmarket/assignments/index.js:318 | an occurrence inside a part is one in the whole text |
| ToolsSplit.OccursInWhole | workmarket/assignments/index.js:318 | an occurrence lying inside a part is one in the part, and the reverse |
| ToolsSplit.NoToolsInSlice | workmarket/assignments/index.js:318 | a part between occurrences holds no heading |
| ToolsSplit.SplitToolsAt | workmarket/assignments/index.js:316-320 | with the heading, part 0 is the text before the first occurrence and part 1 the text up to the second or the end; neither holds the heading |
| ToolsSplit.NoToolsBefore | workmarket/assignments/index.js:316-318 | no occurrence starts inside heading-free text in front of the heading |
| ToolsSplit.FirstToolsAt | workmarket/assignments/index.js:316-318 | the first occurrence is the heading as written |
| ToolsSplit.MarkerAt | workmarket/assignments/index.js:316 | the heading occurs where it is written |
| ToolsSplit.FindIsFirst | workmarket/assignments/index.js:316-318 | an occurrence with none before it is the first |
| ToolsSplit.NoSecondTools | workmarket/assignments/index.js:318-320 | heading-free text after the heading holds no second cut |
| ToolsSplit.SplitToolsRoundTrip | workmarket/assignments/index.js:316-320 | heading-free text, the heading and heading-free text split back into the two texts, trimmed, with the scope heading removed from the first |
| WorkEncoded.CloseFrom | workmarket/assignments/index.js:306 | where the lazy `[\s\S]*?` stops: the first `}` followed by a comma, white space and `authEncoded:` |
| WorkEncoded.OpenAt | workmarket/assignments/index.js:306 | the opening brace after `workEncoded:` and white space |
| WorkEncoded.CaptureAt | workmarket/assignments/index.js:306 | a capture starts with `{` and ends with `}` |
| WorkEncoded.CaptureFrom | workmarket/assignments/index.js:306 | the leftmost index where the expression matches |
| WorkEncoded.WorkData | workmarket/assignments/index.js:306-307 | the text handed to `JSON.parse` is a braced text, and there is none exactly when the expression matches nowhere |
| WorkEncoded.NoKeyBefore | workmarket/assignments/index.js:306 | no match starts inside key-free text in front of the key |
| WorkEncoded.FirstClose | workmarket/assignments/index.js:306 | an object with no `},` inside stops the capture at its own closing brace |
| WorkEncoded.ClosesAfterObject | workmarket/assignments/index.js:306 | a brace, a comma, white space and `authEncoded:` end the capture |
| WorkEncoded.CaptureAtParts | workmarket/assignments/index.js:306 | at an index where the key, white space and such an object lie, the object is captured |
| WorkEncoded.OpenAtParts | workmarket/assignments/index.js:306 | there the opening brace is the object's |
| WorkEncoded.Layout | workmarket/assignments/index.js:306 | where the pieces of such a page lie |
| WorkEncoded.CaptureAtKey | workmarket/assignments/index.js:306 | the match at the key captures the object |
| WorkEncoded.NoCaptureBefore | workmarket/assignments/index.js:306 | no match starts before the key |
| WorkEncoded.WorkDataRoundTrip | workmarket/assignments/index.js:306-308 | a page with key-free text, `workEncoded:`, an object with no `},` inside, `,` and `authEncoded:` hands exactly that object to `JSON.parse` |
| WorkEncoded.FirstCapture | workmarket/assignments/index.js:306 | a match with none before it is the one reported |
| WorkEncoded.NoKeyNoWorkData | workmarket/assignments/index.js:306-307 | a page without the key has no work data |
| Details.DetailsUrl | workmarket/assignments/index.js:183 | the details url is the prefix followed by the id |
| Details.DetailsUrlInjective | workmarket/assignments/index.js:353 | different ids give different urls |
| Details.CleanHtml | workmarket/assignments/index.js:263-265 | cleaning throws exactly when rendering throws, and otherwise is the rendered text with blank lines collapsed and the ends trimmed |
| Details.DescriptionOf | workmarket/assignments/index.js:311-324 | a falsy description leaves both fields "Not found"; a truthy one is cleaned and split, both parts trimmed; none exactly when cleaning threw |
| Details.FromWorkData | workmarket/assignments/index.js:311-335 | description and tools come from the split and the pay fields from a truthy `pricing`, and nothing else changes except the start date; reading stops with nothing assigned when cleaning the description throws, and after the pay fields when `new Date(schedule.from)` throws |
| Details.WorkObject | workmarket/assignments/index.js:306-308 | the work data is what `JSON.parse` makes of the matched text, and is never null |
| Details.ParseDetails | workmarket/assignments/index.js:304-365 | a parsed record has the id, its url, status "Succeeded" and the page's title, company and location, with trimmed description and tools; a parse throws only when cleaning the fallback `#desc-text` throws |
| Details.ParseWithWorkData | workmarket/assignments/index.js:304-336 | with usable work data whose description cleans and whose start date formats, the record is the one built from the work data |
| Details.DateThrowRecord | workmarket/assignments/index.js:333-344 | when the start date throws, the `catch` keeps the work data's tools and pay fields, leaves the start date "Not found" and takes the description from the cleaned `#desc-text` |
| Details.ToolsNeedHeading | workmarket/assignments/index.js:302-323 | tools other than "Not found" come only from work data whose cleaned description holds the heading |
| Details.FallbackRecord | workmarket/assignments/index.js:337-344 | without usable work data (none found, `JSON.parse` throwing or giving null), or when cleaning its description threw, the record holds the defaults and the cleaned `#desc-text` |
| Details.CleanTextOfClean | workmarket/assignments/index.js:265 | clean text is left as it is |
| Details.DescriptionRoundTrip | workmarket/assignments/index.js:311-320 | a string description rendering to heading-free text, the heading and heading-free text splits back into the two texts |
| Details.DescriptionOfString | workmarket/assignments/index.js:311-313 | a non-empty string description is cleaned and split |
| Details.CleanHtmlOfClean | workmarket/assignments/index.js:312-313 | markup rendering to clean text cleans to that text |
| Details.ToolsRoundTrip | workmarket/assignments/index.js:304-364 | such a page's record holds the tools from the second part, and, unless the start date throws, the description from the first |
| Batch.FetchOutcome | workmarket/assignments/index.js:189-201 | a 2xx response resolves with the page; any other status rejects with `HTTP Error: <status> <statusText>`; a network error rejects with `Network Error: ` and its text or `Unknown error` |
| Batch.AttemptSpec | workmarket/assignments/index.js:105-124 | each id yields a record naming it: a success carries the parsed details, a failure the thrown message; it fails exactly when the request or the parse threw |
| Batch.CountSucceeded | workmarket/assignments/index.js:102-118 | the success count never exceeds the number of records |
| Batch.CountFailed | workmarket/assignments/index.js:103-123 | the failure count never exceeds the number of records |
| Batch.CountsAddUp | workmarket/assignments/index.js:101-125 | successes and failures add up to the number of records |
| Batch.NoFailureIff | workmarket/assignments/index.js:101-125 | no failure is counted exactly when every record succeeded |
| Batch.NoIdsIff | workmarket/assignments/index.js:90-93 | the id list is empty exactly when no text node yields an id |
| Batch.FetchEach | workmarket/assignments/index.js:101-125 | one request and one record per id, in id order, with both counts matching the records and adding up to the number of ids |
| Batch.FetchAllDetails | workmarket/assignments/index.js:85-141 | no ids means no request and the "no IDs" notice; otherwise every id in first-seen order is fetched once and yields one record, and the two counts add up to the number of ids |

## Left out

- Request interception and the network are left out. The `fetch`/XHR patching and `GM_xmlhttpRequest` are not modelled: a captured body is an input, and a request is a function from url to response.
- Persistence is reduced to a flag and a value. `GM_setValue` is a flag saying whether the write succeeded, `GM_getValue` is the stored value of the `Store`, and the record's timestamp is left out.
- The UI is left out: the overlay, modal, button, styling and logging, because none of it feeds back into the logic.
- Timers are left out (`setTimeout` delays and `DOMContentLoaded` hooks). A scheduled run is modelled as a run.
- The browser's page services are parameters of the model, because their behaviour is not visible in the code:
  - `DOMParser`, the CSS selectors and the title/location text handling form a `PageView`;
  - the `cleanHtml` steps before the blank-line collapse form `Browser.renderText`, which may throw. These are `decodeHtmlEntities`, the `<li>`/`<p>`/`<br>` rewriting and `textContent`. The `<li>` rewriting throws on a list at the top level, where `parentNode` is null.
- The XPath text-node snapshot is taken as a sequence of strings. An unordered snapshot's order is whatever the browser gives, so the model does not fix it.
- The link's resolved `href` property and its `innerText || textContent` are given with each link, beside the `href` attribute that the selector tests.
- `JSON.parse` is a parameter returning an optional value, and `new Date(v).toLocaleString()` is `Browser.formatDate`, which may throw.
- Numbers are integers. Floating-point values and their `String` forms are not modelled. `String(n)` also differs from the model's decimal text for integers of 2^53 and above, which JavaScript cannot hold exactly, and for 1e21 and above, which print in exponent form. This affects Json.ToJsString and so the map keys of FeedIndex.
- The `try`/`catch` around each anchor (browse/index.js:355) is not modelled. The per-anchor work can throw only in cases the model does not represent: an object field with its own non-function `toString` property, and an SVG `<a>` whose `href` is not a string, so `href.match` throws. The `try`/`catch` around the `GM_*` calls is modelled by the success flag or left out.
- Json.ToJsString: an object with its own `toString` property becomes `[object Object]` in the model, where `String` calls that property, or throws when it is not a function (for example `{"toString": 0}`).
- FeedIndex.BuildIndexesSpec: an item whose `id`, `uuid` or `workNumber` is an object on which `String` throws is filed under `[object Object]` in the model. In the source, the catch at browse/index.js:247 skips that map and the item's remaining maps.
- Enricher.ProcessLink: inserts a block even when a displayed field is an object on which `String` throws. In the source, `mk` (browse/index.js:276) throws, and the per-anchor catch (355) inserts nothing and leaves `injected` unchanged. An SVG anchor, whose `href.match` throws (328), is likewise skipped in the source but matched in the model.
- Json.ToJsString: states `String(v)` only for strings and non-negative integers; the forms of arrays, objects, booleans and null are given by its definition alone.
- Text.RemoveFirst: states that an absent pattern changes nothing and that at most one copy is removed, but not which copy.
- FeedIndex.KeyOf: states only that non-objects are never filed. The full filing rule is stated by FeedIndex.BuildIndexesSpec.
- Enricher.Candidates: states which links are selected, not that document order is kept.
- Batch.CountSucceeded: states only a bound. What the count means is stated by Batch.CountsAddUp and Batch.NoFailureIff.
- Batch.CountFailed: states only a bound. What the count means is stated by Batch.CountsAddUp and Batch.NoFailureIff.
- Details.ParseDetails: states only one direction about what throws. The full record is stated by Details.ParseWithWorkData when the work data is usable, its description cleans and its start date formats; by Details.DateThrowRecord when the start date throws; and by Details.FallbackRecord in every other case. Together the last two cover the `catch` path (assignments/index.js:341-344).

## Findings

| source | as written | input that shows it | evidently intended | confidence | as-written member | corrected member |
|---|---|---|---|---|---|---|
| workmarket/worker/browse/index.js:286-294 | `findCardContainer` returns the anchor itself when the anchor carries a card signature (e.g. class `card`). The block is then inserted as the anchor's next sibling (line 352), outside the anchor's subtree, so `container.querySelector('.wm-feed-details-block')` (line 345) never finds it | an anchor `<a class="card" href="/work/7">` inside a parent element, with payload `[{id: "7"}]`; every run inserts another block next to it | a second run over an unchanged page inserts nothing; the model's corrected check also skips a link that already has a block right after it | medium, not executed | Enricher.CardLinkTwiceAsWritten | Enricher.RerunInjectsNothing |
