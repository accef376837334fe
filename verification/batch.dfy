/** `fetchAllDetails` and `fetchAssignmentDetails`
    (workmarket/assignments/index.js): one request per assignment id found on
    the page, in order, each ending in a parsed record or a failure record,
    and the tally of both. */
module Batch {
  import opened Options
  import opened Text
  import opened Sequences
  import opened AssignmentIds
  import opened Details

  /** What `GM_xmlhttpRequest` reports: a response (`onload`), or a network
      error (`onerror`) with the error's `statusText`, if any. */
  datatype Response =
    | HttpResponse(status: int, statusText: string, body: string)
    | NetworkFailure(errorText: Option<string>)

  const HttpErrorPrefix := "HTTP Error: "
  const NetworkErrorPrefix := "Network Error: "

  /** The promise of `fetchAssignmentDetails`: the page text for a 2xx
      status, otherwise rejected with an `Error` whose message names the
      status, or the network error's `statusText || 'Unknown error'`. */
  function FetchOutcome(r: Response): (o: Outcome<string>)
    ensures o.Ok? <==> r.HttpResponse? && 200 <= r.status < 300
    ensures o.Ok? ==> o.value == r.body
    ensures o.Thrown? && r.HttpResponse? ==>
              o.message == HttpErrorPrefix + IntToDecimal(r.status) + " " + r.statusText
    ensures r.NetworkFailure? && r.errorText.Some? && r.errorText.value != "" ==>
              o == Thrown(NetworkErrorPrefix + r.errorText.value)
    ensures r.NetworkFailure? && (r.errorText.None? || r.errorText.value == "") ==>
              o == Thrown(NetworkErrorPrefix + "Unknown error")
  {
    match r
    case HttpResponse(status, statusText, body) =>
      if 200 <= status < 300 then Ok(body)
      else Thrown(HttpErrorPrefix + IntToDecimal(status) + " " + statusText)
    case NetworkFailure(errorText) =>
      var text := if errorText.Some? && errorText.value != "" then errorText.value else "Unknown error";
      Thrown(NetworkErrorPrefix + text)
  }

  /** One entry of `allDetails`: the parsed record, or
      `{ id, error: error.message, status: 'Failed' }`. */
  datatype Record = Succeeded(details: Details) | Failed(id: string, error: string)

  /** How the button's run ends: the "No assignment IDs found" notice, or
      the records and the two counts of the "Finished!" message. */
  datatype BatchOutcome =
    | NoIds
    | Finished(records: seq<Record>, succeeded: nat, failed: nat)

  /** The body of the loop for one id: fetch, then parse; whatever either
      throws becomes a failure record. */
  function Attempt(fetch: string -> Response, b: Browser, id: string): Record {
    match FetchOutcome(fetch(DetailsUrl(id)))
    case Thrown(m) => Failed(id, m)
    case Ok(html) =>
      match ParseDetails(b, html, id)
      case Ok(d) => Succeeded(d)
      case Thrown(m) => Failed(id, m)
  }

  /** The record of one id names that id: a success carries the parsed
      details of the id's page, a failure the message of what was thrown.
      The attempt fails exactly when the request or the parsing threw. */
  lemma AttemptSpec(fetch: string -> Response, b: Browser, id: string)
    ensures var r := Attempt(fetch, b, id);
            && (r.Succeeded? ==> r.details.id == id && r.details.url == DetailsUrl(id) && r.details.status == "Succeeded")
            && (r.Failed? ==> r.id == id)
            && (r.Failed? <==> FetchOutcome(fetch(DetailsUrl(id))).Thrown?
                               || ParseDetails(b, FetchOutcome(fetch(DetailsUrl(id))).value, id).Thrown?)
  {
  }

  /** The number of succeeded records. */
  function CountSucceeded(rs: seq<Record>): (n: nat)
    ensures n <= |rs|
    decreases |rs|
  {
    if |rs| == 0 then 0
    else CountSucceeded(rs[..|rs| - 1]) + (if rs[|rs| - 1].Succeeded? then 1 else 0)
  }

  /** The number of failed records. */
  function CountFailed(rs: seq<Record>): (n: nat)
    ensures n <= |rs|
    decreases |rs|
  {
    if |rs| == 0 then 0
    else CountFailed(rs[..|rs| - 1]) + (if rs[|rs| - 1].Failed? then 1 else 0)
  }

  /** Every record is counted once: as a success or as a failure. */
  lemma {:induction false} CountsAddUp(rs: seq<Record>)
    ensures CountSucceeded(rs) + CountFailed(rs) == |rs|
    decreases |rs|
  {
    if |rs| > 0 {
      CountsAddUp(rs[..|rs| - 1]);
    }
  }

  /** All records succeeded exactly when none failed. */
  lemma {:induction false} NoFailureIff(rs: seq<Record>)
    ensures CountFailed(rs) == 0 <==> forall i | 0 <= i < |rs| :: rs[i].Succeeded?
    decreases |rs|
  {
    if |rs| > 0 {
      NoFailureIff(rs[..|rs| - 1]);
      assert forall i | 0 <= i < |rs| - 1 :: rs[..|rs| - 1][i] == rs[i];
    }
  }

  /** The ids of the page are empty exactly when no text node yields one. */
  lemma NoIdsIff(nodes: seq<string>, ids: seq<string>)
    requires forall x :: x in ids <==> exists i | 0 <= i < |nodes| :: IdIn(nodes[i]) == Some(x)
    ensures |ids| == 0 <==> forall i | 0 <= i < |nodes| :: IdIn(nodes[i]).None?
  {
    if |ids| > 0 {
      assert ids[0] in ids;
    }
  }

  /** The loop of `fetchAllDetails` over the ids, with `attempt` as the
      loop body for one id: `requested` lists the urls fetched, in order;
      each id yields one record, and the counts are those of the records. */
  method FetchEach(ids: seq<string>, attempt: string -> Record)
    returns (records: seq<Record>, requested: seq<string>, succeeded: nat, failed: nat)
    ensures |records| == |ids| == |requested|
    ensures forall i | 0 <= i < |ids| :: requested[i] == DetailsUrl(ids[i])
    ensures forall i | 0 <= i < |ids| :: records[i] == attempt(ids[i])
    ensures succeeded == CountSucceeded(records) && failed == CountFailed(records)
    ensures succeeded + failed == |ids|
  {
    records := [];
    requested := [];
    succeeded, failed := 0, 0;
    var i := 0;
    while i < |ids|
      invariant 0 <= i <= |ids|
      invariant |records| == i && |requested| == i
      invariant forall k | 0 <= k < i :: requested[k] == DetailsUrl(ids[k])
      invariant forall k | 0 <= k < i :: records[k] == attempt(ids[k])
      invariant succeeded == CountSucceeded(records) && failed == CountFailed(records)
    {
      var r := attempt(ids[i]);
      requested := requested + [DetailsUrl(ids[i])];
      assert (records + [r])[..i] == records;
      records := records + [r];
      if r.Succeeded? {
        succeeded := succeeded + 1;
      } else {
        failed := failed + 1;
      }
      i := i + 1;
    }
    CountsAddUp(records);
  }

  /** `fetchAllDetails()` over the page's text nodes. `requested` lists the
      urls fetched, in order. Without ids nothing is fetched; otherwise each
      id, in first-seen order, is fetched once and yields one record, and
      the two counts add up to the number of ids. */
  method FetchAllDetails(nodes: seq<string>, fetch: string -> Response, b: Browser)
    returns (out: BatchOutcome, requested: seq<string>)
    ensures out.NoIds? <==> forall i | 0 <= i < |nodes| :: IdIn(nodes[i]).None?
    ensures out.NoIds? ==> requested == []
    ensures out.Finished? ==>
              var ids := Dedup(Extracted(nodes));
              && |out.records| == |ids| == |requested|
              && (forall i | 0 <= i < |ids| :: requested[i] == DetailsUrl(ids[i]))
              && (forall i | 0 <= i < |ids| :: out.records[i] == Attempt(fetch, b, ids[i]))
              && out.succeeded == CountSucceeded(out.records)
              && out.failed == CountFailed(out.records)
              && out.succeeded + out.failed == |ids|
  {
    var ids := GetAssignmentIds(nodes);
    NoIdsIff(nodes, ids);
    if |ids| == 0 {
      return NoIds, [];
    }
    var records, succeeded, failed;
    records, requested, succeeded, failed := FetchEach(ids, id => Attempt(fetch, b, id));
    out := Finished(records, succeeded, failed);
  }
}
