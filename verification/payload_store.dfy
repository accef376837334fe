/** The enricher's capture state: what a captured firehose response turns
    into (`tryParse(text) ?? text`), `emitPayload`, and which payload the
    stored-payload run and `runNow` pick (workmarket/worker/browse/index.js). */
module PayloadStore {
  import opened Options
  import opened Json

  /** The record kept under `workmarket_firehose_last` (its timestamp is
      left out). */
  datatype Saved = Saved(url: string, payload: Json)

  /** `latestUrl`, `latestPayload` and the stored record. */
  datatype Store = Store(latestUrl: Option<string>, latestPayload: Json, saved: Option<Saved>)

  /** The state at script start: nothing captured yet. */
  function InitialStore(saved: Option<Saved>): Store {
    Store(None, JNull, saved)
  }

  /** `tryParse(text) ?? text`: `text` is the response body (None when
      reading it failed) and `decoded` what `JSON.parse` made of it (None when
      it threw). A body that decodes to JSON null falls back to the raw text
      as well, because `??` cannot tell that null from a failure. Without a
      body, `tryParse(null)` parses the text "null", so the payload is null. */
  function CaptureBody(text: Option<string>, decoded: Option<Json>): (r: Json)
    requires text.None? ==> decoded == Some(JNull)
    ensures text.None? ==> r == JNull
    ensures decoded.Some? && decoded.value != JNull ==> r == decoded.value
    ensures (decoded.None? || decoded.value == JNull) && text.Some? ==> r == JStr(text.value)
    ensures r == JNull <==> (decoded.None? || decoded.value == JNull) && text.None?
  {
    if decoded.Some? && decoded.value != JNull then decoded.value
    else if text.Some? then JStr(text.value)
    else JNull
  }

  /** One handler call: which handler, with what, and whether it threw. */
  datatype Call = Call(handler: nat, url: string, payload: Json, threw: bool)

  /** The number of handlers that throw. */
  function CountThrows(throws: seq<bool>): nat
    decreases |throws|
  {
    if |throws| == 0 then 0
    else CountThrows(throws[..|throws| - 1]) + (if throws[|throws| - 1] then 1 else 0)
  }

  /** `emitPayload(url, payload)`: the latest url and payload are set first,
      the record is stored when `GM_setValue` succeeds (`saveOk`), then every
      registered handler is called in registration order; `throws[i]` says
      whether handler `i` throws, which is caught and logged and does not
      stop the remaining handlers. */
  method Emit(st: Store, url: string, payload: Json, saveOk: bool, throws: seq<bool>)
    returns (next: Store, calls: seq<Call>, errors: nat)
    ensures next.latestUrl == Some(url) && next.latestPayload == payload
    ensures next.saved == if saveOk then Some(Saved(url, payload)) else st.saved
    ensures |calls| == |throws|
    ensures forall i | 0 <= i < |calls| :: calls[i] == Call(i, url, payload, throws[i])
    ensures errors == CountThrows(throws)
  {
    next := Store(Some(url), payload, if saveOk then Some(Saved(url, payload)) else st.saved);
    calls := [];
    errors := 0;
    var i := 0;
    while i < |throws|
      invariant 0 <= i <= |throws|
      invariant |calls| == i
      invariant forall j | 0 <= j < i :: calls[j] == Call(j, url, payload, throws[j])
      invariant errors == CountThrows(throws[..i])
    {
      calls := calls + [Call(i, url, payload, throws[i])];
      if throws[i] {
        errors := errors + 1;
      }
      assert throws[..i + 1][..i] == throws[..i];
      i := i + 1;
    }
    assert throws[..i] == throws;
  }

  /** The run on load, and `runNow`'s fallback: a stored record whose
      payload is truthy, run with `stored.url || latestUrl`. */
  function StoredRun(st: Store): (r: Option<(Option<string>, Json)>)
    ensures r.Some? <==> st.saved.Some? && Truthy(Some(st.saved.value.payload))
    ensures r.Some? ==> r.value.1 == st.saved.value.payload
    ensures r.Some? && st.saved.value.url != "" ==> r.value.0 == Some(st.saved.value.url)
    ensures r.Some? && st.saved.value.url == "" ==> r.value.0 == st.latestUrl
  {
    match st.saved
    case None => None
    case Some(s) =>
      if Truthy(Some(s.payload)) then Some((if s.url != "" then Some(s.url) else st.latestUrl, s.payload))
      else None
  }

  /** `runNow()`: the latest payload when it is truthy, else the stored
      one; None when neither is available. The pair is what
      `augmentFromPayload` is called with. */
  function RunNow(st: Store): (r: Option<(Option<string>, Json)>)
    ensures Truthy(Some(st.latestPayload)) ==> r == Some((st.latestUrl, st.latestPayload))
    ensures !Truthy(Some(st.latestPayload)) ==> r == StoredRun(st)
    ensures r.Some? ==> Truthy(Some(r.value.1))
  {
    if Truthy(Some(st.latestPayload)) then Some((st.latestUrl, st.latestPayload))
    else StoredRun(st)
  }

  /** After a truthy payload has been emitted, `runNow` re-runs exactly that
      payload with its url, whatever was stored; after a falsy one (an empty
      body, say) it falls back to the stored record. */
  method EmitThenRunNow(st: Store, url: string, payload: Json, saveOk: bool, throws: seq<bool>)
    returns (run: Option<(Option<string>, Json)>)
    ensures Truthy(Some(payload)) ==> run == Some((Some(url), payload))
    ensures !Truthy(Some(payload)) && saveOk ==> run.None?
    ensures !Truthy(Some(payload)) && !saveOk ==> run == StoredRun(st.(latestUrl := Some(url)))
  {
    var next, calls, errors := Emit(st, url, payload, saveOk, throws);
    run := RunNow(next);
  }
}
