/** The standalone `netgrep(url, pattern)` function: the same chunk loop as
    `Netgrep.search`, settling with a bare boolean. `fetch(url)` is replaced by
    the `FetchResult` it yields. */
module NetgrepFunction {
  import opened Data
  import Reader
  import NetgrepClass

  /** How the promise returned by `netgrep(url, pattern)` settles when
      `fetch(url)` yields `response`. */
  function NetgrepOutcome(pattern: string, response: FetchResult, matches: Matcher): (o: Settlement<bool>)
    ensures o == Resolved(true) <==>
      response.Fetched? && response.body.Some? &&
      exists j :: 0 <= j < |response.body.value.chunks| && matches(response.body.value.chunks[j], pattern)
    ensures o == Resolved(false) <==>
      response.Fetched? && response.body.Some? && response.body.value.end.Done? &&
      forall j :: 0 <= j < |response.body.value.chunks| ==> !matches(response.body.value.chunks[j], pattern)
    ensures response.FetchRejected? ==> o == Rejected(response.reason)
    ensures response == Fetched(None) ==> o == Rejected(NoBody)
    ensures o.Pending? <==>
      response.Fetched? && response.body.Some? && response.body.value.end.Failed? &&
      |response.body.value.chunks| > 0 &&
      forall j :: 0 <= j < |response.body.value.chunks| ==> !matches(response.body.value.chunks[j], pattern)
    ensures (response.Fetched? && response.body.Some? && response.body.value.chunks == [] &&
             response.body.value.end.Failed?) ==> o == Rejected(response.body.value.end.reason)
  {
    match response
    case FetchRejected(reason) => Rejected(reason)
    case Fetched(None) => Rejected(NoBody)
    case Fetched(Some(s)) =>
      Reader.SettleAsWritten(Reader.Scan(s, pattern, matches), |Reader.Examined(s, pattern, matches)|)
  }

  /** `netgrep(url, pattern)`: no chunk is read when the fetch fails or the
      response has no body; otherwise the chunks are read in order up to the
      first match. */
  method Netgrep(url: string, pattern: string, response: FetchResult, matches: Matcher)
    returns (o: Settlement<bool>, examined: seq<Chunk>)
    ensures o == NetgrepOutcome(pattern, response, matches)
    ensures response.Fetched? && response.body.Some? ==> examined == Reader.Examined(response.body.value, pattern, matches)
    ensures !(response.Fetched? && response.body.Some?) ==> examined == []
  {
    match response {
      case FetchRejected(reason) =>
        o, examined := Rejected(reason), [];
      case Fetched(None) =>
        o, examined := Rejected(NoBody), [];
      case Fetched(Some(s)) =>
        var v;
        v, examined := Reader.HandleReader(s, pattern, matches);
        o := Reader.SettleAsWritten(v, |examined|);
    }
  }

  /** The `result` field of a `Netgrep.search` settlement. */
  function ResultField(o: Settlement<NetgrepResult>): Settlement<bool> {
    match o
    case Resolved(r) => Resolved(r.result)
    case Rejected(reason) => Rejected(reason)
    case Pending => Pending
  }

  /** For the same response and matcher, `netgrep` settles exactly as the
      `result` field of `Netgrep.search` does, rejecting in the same cases
      with the same reason. */
  lemma AgreesWithSearch(url: string, pattern: string, response: FetchResult, matches: Matcher)
    ensures NetgrepOutcome(pattern, response, matches) == ResultField(NetgrepClass.SearchOutcome(url, pattern, response, matches))
  {
  }
}
