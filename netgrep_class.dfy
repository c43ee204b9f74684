/** The `Netgrep` class: `search` for one URL, `searchBatch` reporting every
    URL through a callback, and `serializeError`. The class keeps only a
    read-only configuration that none of these methods reads, so its methods
    are modelled here as members of a module. `fetch(url)` is replaced by the
    `FetchResult` it yields, and the callback by the log of records it is
    handed. */
module NetgrepClass {
  import opened Data
  import Reader

  /** Attach the searched URL to a boolean settlement. */
  function WithUrl(url: string, o: Settlement<bool>): Settlement<NetgrepResult> {
    match o
    case Resolved(b) => Resolved(NetgrepResult(url, b))
    case Rejected(reason) => Rejected(reason)
    case Pending => Pending
  }

  /** How the promise returned by `search(url, pattern)` settles when
      `fetch(url)` yields `response`. */
  function SearchOutcome(url: string, pattern: string, response: FetchResult, matches: Matcher): (o: Settlement<NetgrepResult>)
    ensures o.Resolved? ==> o.value.url == url
    ensures o == Resolved(NetgrepResult(url, true)) <==>
      response.Fetched? && response.body.Some? &&
      exists j :: 0 <= j < |response.body.value.chunks| && matches(response.body.value.chunks[j], pattern)
    ensures o == Resolved(NetgrepResult(url, false)) <==>
      response.Fetched? && response.body.Some? && response.body.value.end.Done? &&
      forall j :: 0 <= j < |response.body.value.chunks| ==> !matches(response.body.value.chunks[j], pattern)
    ensures response.FetchRejected? ==> o == Rejected(response.reason)
    ensures response == Fetched(None) ==> o == Rejected(NoBody)
    ensures o.Pending? <==>
      response.Fetched? && response.body.Some? && response.body.value.end.Failed? &&
      |response.body.value.chunks| > 0 &&
      forall j :: 0 <= j < |response.body.value.chunks| ==> !matches(response.body.value.chunks[j], pattern)
    ensures (response.Fetched? && response.body.Some? && response.body.value.chunks == [] &&
             response.body.value.end.Failed?) ==> o == Rejected(response.body.value.end.reason)
  {
    match response
    case FetchRejected(reason) => Rejected(reason)
    case Fetched(None) => Rejected(NoBody)
    case Fetched(Some(s)) =>
      WithUrl(url, Reader.SettleAsWritten(Reader.Scan(s, pattern, matches), |Reader.Examined(s, pattern, matches)|))
  }

  /** The same search with every `read()` rejection reaching `reject`. */
  function SearchOutcomeCorrected(url: string, pattern: string, response: FetchResult, matches: Matcher): (o: Settlement<NetgrepResult>)
    ensures !o.Pending?
    ensures !SearchOutcome(url, pattern, response, matches).Pending? ==> o == SearchOutcome(url, pattern, response, matches)
    ensures SearchOutcome(url, pattern, response, matches).Pending? ==> o == Rejected(response.body.value.end.reason)
  {
    match response
    case FetchRejected(reason) => Rejected(reason)
    case Fetched(None) => Rejected(NoBody)
    case Fetched(Some(s)) => WithUrl(url, Reader.SettleCorrected(Reader.Scan(s, pattern, matches)))
  }

  /** `search(url, pattern)`: no chunk is read when the fetch fails or the
      response has no body; otherwise the chunks are read in order up to the
      first match. */
  method Search(url: string, pattern: string, response: FetchResult, matches: Matcher)
    returns (o: Settlement<NetgrepResult>, examined: seq<Chunk>)
    ensures o == SearchOutcome(url, pattern, response, matches)
    ensures response.Fetched? && response.body.Some? ==> examined == Reader.Examined(response.body.value, pattern, matches)
    ensures !(response.Fetched? && response.body.Some?) ==> examined == []
  {
    match response {
      case FetchRejected(reason) =>
        o, examined := Rejected(reason), [];
      case Fetched(None) =>
        o, examined := Rejected(NoBody), [];
      case Fetched(Some(s)) =>
        var v;
        v, examined := Reader.HandleReader(s, pattern, matches);
        o := WithUrl(url, Reader.SettleAsWritten(v, |examined|));
    }
  }

  /** `JSON.stringify` applied to a rejection value: its text, or `None`
      where it throws (a BigInt, a cyclic object). */
  type Stringify = JsValue -> Option<string>

  /** The caller's callback `cb`: `None` when it returns, `Some(e)` when it
      throws `e`. */
  type Handler = BatchNetgrepResult -> Option<Thrown>

  /** `serializeError`: an `Error` is reduced to its message, any other value
      to its `JSON.stringify` text; `None` is a `JSON.stringify` that throws. */
  function SerializeError(err: Thrown, stringify: Stringify): (s: Option<string>)
    ensures err.ErrorInstance? ==> s == Some(err.message)
    ensures err.NonError? ==> s == stringify(err.value)
  {
    match err
    case ErrorInstance(message) => Some(message)
    case NonError(value) => stringify(value)
  }

  /** The evident intent of `serializeError`: always a string. A value that
      `JSON.stringify` cannot serialize falls back to `describe`, standing
      for `String(err)`. */
  function SerializeErrorCorrected(err: Thrown, stringify: Stringify, describe: JsValue -> string): (s: string)
    ensures SerializeError(err, stringify).Some? ==> s == SerializeError(err, stringify).value
    ensures SerializeError(err, stringify).None? ==> s == describe(err.value)
  {
    match SerializeError(err, stringify)
    case Some(text) => text
    case None => describe(err.value)
  }

  /** The `.catch` handler of `searchBatch`: one failure record for `url`
      with the serialized reason, or no call at all when `serializeError`
      throws. */
  function OnRejected(url: string, err: Thrown, stringify: Stringify): (r: seq<BatchNetgrepResult>)
    ensures SerializeError(err, stringify).Some? ==> r == [BatchNetgrepResult(url, false, SerializeError(err, stringify))]
    ensures SerializeError(err, stringify).None? ==> r == []
  {
    match SerializeError(err, stringify)
    case Some(message) => [BatchNetgrepResult(url, false, Some(message))]
    case None => []
  }

  /** The records `cb` is called with for one URL whose search settles as
      `o`. A resolved search calls `cb` with `error: null`; since `.catch`
      follows that `.then`, a `cb` that throws there is called a second
      time, with the failure record for what it threw. A rejected search
      calls `cb` once with `result: false` and the serialized reason, unless
      `serializeError` throws. A search that never settles calls nothing. */
  function Callback(url: string, o: Settlement<NetgrepResult>, cb: Handler, stringify: Stringify): (r: seq<BatchNetgrepResult>)
    requires o.Resolved? ==> o.value.url == url
    ensures |r| <= 2
    ensures forall k :: 0 <= k < |r| ==> r[k].url == url
    ensures forall k :: 0 <= k < |r| ==> (r[k].error.Some? ==> !r[k].result)
    ensures o.Pending? ==> r == []
    ensures o.Resolved? ==> |r| >= 1 && r[0] == BatchNetgrepResult(url, o.value.result, None)
    ensures |r| == 2 <==>
      o.Resolved? && cb(r[0]).Some? && SerializeError(cb(r[0]).value, stringify).Some?
    ensures |r| == 2 ==> r[1].error == SerializeError(cb(r[0]).value, stringify)
    ensures o.Rejected? ==> (r == [] <==> SerializeError(o.reason, stringify).None?)
    ensures o.Rejected? && r != [] ==> r == [BatchNetgrepResult(url, false, SerializeError(o.reason, stringify))]
  {
    match o
    case Resolved(res) =>
      var ok := BatchNetgrepResult(res.url, res.result, None);
      (match cb(ok)
       case None => [ok]
       case Some(thrown) => [ok] + OnRejected(url, thrown, stringify))
    case Rejected(err) => OnRejected(url, err, stringify)
    case Pending => []
  }

  /** The evident intent: `cb` exactly once per settled search, whatever `cb`
      does, with a failure reason that is always a string. That is
      `.then(onResult, onError)` in place of `.then(...).catch(...)`, with
      `SerializeErrorCorrected`. */
  function CallbackCorrected(url: string, o: Settlement<NetgrepResult>, stringify: Stringify, describe: JsValue -> string): (r: seq<BatchNetgrepResult>)
    requires o.Resolved? ==> o.value.url == url
    ensures |r| == (if o.Pending? then 0 else 1)
    ensures forall k :: 0 <= k < |r| ==> r[k].url == url
    ensures forall k :: 0 <= k < |r| ==> (r[k].error.None? <==> o.Resolved?)
    ensures o.Resolved? ==> r == [BatchNetgrepResult(url, o.value.result, None)]
    ensures o.Rejected? ==> r == [BatchNetgrepResult(url, false, Some(SerializeErrorCorrected(o.reason, stringify, describe)))]
  {
    match o
    case Resolved(res) => [BatchNetgrepResult(res.url, res.result, None)]
    case Rejected(err) => [BatchNetgrepResult(url, false, Some(SerializeErrorCorrected(err, stringify, describe)))]
    case Pending => []
  }

  /** `ds[i]` lists the records delivered for `urls[i]`, each carrying it. */
  ghost predicate OwnRecords(urls: seq<string>, ds: seq<seq<BatchNetgrepResult>>) {
    |ds| == |urls| &&
    forall i, k :: 0 <= i < |urls| && 0 <= k < |ds[i]| ==> ds[i][k].url == urls[i]
  }

  /** The records `cb` receives for each URL of a batch, as written. */
  function Deliveries(urls: seq<string>, pattern: string, responses: seq<FetchResult>, matches: Matcher, cb: Handler, stringify: Stringify)
    : (ds: seq<seq<BatchNetgrepResult>>)
    requires |responses| == |urls|
    ensures OwnRecords(urls, ds)
  {
    seq(|urls|, i requires 0 <= i < |urls| =>
      Callback(urls[i], SearchOutcome(urls[i], pattern, responses[i], matches), cb, stringify))
  }

  /** The records for each URL with all three corrections: every `read()`
      rejection reaches `reject`, `cb` is called once, the reason is always a
      string. */
  function DeliveriesCorrected(urls: seq<string>, pattern: string, responses: seq<FetchResult>, matches: Matcher, stringify: Stringify, describe: JsValue -> string)
    : (ds: seq<seq<BatchNetgrepResult>>)
    requires |responses| == |urls|
    ensures OwnRecords(urls, ds)
    ensures forall i :: 0 <= i < |ds| ==> |ds[i]| == 1
  {
    seq(|urls|, i requires 0 <= i < |urls| =>
      CallbackCorrected(urls[i], SearchOutcomeCorrected(urls[i], pattern, responses[i], matches), stringify, describe))
  }

  /** All deliveries of a batch, listed in input order. The source delivers
      them in completion order, so only order-free facts are stated about it. */
  function Flatten(ds: seq<seq<BatchNetgrepResult>>): seq<BatchNetgrepResult>
    decreases |ds|
  {
    if ds == [] then [] else Flatten(ds[..|ds| - 1]) + ds[|ds| - 1]
  }

  /** The URLs of a list of records. */
  function Urls(log: seq<BatchNetgrepResult>): (us: seq<string>)
    ensures |us| == |log|
    ensures forall k :: 0 <= k < |log| ==> us[k] == log[k].url
  {
    seq(|log|, k requires 0 <= k < |log| => log[k].url)
  }

  /** `n` copies of one URL. */
  function Copies(url: string, n: nat): (us: seq<string>)
    ensures |us| == n
    ensures forall k :: 0 <= k < n ==> us[k] == url
  {
    seq(n, _ => url)
  }

  /** The URLs for which `cb` is never called. */
  function Silent(urls: seq<string>, ds: seq<seq<BatchNetgrepResult>>): (us: seq<string>)
    requires |ds| == |urls|
    ensures us == [] <==> forall i :: 0 <= i < |urls| ==> |ds[i]| > 0
    decreases |urls|
  {
    if urls == [] then []
    else
      var n := |urls| - 1;
      Silent(urls[..n], ds[..n]) + (if |ds[n]| == 0 then [urls[n]] else [])
  }

  /** Each URL once for every call of `cb` beyond its first one. */
  function Repeats(urls: seq<string>, ds: seq<seq<BatchNetgrepResult>>): (us: seq<string>)
    requires |ds| == |urls|
    ensures us == [] <==> forall i :: 0 <= i < |urls| ==> |ds[i]| <= 1
    decreases |urls|
  {
    if urls == [] then []
    else
      var n := |urls| - 1;
      Repeats(urls[..n], ds[..n]) + (if |ds[n]| == 0 then [] else Copies(urls[n], |ds[n]| - 1))
  }

  /** `searchBatch(urls, pattern, cb)`: every URL is searched, and each
      settled search calls `cb` as `Callback` says. `responses[i]` is what
      `fetch(urls[i])` yields; the result is every record `cb` was called
      with. */
  method SearchBatch(urls: seq<string>, pattern: string, responses: seq<FetchResult>, matches: Matcher, cb: Handler, stringify: Stringify)
    returns (log: seq<BatchNetgrepResult>)
    requires |responses| == |urls|
    ensures multiset(log) == multiset(Flatten(Deliveries(urls, pattern, responses, matches, cb, stringify)))
  {
    ghost var ds := Deliveries(urls, pattern, responses, matches, cb, stringify);
    log := [];
    for i := 0 to |urls|
      invariant log == Flatten(ds[..i])
    {
      var o, _ := Search(urls[i], pattern, responses[i], matches);
      match o {
        case Resolved(res) =>
          var ok := BatchNetgrepResult(res.url, res.result, None);
          log := log + [ok];
          match cb(ok) {
            case None =>
            case Some(thrown) =>
              log := log + OnRejected(urls[i], thrown, stringify);
          }
        case Rejected(err) =>
          log := log + OnRejected(urls[i], err, stringify);
        case Pending =>
      }
      assert ds[..i + 1][..i] == ds[..i];
    }
    assert ds[..|urls|] == ds;
  }

  lemma UrlsAppend(a: seq<BatchNetgrepResult>, b: seq<BatchNetgrepResult>)
    ensures multiset(Urls(a + b)) == multiset(Urls(a)) + multiset(Urls(b))
  {
    assert Urls(a + b) == Urls(a) + Urls(b);
  }

  /** The calls for one URL, counted against that URL once. */
  lemma OneUrlCount(url: string, d: seq<BatchNetgrepResult>)
    requires forall k :: 0 <= k < |d| ==> d[k].url == url
    ensures multiset(Urls(d)) + multiset(if |d| == 0 then [url] else [])
      == multiset{url} + multiset(if |d| == 0 then [] else Copies(url, |d| - 1))
  {
    assert Urls(d) == Copies(url, |d|);
    if |d| > 0 {
      assert Copies(url, |d|) == [url] + Copies(url, |d| - 1);
    }
  }

  lemma LastSplit(urls: seq<string>)
    requires urls != []
    ensures multiset(urls) == multiset(urls[..|urls| - 1]) + multiset{urls[|urls| - 1]}
  {
    assert urls == urls[..|urls| - 1] + [urls[|urls| - 1]];
  }

  /** The last URL's contribution to the log, the silent and the repeated URLs. */
  lemma FlattenStep(urls: seq<string>, ds: seq<seq<BatchNetgrepResult>>)
    requires OwnRecords(urls, ds) && urls != []
    ensures OwnRecords(urls[..|urls| - 1], ds[..|urls| - 1])
    ensures var n := |urls| - 1;
      multiset(Urls(Flatten(ds))) == multiset(Urls(Flatten(ds[..n]))) + multiset(Urls(ds[n]))
    ensures var n := |urls| - 1;
      multiset(Silent(urls, ds)) == multiset(Silent(urls[..n], ds[..n])) + multiset(if |ds[n]| == 0 then [urls[n]] else [])
    ensures var n := |urls| - 1;
      multiset(Repeats(urls, ds)) == multiset(Repeats(urls[..n], ds[..n])) + multiset(if |ds[n]| == 0 then [] else Copies(urls[n], |ds[n]| - 1))
  {
    var n := |urls| - 1;
    assert OwnRecords(urls[..n], ds[..n]);
    UrlsAppend(Flatten(ds[..n]), ds[n]);
  }

  /** As multisets, the URLs `cb` is called with, plus the URLs it is never
      called for, are the input URLs plus one copy per extra call. */
  lemma {:induction false} FlattenPartitionsUrls(urls: seq<string>, ds: seq<seq<BatchNetgrepResult>>)
    requires OwnRecords(urls, ds)
    ensures multiset(Urls(Flatten(ds))) + multiset(Silent(urls, ds)) == multiset(urls) + multiset(Repeats(urls, ds))
    decreases |urls|
  {
    if urls != [] {
      var n := |urls| - 1;
      FlattenStep(urls, ds);
      FlattenPartitionsUrls(urls[..n], ds[..n]);
      OneUrlCount(urls[n], ds[n]);
      LastSplit(urls);
      Regroup(multiset(Urls(Flatten(ds[..n]))), multiset(Urls(ds[n])),
              multiset(Silent(urls[..n], ds[..n])), multiset(if |ds[n]| == 0 then [urls[n]] else []),
              multiset(urls[..n]), multiset{urls[n]},
              multiset(Repeats(urls[..n], ds[..n])), multiset(if |ds[n]| == 0 then [] else Copies(urls[n], |ds[n]| - 1)));
    }
  }

  lemma Regroup<T>(a: multiset<T>, b: multiset<T>, c: multiset<T>, d: multiset<T>,
                   m: multiset<T>, u: multiset<T>, e: multiset<T>, f: multiset<T>)
    requires a + c == m + e && b + d == u + f
    ensures (a + b) + (c + d) == (m + u) + (e + f)
  {
    forall x
      ensures ((a + b) + (c + d))[x] == ((m + u) + (e + f))[x]
    {
      assert (a + c)[x] == (m + e)[x];
      assert (b + d)[x] == (u + f)[x];
    }
  }

  /** Each record `cb` receives was delivered for one of the URLs. */
  lemma {:induction false} FlattenRecordsComeFromUrls(ds: seq<seq<BatchNetgrepResult>>)
    ensures forall r :: r in Flatten(ds) ==> exists i :: 0 <= i < |ds| && r in ds[i]
    decreases |ds|
  {
    if ds != [] {
      var n := |ds| - 1;
      FlattenRecordsComeFromUrls(ds[..n]);
      forall r | r in Flatten(ds)
        ensures exists i :: 0 <= i < |ds| && r in ds[i]
      {
        if r in Flatten(ds[..n]) {
          var i :| 0 <= i < n && r in ds[..n][i];
          assert ds[..n][i] == ds[i];
        } else {
          assert r in ds[n];
        }
      }
    }
  }

  /** As written, `cb` is called exactly once per URL when every search
      settles, `cb` does not throw and `JSON.stringify` does not throw; in
      any case it is called at most twice for a URL. */
  lemma BatchReportsSettledUrls(urls: seq<string>, pattern: string, responses: seq<FetchResult>, matches: Matcher, cb: Handler, stringify: Stringify)
    requires |responses| == |urls|
    ensures forall i :: 0 <= i < |urls| ==> |Deliveries(urls, pattern, responses, matches, cb, stringify)[i]| <= 2
    ensures (forall i :: 0 <= i < |urls| ==> !SearchOutcome(urls[i], pattern, responses[i], matches).Pending?) &&
            (forall r :: cb(r).None?) && (forall v :: stringify(v).Some?) ==>
      multiset(Urls(Flatten(Deliveries(urls, pattern, responses, matches, cb, stringify)))) == multiset(urls)
  {
    var ds := Deliveries(urls, pattern, responses, matches, cb, stringify);
    if (forall i :: 0 <= i < |urls| ==> !SearchOutcome(urls[i], pattern, responses[i], matches).Pending?) &&
       (forall r :: cb(r).None?) && (forall v :: stringify(v).Some?) {
      forall i | 0 <= i < |urls|
        ensures |ds[i]| == 1
      {
        SettledCallbackOnce(urls[i], SearchOutcome(urls[i], pattern, responses[i], matches), cb, stringify);
      }
      FlattenPartitionsUrls(urls, ds);
      NoneSilentNoneRepeated(urls, ds);
    }
  }

  /** When every URL gets exactly one call, the partition has no silent and
      no repeated URL. */
  lemma NoneSilentNoneRepeated(urls: seq<string>, ds: seq<seq<BatchNetgrepResult>>)
    requires |ds| == |urls| && forall i :: 0 <= i < |urls| ==> |ds[i]| == 1
    requires multiset(Urls(Flatten(ds))) + multiset(Silent(urls, ds)) == multiset(urls) + multiset(Repeats(urls, ds))
    ensures multiset(Urls(Flatten(ds))) == multiset(urls)
  {
    assert Silent(urls, ds) == [] && Repeats(urls, ds) == [];
    CancelEmpty(multiset(Urls(Flatten(ds))), multiset(urls), Silent(urls, ds), Repeats(urls, ds));
  }

  lemma CancelEmpty<T>(x: multiset<T>, y: multiset<T>, s: seq<T>, r: seq<T>)
    requires s == [] && r == [] && x + multiset(s) == y + multiset(r)
    ensures x == y
  {
    assert multiset(s) == multiset{} == multiset(r);
    assert x + multiset{} == x && y + multiset{} == y;
  }

  /** A settled search calls a callback that never throws exactly once when
      `JSON.stringify` never throws. */
  lemma SettledCallbackOnce(url: string, o: Settlement<NetgrepResult>, cb: Handler, stringify: Stringify)
    requires o.Resolved? ==> o.value.url == url
    requires !o.Pending? && (forall r :: cb(r).None?) && (forall v :: stringify(v).Some?)
    ensures |Callback(url, o, cb, stringify)| == 1
  {
  }

  /** A body whose `read()` rejects after a chunk that does not match leaves
      the search pending, and `cb` is never called for that URL. */
  lemma LateReadFailureIsNeverReported(url: string, pattern: string, chunk: Chunk, reason: Thrown, matches: Matcher, cb: Handler, stringify: Stringify)
    requires !matches(chunk, pattern)
    ensures SearchOutcome(url, pattern, Fetched(Some(Stream([chunk], Failed(reason)))), matches).Pending?
    ensures Flatten(Deliveries([url], pattern, [Fetched(Some(Stream([chunk], Failed(reason))))], matches, cb, stringify)) == []
  {
    var ds := Deliveries([url], pattern, [Fetched(Some(Stream([chunk], Failed(reason))))], matches, cb, stringify);
    assert ds[0] == [];
    assert ds[..0] == [];
  }

  /** A `cb` that throws an `Error` on a success record is called a second
      time for the same URL, now with an error record. */
  lemma ThrowingCallbackIsCalledTwice(url: string, pattern: string, matches: Matcher, cb: Handler, stringify: Stringify, message: string)
    requires cb(BatchNetgrepResult(url, false, None)) == Some(ErrorInstance(message))
    ensures SearchOutcome(url, pattern, Fetched(Some(Stream([], Done))), matches) == Resolved(NetgrepResult(url, false))
    ensures Callback(url, SearchOutcome(url, pattern, Fetched(Some(Stream([], Done))), matches), cb, stringify)
      == [BatchNetgrepResult(url, false, None), BatchNetgrepResult(url, false, Some(message))]
  {
  }

  /** A rejection value that `JSON.stringify` cannot serialize makes
      `serializeError` throw inside `.catch`, and `cb` is never called for a
      search that did settle. */
  lemma UnserializableRejectionIsNeverReported(url: string, pattern: string, v: JsValue, matches: Matcher, cb: Handler, stringify: Stringify)
    requires stringify(v).None?
    ensures SearchOutcome(url, pattern, FetchRejected(NonError(v)), matches).Rejected?
    ensures Callback(url, SearchOutcome(url, pattern, FetchRejected(NonError(v)), matches), cb, stringify) == []
  {
  }

  /** With all three corrections, `cb` receives exactly one record per URL,
      counting repeated URLs, whatever `cb`, the bodies and the rejection
      values are. */
  lemma CorrectedBatchReportsEveryUrl(urls: seq<string>, pattern: string, responses: seq<FetchResult>, matches: Matcher, stringify: Stringify, describe: JsValue -> string)
    requires |responses| == |urls|
    ensures |Flatten(DeliveriesCorrected(urls, pattern, responses, matches, stringify, describe))| == |urls|
    ensures multiset(Urls(Flatten(DeliveriesCorrected(urls, pattern, responses, matches, stringify, describe)))) == multiset(urls)
  {
    var ds := DeliveriesCorrected(urls, pattern, responses, matches, stringify, describe);
    FlattenPartitionsUrls(urls, ds);
    NoneSilentNoneRepeated(urls, ds);
    var log := Flatten(ds);
    assert |Urls(log)| == |multiset(Urls(log))| == |multiset(urls)| == |urls|;
  }

  /** A fetch that rejects with an `Error` is reported once with that error's
      message, whatever `cb` does; a response without a body is reported with
      the serialized rejection string. Both records carry `result: false`. */
  lemma FailedSearchRecords(url: string, pattern: string, matches: Matcher, cb: Handler, stringify: Stringify, message: string, text: string)
    requires stringify(JsString(NoBodyMessage)) == Some(text)
    ensures Callback(url, SearchOutcome(url, pattern, FetchRejected(ErrorInstance(message)), matches), cb, stringify)
      == [BatchNetgrepResult(url, false, Some(message))]
    ensures Callback(url, SearchOutcome(url, pattern, Fetched(None), matches), cb, stringify)
      == [BatchNetgrepResult(url, false, Some(text))]
  {
  }
}
