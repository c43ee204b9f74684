# netgrep: streaming search loop and batch reporting, modelled in Dafny

netgrep searches remote files for a pattern without downloading them whole.
It fetches a URL, reads the response body chunk by chunk, runs a WASM
pattern matcher on each chunk as it arrives and stops at the first chunk that
matches. `Netgrep.search` resolves `{url, result}`. The standalone `netgrep`
function resolves a bare boolean. `Netgrep.searchBatch` starts one search per
URL and calls a callback with each URL's record. Normally that is one record
per URL: `error: null` on success, and on failure the text `serializeError`
makes of the reason. The Findings below list the inputs for which the
callback is called zero times or twice for a URL.

The model has four modules:

- `Data` (`data.dfy`): chunks, bodies as streams, the values a promise is
  rejected with, promise settlements and the result records.
- `Reader` (`reader.dfy`): the `handleReader` loop shared by both entry
  points. It is a method with a `while` loop and an early exit, proved against
  the specification functions `FirstMatch`, `Scan` and `Examined`. It also
  holds the two ways the surrounding promise settles: as written, and
  corrected (see Findings).
- `NetgrepClass` (`netgrep_class.dfy`): `search`, `searchBatch` and
  `serializeError`. The class holds a read-only configuration that none of
  these methods reads, so they are module members here.
- `NetgrepFunction` (`netgrep_function.dfy`): the standalone `netgrep` function
  and its agreement with `Netgrep.search`.

Collaborators that cannot be seen become parameters:

- `fetch(url)` becomes the `FetchResult` it yields: a response whose body may
  be missing, or a rejection.
- A body is a `Stream`: the chunks `read()` returns in order, then either
  `done` or a `read()` rejection.
- The WASM matcher is a function parameter `matches: (Chunk, string) -> bool`.
- `JSON.stringify` is a function parameter `stringify` that yields the text,
  or `None` where it throws.
- The callback `cb` is a function parameter that yields `None` when it
  returns and the thrown value when it throws.
- A promise that never settles is the settlement `Pending`.

`result` is a boolean, as the code resolves it. The declared `NetgrepResult`
type says `{count, lines}`, but no code produces that shape.

The test file and the declared types (NetgrepSearchConfig.ts, NetgrepResult.ts)
describe more than the code does: an in-memory cache, a collect mode in which
`searchBatch` returns an array, and cancellation. The model follows the code, which has none of these.

## Model

| member | source | states |
|---|---|---|
| `Reader.FirstMatch` | packages/netgrep/src/lib/Netgrep.ts:36-44 | The index found is one whose chunk matches, and no earlier chunk matches. There is no index exactly when no chunk matches. |
| `Reader.Scan` | packages/netgrep/src/lib/Netgrep.ts:27-44 | The loop ends `Matched` iff some single chunk matches, at the first such chunk. It ends `Exhausted` iff the reader reports `done` and no chunk matched. It ends `ReadFailed` with the reader's reason iff `read()` rejects and no chunk matched. The same loop appears in netgrep.ts:8-28. |
| `Reader.Examined` | packages/netgrep/src/lib/Netgrep.ts:35-44 | The chunks given to the matcher are a prefix of the body, in stream order. Every one but the last failed to match. Reading stops before the end only at a match. The count is the first-match index + 1, or every chunk when none matches. |
| `Reader.HandleReader` | packages/netgrep/src/lib/Netgrep.ts:24-46 | The loop reads one chunk per iteration and keeps the invariant "no chunk before the cursor matched". Its verdict equals `Scan` and the chunks it examined equal `Examined`. |
| `Reader.SettleAsWritten` | packages/netgrep/src/lib/Netgrep.ts:40-55 | Code as written: resolves `true` iff a chunk matched and `false` iff the reader was done. It never settles iff a `read()` after the first one rejects. A rejection of the first `read()` rejects with its reason. |
| `Reader.SettleCorrected` | packages/netgrep/src/lib/Netgrep.ts:40-45 | Corrected settlement: it always settles, it agrees with the code wherever the code settles, and a read failure rejects with the read's reason. |
| `Reader.SplitPatternIsMissed` | packages/netgrep/src/lib/Netgrep.ts:35-38 | Matching is per chunk. A substring matcher misses "ab" delivered as "a" then "b", though the whole body contains it. |
| `NetgrepClass.SearchOutcome` | packages/netgrep/src/lib/Netgrep.ts:22-57 | A resolved record always carries the input `url`. It is `true` iff there is a body and some single chunk matches. It is `false` iff the body ends with `done` and no chunk matches. A fetch rejection rejects with the same reason. A missing body rejects with 'No body returned from the request'. A rejection of the first `read()` rejects with the read's reason. The search stays pending iff a later `read()` rejects. |
| `NetgrepClass.SearchOutcomeCorrected` | packages/netgrep/src/lib/Netgrep.ts:22-57 | With the recursive read chained, a search always settles. It equals the code's outcome wherever that settles and otherwise rejects with the read's reason. |
| `NetgrepClass.Search` | packages/netgrep/src/lib/Netgrep.ts:22-57 | Settles as `SearchOutcome`. With no body, or when the fetch fails, it reads no chunk. Otherwise it reads exactly the chunks of `Examined`, in order. |
| `NetgrepClass.SerializeError` | packages/netgrep/src/lib/Netgrep.ts:84-90 | An `Error` maps to its message. Any other value maps to its `JSON.stringify` text, and to no string where `JSON.stringify` throws. |
| `NetgrepClass.SerializeErrorCorrected` | packages/netgrep/src/lib/Netgrep.ts:84-90 | Corrected `serializeError`: always a string. It equals the code's result wherever that is a string, and otherwise falls back to a description of the value. |
| `NetgrepClass.Callback` | packages/netgrep/src/lib/Netgrep.ts:71-75 | The records `cb` is called with for one URL. There are at most two, each carries the input url, and an error record has `result: false`. A pending search gives none. A resolved one first gives `{url, result, error: null}`. A second record follows exactly when `cb` threw on that one and `serializeError` of the thrown value is a string; it carries that string. A rejection gives one record with `serializeError` of the reason, or none when `serializeError` throws. |
| `NetgrepClass.OnRejected` | packages/netgrep/src/lib/Netgrep.ts:73-75 | The `.catch` handler: one record `{url, result: false, error}` carrying `serializeError` of the reason when that is a string, and no record when `serializeError` throws. |
| `NetgrepClass.CallbackCorrected` | packages/netgrep/src/lib/Netgrep.ts:71-75 | Corrected callback: exactly one record per settled search, whatever `cb` does. `error` is null iff the search resolved. A rejection carries the corrected serialized reason. |
| `NetgrepClass.Deliveries` | packages/netgrep/src/lib/Netgrep.ts:70-76 | One list of records per input URL, in input order, each the `Callback` records of that URL's search. Every record in the list for a URL carries that URL. |
| `NetgrepClass.DeliveriesCorrected` | packages/netgrep/src/lib/Netgrep.ts:70-76 | The per-URL records with all three corrections: every list for a URL has exactly one record, and it carries that URL. |
| `NetgrepClass.SearchBatch` | packages/netgrep/src/lib/Netgrep.ts:65-77 | Searches every URL. As a multiset, the records delivered to the callback are the per-URL `Callback` records. |
| `NetgrepClass.FlattenPartitionsUrls` | packages/netgrep/src/lib/Netgrep.ts:70-76 | As multisets, the URLs of the delivered records plus the URLs for which `cb` is never called equal the input URLs plus one copy per extra call for a URL. |
| `NetgrepClass.FlattenRecordsComeFromUrls` | packages/netgrep/src/lib/Netgrep.ts:70-75 | Every delivered record is one of the records delivered for one of the input URLs. |
| `NetgrepClass.SettledCallbackOnce` | packages/netgrep/src/lib/Netgrep.ts:71-75 | A settled search calls `cb` exactly once when neither `cb` nor `JSON.stringify` throws. |
| `NetgrepClass.BatchReportsSettledUrls` | packages/netgrep/src/lib/Netgrep.ts:65-77 | `cb` is called at most twice per URL. When every search settles and neither `cb` nor `JSON.stringify` throws, the URLs `cb` receives are, as a multiset, exactly the input URLs. |
| `NetgrepClass.ThrowingCallbackIsCalledTwice` | packages/netgrep/src/lib/Netgrep.ts:71-75 | Take an empty body and a `cb` that throws an `Error` on the success record. `cb` is then called twice for that URL: `{url, false, null}`, then `{url, false, message}`. |
| `NetgrepClass.UnserializableRejectionIsNeverReported` | packages/netgrep/src/lib/Netgrep.ts:73-75 | Take a search that rejects with a value `JSON.stringify` cannot serialize. The search settles, yet `cb` is never called for that URL. |
| `NetgrepClass.LateReadFailureIsNeverReported` | packages/netgrep/src/lib/Netgrep.ts:40-44 | Take a body with one non-matching chunk whose next `read()` rejects. Its search stays pending and `searchBatch` hands no record for that URL. |
| `NetgrepClass.CorrectedBatchReportsEveryUrl` | packages/netgrep/src/lib/Netgrep.ts:70-76 | With the corrected settlement, callback and serialization, the callback receives exactly one record per input URL, counting repeats, whatever the bodies, `cb` and the rejection values are. |
| `NetgrepClass.FailedSearchRecords` | packages/netgrep/src/lib/Netgrep.ts:73-89 | A fetch rejected with an `Error` is reported as `{url, result: false, error: message}`. A missing body is reported with the `JSON.stringify` text of the rejection string. |
| `NetgrepFunction.NetgrepOutcome` | packages/netgrep/src/lib/netgrep.ts:6-39 | `true` iff there is a body and some single chunk matches. `false` iff the body ends with `done` and no chunk matches. A fetch rejection rejects with the same reason. A missing body rejects with 'No body returned from the request'. A rejection of the first `read()` rejects with the read's reason. It stays pending iff a later `read()` rejects. |
| `NetgrepFunction.Netgrep` | packages/netgrep/src/lib/netgrep.ts:6-39 | Settles as `NetgrepOutcome`. It reads no chunk when there is no body, and otherwise exactly the chunks of `Examined`, in order. |
| `NetgrepFunction.AgreesWithSearch` | packages/netgrep/src/lib/netgrep.ts:6-39 | For the same response and matcher, `netgrep` settles as the `result` field of `Netgrep.search`. It rejects in the same cases with the same reason. |

## Findings

| source | as written | input that shows it | evidently intended | confidence | as-written member | corrected member |
|---|---|---|---|---|---|---|
| packages/netgrep/src/lib/Netgrep.ts:43 | After a non-matching chunk, `handleReader(reader)` is called without returning its promise. Only the first `read()` is chained to `.catch(reject)`. A later `read()` rejection reaches no handler and the search never settles, so `searchBatch` never calls `cb` for that URL. The same holds at packages/netgrep/src/lib/netgrep.ts:25. | A body that yields one non-matching chunk, then a `read()` that rejects, e.g. the connection dropping mid-download. Under the default unhandled-rejection mode of Node 15 and later, that unhandled rejection ends the process instead. Either way no record is delivered. | The search rejects with the read error. `searchBatch` then reports the URL with that error, once per URL. | medium, not executed | `NetgrepClass.LateReadFailureIsNeverReported` (with `Reader.SettleAsWritten`) | `NetgrepClass.CorrectedBatchReportsEveryUrl` (with `Reader.SettleCorrected`) |
| packages/netgrep/src/lib/Netgrep.ts:72-75 | `.catch` follows `.then(res => cb(...))`, so it also catches what `cb` throws. A `cb` that throws on a success record is called a second time for the same URL, now as a failure. | A search that resolves, and a `cb` that throws on its first call. | `cb` is called once per URL, with `.then(onResult, onError)`. | medium, not executed | `NetgrepClass.ThrowingCallbackIsCalledTwice` (with `NetgrepClass.Callback`) | `NetgrepClass.CorrectedBatchReportsEveryUrl` (with `NetgrepClass.CallbackCorrected`) |
| packages/netgrep/src/lib/Netgrep.ts:88 | `JSON.stringify` throws on a BigInt or a cyclic object. `serializeError` then throws inside `.catch`, and `cb` is never called for a search that did settle. | A search that rejects with a non-`Error` value holding a BigInt, such as `{ n: 1n }`. A `cb` that throws such a value has the same effect. | `serializeError` always returns a string, falling back to `String(err)`. | low, not executed | `NetgrepClass.UnserializableRejectionIsNeverReported` (with `NetgrepClass.SerializeError`) | `NetgrepClass.CorrectedBatchReportsEveryUrl` (with `NetgrepClass.SerializeErrorCorrected`) |

`Search`, `Netgrep` and `SearchBatch` model the code as written. The
corrections are stated beside them as `SearchOutcomeCorrected`,
`CallbackCorrected`, `SerializeErrorCorrected` and `DeliveriesCorrected`.

## Left out

- Network and stream plumbing are not modelled: `fetch`, `ReadableStream` readers and the Promise chains. A body is a finite `Stream`, and each `fetch(url)` is the `FetchResult` passed in. In `searchBatch`, `responses[i]` is what `fetch(urls[i])` yields.
- The WASM matcher (packages/search/src/lib.rs) is a parameter. Its regular-expression semantics are not modelled. Neither is the panic that `unwrap` raises on a malformed pattern. That panic would fire on the first chunk and reject, the same way the first-read failure does.
- `JSON.stringify` is an opaque parameter. Its text is not modelled, only whether it throws. Neither is the `undefined` it returns for `undefined`, functions and symbols.
- What happens after `cb` throws inside `.catch`, or after `serializeError` throws there, is an unhandled rejection. It is not modelled beyond the fact that no further record is delivered.
- The in-memory cache, collect-mode `searchBatch` returning an array, and `AbortSignal` cancellation are not modelled. Tests and types mention them (packages/netgrep/src/lib/Netgrep.spec.ts, packages/netgrep/src/lib/data/NetgrepSearchConfig.ts), but the code implements none of them.
- The `{count, lines}` result shape of packages/netgrep/src/lib/data/NetgrepResult.ts is not modelled, because the code never produces it. The boolean result is modelled instead.
- `NetgrepConfig`, the constructor argument of the `Netgrep` class, is not part of this model. No modelled method reads it.
- The `NetgrepInput` type of packages/netgrep/src/lib/data/ is not modelled. `searchBatch` takes plain URL strings, so no operation carries metadata.
- NetgrepClass.SearchBatch: its contract states the delivered records only as a multiset. The callbacks fire in completion order, which this model does not claim.
- Concurrency between the searches of one batch is not modelled. Each search is modelled as if it runs alone on its own response.
- The example applications and the build scripts are user interface and tooling, outside the library.
