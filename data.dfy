/** Values exchanged by the netgrep library: response bodies as chunk streams,
    the values a promise can be rejected with, how a promise settles, and the
    result records of `packages/netgrep/src/lib/data/`. */
module Data {

  /** One element of a `Uint8Array` chunk. */
  type Byte = bv8

  /** One unit of bytes handed over by a single `reader.read()`. */
  type Chunk = seq<Byte>

  /** The WASM pattern matcher imported as `search`: a truthy verdict for one
      chunk and one pattern. Its algorithm is outside this model. */
  type Matcher = (Chunk, string) -> bool

  datatype Option<+T> = None | Some(value: T)

  /** A JavaScript value that is not an `Error` instance. Strings are kept
      apart because the library itself rejects with one; every other value is
      identified only opaquely. */
  datatype JsValue = JsString(text: string) | JsOpaque(id: nat)

  /** What a rejected promise (or a `throw`) carries. */
  datatype Thrown = ErrorInstance(message: string) | NonError(value: JsValue)

  /** The message both search entry points reject with when a response has no body. */
  const NoBodyMessage: string := "No body returned from the request"

  /** `Promise.reject('No body returned from the request')` rejects with a
      plain string, not with an `Error`. */
  const NoBody: Thrown := NonError(JsString(NoBodyMessage))

  /** How a body reader ends once its chunks are used up: `read()` reports
      `done`, or `read()` rejects. */
  datatype StreamEnd = Done | Failed(reason: Thrown)

  /** A response body: the chunks `read()` yields in order, then its end. */
  datatype Stream = Stream(chunks: seq<Chunk>, end: StreamEnd)

  /** What `fetch(url)` yields: a response whose `body` may be missing, or a rejection. */
  datatype FetchResult = Fetched(body: Option<Stream>) | FetchRejected(reason: Thrown)

  /** The final state of a promise; `Pending` is a promise that never settles. */
  datatype Settlement<+T> = Resolved(value: T) | Rejected(reason: Thrown) | Pending

  /** What `Netgrep.search` resolves with: `result` is the boolean the code produces. */
  datatype NetgrepResult = NetgrepResult(url: string, result: bool)

  /** What `searchBatch` hands to its callback; `error == None` is `error: null`. */
  datatype BatchNetgrepResult = BatchNetgrepResult(url: string, result: bool, error: Option<string>)
}
