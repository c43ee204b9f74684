/** The chunk loop shared by `Netgrep.search` and `netgrep`: `handleReader`
    reads one chunk at a time, runs the matcher on that chunk alone, stops at
    the first match and otherwise reads on until the reader is done. */
module Reader {
  import opened Data

  /** Index of the first chunk the matcher accepts, if any. */
  function FirstMatch(chunks: seq<Chunk>, pattern: string, matches: Matcher): (r: Option<nat>)
    ensures r.Some? ==> r.value < |chunks| && matches(chunks[r.value], pattern)
    ensures r.Some? ==> forall j :: 0 <= j < r.value ==> !matches(chunks[j], pattern)
    ensures r.None? <==> forall j :: 0 <= j < |chunks| ==> !matches(chunks[j], pattern)
  {
    if chunks == [] then None
    else if matches(chunks[0], pattern) then Some(0)
    else
      match FirstMatch(chunks[1..], pattern, matches)
      case None => None
      case Some(k) => Some(k + 1)
  }

  /** How the loop over one body ends: at the chunk with index `index`, at
      `done`, or at a `read()` that rejects. */
  datatype Verdict = Matched(index: nat) | Exhausted | ReadFailed(reason: Thrown)

  /** The loop's verdict: a match is decided chunk by chunk, never on bytes
      accumulated across chunks. */
  function Scan(s: Stream, pattern: string, matches: Matcher): (v: Verdict)
    ensures v.Matched? <==> exists j :: 0 <= j < |s.chunks| && matches(s.chunks[j], pattern)
    ensures v.Matched? ==> v.index < |s.chunks| && matches(s.chunks[v.index], pattern)
    ensures v.Matched? ==> forall j :: 0 <= j < v.index ==> !matches(s.chunks[j], pattern)
    ensures v.Exhausted? <==> s.end.Done? && forall j :: 0 <= j < |s.chunks| ==> !matches(s.chunks[j], pattern)
    ensures v.ReadFailed? <==> s.end.Failed? && forall j :: 0 <= j < |s.chunks| ==> !matches(s.chunks[j], pattern)
    ensures v.ReadFailed? ==> s.end.reason == v.reason
  {
    match FirstMatch(s.chunks, pattern, matches)
    case Some(k) => Matched(k)
    case None => if s.end.Done? then Exhausted else ReadFailed(s.end.reason)
  }

  /** The chunks handed to the matcher, in the order they were read. */
  function Examined(s: Stream, pattern: string, matches: Matcher): (r: seq<Chunk>)
    ensures |r| <= |s.chunks| && r == s.chunks[..|r|]
    ensures forall j :: 0 <= j < |r| - 1 ==> !matches(r[j], pattern)
    ensures |r| < |s.chunks| ==> |r| > 0 && matches(r[|r| - 1], pattern)
    ensures Scan(s, pattern, matches).Matched? ==> |r| == Scan(s, pattern, matches).index + 1
    ensures !Scan(s, pattern, matches).Matched? ==> r == s.chunks
  {
    match FirstMatch(s.chunks, pattern, matches)
    case Some(k) => s.chunks[..k + 1]
    case None => s.chunks
  }

  /** `handleReader`: one `read()` per iteration, the matcher on the current
      chunk only, an early exit at the first match. */
  method HandleReader(s: Stream, pattern: string, matches: Matcher) returns (v: Verdict, examined: seq<Chunk>)
    ensures v == Scan(s, pattern, matches)
    ensures examined == Examined(s, pattern, matches)
  {
    var i := 0;
    examined := [];
    while true
      invariant i <= |s.chunks|
      invariant examined == s.chunks[..i]
      invariant forall j :: 0 <= j < i ==> !matches(s.chunks[j], pattern)
      decreases |s.chunks| - i
    {
      if i == |s.chunks| {
        // `read()` reports `done`, or rejects.
        v := if s.end.Done? then Exhausted else ReadFailed(s.end.reason);
        assert examined == s.chunks;
        return;
      }
      var chunk := s.chunks[i];
      examined := examined + [chunk];
      i := i + 1;
      if matches(chunk, pattern) {
        v := Matched(i - 1);
        return;
      }
    }
  }

  /** How the promise around `handleReader` settles, as the code is written.
      Only the first `read()` is chained to `.catch(reject)`; each later one is
      started inside a `.then` callback that does not return its promise, so a
      rejection there reaches no handler and the search never settles.
      `chunksBefore` is the number of chunks read before the verdict. */
  function SettleAsWritten(v: Verdict, chunksBefore: nat): (o: Settlement<bool>)
    ensures o == Resolved(true) <==> v.Matched?
    ensures o == Resolved(false) <==> v.Exhausted?
    ensures o.Pending? <==> v.ReadFailed? && chunksBefore > 0
    ensures v.ReadFailed? && chunksBefore == 0 ==> o == Rejected(v.reason)
  {
    match v
    case Matched(_) => Resolved(true)
    case Exhausted => Resolved(false)
    case ReadFailed(reason) => if chunksBefore == 0 then Rejected(reason) else Pending
  }

  /** The evident intent: every `read()` rejection rejects the search, which
      returning the recursive `handleReader(reader)` call would achieve. */
  function SettleCorrected(v: Verdict): (o: Settlement<bool>)
    ensures !o.Pending?
    ensures forall n: nat :: !SettleAsWritten(v, n).Pending? ==> o == SettleAsWritten(v, n)
    ensures v.ReadFailed? ==> o == Rejected(v.reason)
  {
    match v
    case Matched(_) => Resolved(true)
    case Exhausted => Resolved(false)
    case ReadFailed(reason) => Rejected(reason)
  }

  /** A pattern made of ASCII characters only. */
  predicate IsAscii(p: string) {
    forall i :: 0 <= i < |p| ==> p[i] as int < 128
  }

  /** The UTF-8 bytes of an ASCII pattern: one byte per character. */
  function AsciiBytes(p: string): (b: Chunk)
    requires IsAscii(p)
    ensures |b| == |p|
    ensures forall i :: 0 <= i < |p| ==> b[i] as int == p[i] as int
  {
    seq(|p|, i requires 0 <= i < |p| => p[i] as int as bv8)
  }

  /** A plain substring matcher, used to show the chunk boundary limitation. */
  ghost predicate Contains(hay: Chunk, needle: Chunk) {
    exists k :: 0 <= k <= |hay| && needle <= hay[k..]
  }

  /** A pattern split across two chunks is missed even though the whole
      body contains it: "ab" arriving as "a" then "b". */
  lemma SplitPatternIsMissed(m: Matcher)
    requires forall c: Chunk, p: string :: IsAscii(p) ==> m(c, p) == Contains(c, AsciiBytes(p))
    ensures Contains([97] + [98], AsciiBytes("ab"))
    ensures Scan(Stream([[97], [98]], Done), "ab", m) == Exhausted
  {
    assert IsAscii("ab");
    var ab := AsciiBytes("ab");
    assert ab == [97, 98];
    assert ab <= ([97] + [98])[0..];
    assert !m([97], "ab");
    assert !m([98], "ab");
    var chunks: seq<Chunk> := [[97], [98]];
    assert forall j :: 0 <= j < |chunks| ==> !m(chunks[j], "ab");
  }
}
