/** readBoundedResponseBody of `scripts/final-submission-gate.ts`: a response stream collected chunk
    by chunk under a byte bound, then copied into one array. */
module BoundedBody {
  import opened Options
  import Zip

  type Byte = Zip.Byte

  /** What one read of the stream may give, short of its end. */
  datatype Read = Chunk(bytes: seq<Byte>) | NotBytes | Broken

  datatype Failure = BoundInvalid | NotByteChunk | ReadFailed | TooLarge | Empty
  datatype Result<+T> = Ok(value: T) | Err(failure: Failure)

  /** The reader of a response body that will deliver `stream` and then end. */
  class Reader {
    const stream: seq<Read>
    var position: nat
    var cancelled: bool
    var released: bool

    constructor (stream: seq<Read>)
      ensures this.stream == stream && position == 0 && !cancelled && !released
    {
      this.stream := stream;
      position, cancelled, released := 0, false, false;
    }

    method Next() returns (r: Option<Read>)
      requires position <= |stream|
      modifies `position
      ensures old(position) < |stream| ==> position == old(position) + 1 && r == Some(stream[old(position)])
      ensures old(position) == |stream| ==> position == |stream| && r == None
    {
      if position == |stream| {
        return None;
      }
      r := Some(stream[position]);
      position := position + 1;
    }
  }

  predicate AllChunks(stream: seq<Read>) {
    forall read :: read in stream ==> read.Chunk?
  }

  /** The bytes the stream delivers. */
  function Content(stream: seq<Read>): seq<Byte> {
    if stream == [] then []
    else
      var last := stream[|stream| - 1];
      Content(stream[..|stream| - 1]) + if last.Chunk? then last.bytes else []
  }

  function Concat(chunks: seq<seq<Byte>>): seq<Byte> {
    if chunks == [] then [] else Concat(chunks[..|chunks| - 1]) + chunks[|chunks| - 1]
  }

  lemma ContentNext(stream: seq<Read>, n: nat)
    requires n < |stream|
    ensures Content(stream[..n + 1]) == Content(stream[..n]) + if stream[n].Chunk? then stream[n].bytes else []
    ensures AllChunks(stream[..n]) && stream[n].Chunk? ==> AllChunks(stream[..n + 1])
  {
    assert stream[..n + 1][..n] == stream[..n];
    assert stream[..n + 1] == stream[..n] + [stream[n]];
  }

  lemma {:induction false} ContentGrows(stream: seq<Read>, n: nat)
    requires n <= |stream|
    ensures |Content(stream[..n])| <= |Content(stream)|
    decreases |stream| - n
  {
    if n == |stream| {
      assert stream[..n] == stream;
    } else {
      ContentNext(stream, n);
      ContentGrows(stream, n + 1);
    }
  }

  /** The first read that stops the loop is the n-th: what came before it was chunks within bound. */
  predicate StopsAt(stream: seq<Read>, maximumBytes: int, n: nat) {
    n < |stream| && AllChunks(stream[..n]) && |Content(stream[..n])| <= maximumBytes
    && (stream[n].Chunk? ==> |Content(stream[..n + 1])| > maximumBytes)
  }

  lemma StopsOnce(stream: seq<Read>, maximumBytes: int, n: nat, m: nat)
    requires StopsAt(stream, maximumBytes, n) && StopsAt(stream, maximumBytes, m)
    ensures n == m
  {
    if n < m {
      StopIsFinal(stream, maximumBytes, n, m);
    } else if m < n {
      StopIsFinal(stream, maximumBytes, m, n);
    }
  }

  lemma StopIsFinal(stream: seq<Read>, maximumBytes: int, n: nat, m: nat)
    requires StopsAt(stream, maximumBytes, n) && n < m <= |stream|
    ensures !(AllChunks(stream[..m]) && |Content(stream[..m])| <= maximumBytes)
  {
    assert stream[..m][n] == stream[n] && stream[n] in stream[..m];
    ContentGrows(stream[..m], n + 1);
    assert stream[..m][..n + 1] == stream[..n + 1];
  }

  predicate BoundIsValid(maximumBytes: int) {
    1 <= maximumBytes <= 100_000_000
  }

  /** The loop: it reads the whole stream, or stops at the first read it must refuse; only the size
      bound cancels the stream. */
  method Collect(reader: Reader, maximumBytes: int) returns (r: Result<seq<seq<Byte>>>)
    requires reader.position == 0 && BoundIsValid(maximumBytes) && !reader.cancelled
    modifies reader`position, reader`cancelled
    ensures r.Ok? ==>
      && AllChunks(reader.stream) && Concat(r.value) == Content(reader.stream)
      && |Content(reader.stream)| <= maximumBytes && reader.position == |reader.stream|
    ensures r.Err? ==>
      && 1 <= reader.position <= |reader.stream| && StopsAt(reader.stream, maximumBytes, reader.position - 1)
      && r.failure == match reader.stream[reader.position - 1] {
           case Chunk(_) => TooLarge
           case NotBytes => NotByteChunk
           case Broken => ReadFailed
         }
    ensures reader.cancelled <==> r == Err(TooLarge)
  {
    hide Content, Concat, AllChunks, StopsAt;
    var chunks: seq<seq<Byte>> := [];
    var totalBytes := 0;
    NothingRead(reader.stream);
    while true
      invariant reader.position <= |reader.stream| && !reader.cancelled
      invariant AllChunks(reader.stream[..reader.position])
      invariant Concat(chunks) == Content(reader.stream[..reader.position])
      invariant totalBytes == |Content(reader.stream[..reader.position])| <= maximumBytes
      decreases |reader.stream| - reader.position
    {
      ghost var n := reader.position;
      var next := reader.Next();
      if next.None? {
        break;
      }
      ContentNext(reader.stream, n);
      StopsHere(reader.stream, maximumBytes, n);
      match next.value
      case Broken => return Err(ReadFailed);
      case NotBytes => return Err(NotByteChunk);
      case Chunk(value) =>
        if |value| == 0 {
          continue;
        }
        if totalBytes > maximumBytes - |value| {
          reader.cancelled := true;
          return Err(TooLarge);
        }
        totalBytes := totalBytes + |value|;
        ConcatNext(chunks, value);
        chunks := chunks + [value];
    }
    assert reader.stream[..reader.position] == reader.stream;
    r := Ok(chunks);
  }

  lemma NothingRead(stream: seq<Read>)
    ensures AllChunks(stream[..0]) && Content(stream[..0]) == [] && Concat([]) == []
  {
  }

  lemma StopsHere(stream: seq<Read>, maximumBytes: int, n: nat)
    requires n < |stream| && AllChunks(stream[..n]) && |Content(stream[..n])| <= maximumBytes
    ensures StopsAt(stream, maximumBytes, n)
      <==> (stream[n].Chunk? ==> |Content(stream[..n])| + |stream[n].bytes| > maximumBytes)
  {
    ContentNext(stream, n);
  }

  lemma ConcatNext(chunks: seq<seq<Byte>>, value: seq<Byte>)
    ensures Concat(chunks + [value]) == Concat(chunks) + value
  {
    assert (chunks + [value])[..|chunks|] == chunks;
  }

  /** The copy: every chunk at its offset. */
  method Fill(chunks: seq<seq<Byte>>) returns (output: array<Byte>)
    ensures fresh(output) && output[..] == Concat(chunks)
  {
    output := new Byte[|Concat(chunks)|](i => 0);
    var offset := 0;
    for k := 0 to |chunks|
      invariant offset == |Concat(chunks[..k])| <= output.Length
      invariant output[..offset] == Concat(chunks[..k])
    {
      PrefixFits(chunks, k);
      var chunk := chunks[k];
      forall i | 0 <= i < |chunk| {
        output[offset + i] := chunk[i];
      }
      assert output[..offset + |chunk|] == Concat(chunks[..k]) + chunk;
      offset := offset + |chunk|;
    }
    assert chunks[..|chunks|] == chunks;
  }

  lemma PrefixFits(chunks: seq<seq<Byte>>, k: nat)
    requires k < |chunks|
    ensures Concat(chunks[..k + 1]) == Concat(chunks[..k]) + chunks[k]
    ensures |Concat(chunks[..k + 1])| <= |Concat(chunks)|
    decreases |chunks| - k
  {
    assert chunks[..k + 1] == chunks[..k] + [chunks[k]];
    ConcatNext(chunks[..k], chunks[k]);
    if k + 1 < |chunks| {
      PrefixFits(chunks, k + 1);
    } else {
      assert chunks[..k + 1] == chunks;
    }
  }

  /** readBoundedResponseBody: it succeeds exactly on a valid bound and a stream of bytes whose total
      is between 1 and the bound, and then returns those bytes; the lock is released unless it was
      never taken. */
  method ReadBoundedResponseBody(reader: Option<Reader>, maximumBytes: int) returns (r: Result<array<Byte>>)
    requires reader.Some? ==> reader.value.position == 0 && !reader.value.cancelled && !reader.value.released
    modifies if reader.Some? then {reader.value} else {}
    ensures r.Ok? <==>
      && BoundIsValid(maximumBytes) && reader.Some? && AllChunks(reader.value.stream)
      && 1 <= |Content(reader.value.stream)| <= maximumBytes
    ensures r.Ok? ==> fresh(r.value) && r.value[..] == Content(reader.value.stream)
    ensures reader.Some? ==> reader.value.released == (r != Err(BoundInvalid))
    ensures r == Err(BoundInvalid) <==> !BoundIsValid(maximumBytes) || reader.None?
    ensures reader.Some? ==> (reader.value.cancelled <==> r == Err(TooLarge))
    ensures r == Err(TooLarge) ==>
      reader.value.position >= 1 && StopsAt(reader.value.stream, maximumBytes, reader.value.position - 1)
  {
    if !BoundIsValid(maximumBytes) || reader.None? {
      return Err(BoundInvalid);
    }
    var source := reader.value;
    var collected := Collect(source, maximumBytes);
    source.released := true;
    if collected.Err? {
      StopIsFinal(source.stream, maximumBytes, source.position - 1, |source.stream|);
      assert source.stream[..|source.stream|] == source.stream;
      return Err(collected.failure);
    }
    if |Content(source.stream)| < 1 {
      return Err(Empty);
    }
    var output := Fill(collected.value);
    r := Ok(output);
  }
}
