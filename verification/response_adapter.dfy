/** `fetch2http`: turning a settled host response into an `http.Response`.
    Headers are not modelled (see the README). */
module ResponseAdapter {
  import opened Wrappers
  import opened Errors
  import opened Bytes
  import opened DeferredBridge
  import opened IncomingStream

  /** A materialised body: its `size` and the reader `stream().getReader()` yields. */
  datatype Blob = Blob(size: nat, stream: HostStream)

  /** A settled host response: `status`, `statusText`, and the settlement of `blob()`. */
  datatype HostResponse = HostResponse(status: int, statusText: string, blob: Settlement<Blob>)

  /** The body attached to the response: an empty `strings.Reader`, or a
      `blobReader` over the blob's stream reader. */
  datatype Body = EmptyBody | BlobBody(stream: HostStream)

  /** The fields of `http.Response` that `fetch2http` fills in. */
  datatype HttpResponse = HttpResponse(status: string, statusCode: int, contentLength: int, body: Body)

  /** `fetch2http`. The blob promise must resolve: a rejection is a panic in
      the code, not an error path, so it is a precondition here. */
  function Fetch2Http(h: HostResponse): (r: HttpResponse)
    requires h.blob.Resolved?
    ensures r.status == h.statusText && r.statusCode == h.status
    ensures r.contentLength == h.blob.value.size
    ensures r.body == EmptyBody <==> h.blob.value.size == 0
    ensures r.body.BlobBody? ==> r.body.stream == h.blob.value.stream
  {
    var blob := h.blob.value;
    var size := blob.size;
    var reader := if size == 0 then EmptyBody else BlobBody(blob.stream);
    HttpResponse(h.statusText, h.status, size, reader)
  }

  /** One `Read(p)` on the response body as written; `k` is the number of
      reads made on it before. The empty `strings.Reader` answers every read,
      whatever the buffer, with `(0, io.EOF)`; a blob body makes one host pull. */
  function BodyRead(body: Body, k: nat, p: seq<uint8>): (r: ReadReturn)
    ensures |r.buffer| == |p| && r.n <= |p|
    ensures body == EmptyBody ==> r == ReadReturn(0, Some(EOF), p)
    ensures body.BlobBody? && k >= |body.stream.chunks| && body.stream.end == EndDone ==>
      r == ReadReturn(0, None, p)
    ensures body.BlobBody? && k >= |body.stream.chunks| && body.stream.end.EndRejected? ==>
      r == ReadReturn(0, Some(RejectionError(body.stream.end.payload)), p)
    ensures body.BlobBody? && k < |body.stream.chunks| ==>
      r.err == None && r.n == Min(|p|, |body.stream.chunks[k]|)
    ensures body.BlobBody? && k < |body.stream.chunks| ==>
      forall i :: 0 <= i < |r.buffer| ==>
        r.buffer[i] == if i < |body.stream.chunks[k]| then body.stream.chunks[k][i] else p[i]
  {
    match body
    case EmptyBody => ReadReturn(0, Some(EOF), p)
    case BlobBody(h) => BlobRead(HostPull(h, k), p)
  }

  /** A zero-size response reports end-of-data on its very first read, leaves
      the buffer alone, and holds no host stream at all. */
  lemma EmptyResponseIsExhausted(h: HostResponse, p: seq<uint8>)
    requires h.blob.Resolved? && h.blob.value.size == 0
    ensures Fetch2Http(h).body == EmptyBody
    ensures BodyRead(Fetch2Http(h).body, 0, p) == ReadReturn(0, Some(EOF), p)
  {
  }

  /** A blob whose stream yields exactly `size` bytes and then finishes. */
  predicate ConsistentBlob(b: Blob) {
    |Flatten(b.stream.chunks)| == b.size && b.stream.end == EndDone
  }

  /** Reading the whole body with `size`-byte buffers through the corrected
      reader of `IncomingStream`. */
  function DrainBody(body: Body, size: nat): Drained
    requires size > 0
  {
    match body
    case EmptyBody => Drained([], EOF)
    case BlobBody(h) => Drain(h, Cursor(0, []), size)
  }

  /** With the corrected reader, the body of a response delivers exactly its
      blob's bytes, `ContentLength` of them, and then `io.EOF`. */
  lemma ContentLengthMatchesBody(h: HostResponse, size: nat)
    requires size > 0 && h.blob.Resolved? && ConsistentBlob(h.blob.value)
    ensures DrainBody(Fetch2Http(h).body, size).bytes == Flatten(h.blob.value.stream.chunks)
    ensures |DrainBody(Fetch2Http(h).body, size).bytes| == Fetch2Http(h).contentLength
    ensures DrainBody(Fetch2Http(h).body, size).err == EOF
  {
    var blob := h.blob.value;
    if blob.size == 0 {
      assert Flatten(blob.stream.chunks) == [];
    } else {
      DrainDelivers(blob.stream, Cursor(0, []), size);
      assert blob.stream.chunks[0..] == blob.stream.chunks;
    }
  }
}
