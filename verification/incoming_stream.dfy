/** The response-body side: `blobReader.Read` performs one host `read()` pull
    per call and copies what it got into the caller's buffer. The host reader
    is modelled by the chunks it yields and how it ends; after the end every
    further pull repeats that end, as a finished host stream does.

    Next to the reader as written, `ReadBuffered` is the corrected reader: it
    keeps the part of a chunk that did not fit and reports `io.EOF` once the
    host stream is done, as the `io.Reader` contract expects (a `(0, nil)`
    return does not indicate end of data). */
module IncomingStream {
  import opened Wrappers
  import opened Errors
  import opened Bytes
  import opened DeferredBridge

  /** The value a host `read()` promise resolves to: `{done: true}` or `{done: false, value: chunk}`. */
  datatype HostRead = ReadDone | ReadChunk(bytes: seq<uint8>)

  /** What `Read(p)` returns: the count, the error, and the contents of `p` afterwards. */
  datatype ReadReturn = ReadReturn(n: nat, err: Option<Error>, buffer: seq<uint8>)

  /** `blobReader.Read` as written, given the settlement of its one host pull. */
  function BlobRead(pull: Settlement<HostRead>, p: seq<uint8>): (r: ReadReturn)
    ensures |r.buffer| == |p| && r.n <= |p|
    ensures pull.Rejected? ==> r == ReadReturn(0, Some(RejectionError(pull.payload)), p)
    ensures pull == Resolved(ReadDone) ==> r == ReadReturn(0, None, p)
    ensures pull.Resolved? && pull.value.ReadChunk? ==>
      r.err == None && r.n == Min(|p|, |pull.value.bytes|)
    ensures pull.Resolved? && pull.value.ReadChunk? ==>
      forall i :: 0 <= i < |r.buffer| ==>
        r.buffer[i] == if i < |pull.value.bytes| then pull.value.bytes[i] else p[i]
  {
    var result: Result<HostRead, Error> := Await(pull);
    match result
    case Failure(e) => ReadReturn(0, Some(e), p)
    case Success(read) =>
      match read
      case ReadDone => ReadReturn(0, None, p)
      case ReadChunk(b) =>
        CopyBytesSlices(p, b);
        ReadReturn(CopiedCount(p, b), None, CopyBytes(p, b))
  }

  /** How a host stream finishes. */
  datatype StreamEnd = EndDone | EndRejected(payload: Payload)

  /** A host stream reader: the chunks its pulls yield, in order, then its end. */
  datatype HostStream = HostStream(chunks: seq<seq<uint8>>, end: StreamEnd)

  /** The settlement of the host pull with index `k`. */
  function HostPull(h: HostStream, k: nat): Settlement<HostRead> {
    if k < |h.chunks| then Resolved(ReadChunk(h.chunks[k]))
    else match h.end
      case EndDone => Resolved(ReadDone)
      case EndRejected(p) => Rejected(p)
  }

  /** The error a reader should report once the host stream has ended. */
  function EndError(e: StreamEnd): Error {
    match e
    case EndDone => EOF
    case EndRejected(p) => RejectionError(p)
  }

  /** As written, a finished host stream never yields `io.EOF`: every further
      read reports zero bytes and no error, so a caller that reads until an
      error (as `io.ReadAll` does) never stops. */
  lemma DoneIsNotEndOfFile(h: HostStream, k: nat, p: seq<uint8>)
    requires h.end == EndDone && k >= |h.chunks|
    ensures BlobRead(HostPull(h, k), p) == ReadReturn(0, None, p)
  {
  }

  /** The bytes a caller collects from `count` as-written reads into fresh
      buffers of `size` bytes, starting at pull `k`. */
  function ReadSeries(h: HostStream, k: nat, size: nat, count: nat): seq<uint8>
    decreases count
  {
    if count == 0 then []
    else
      var r := BlobRead(HostPull(h, k), Zeros(size));
      r.buffer[..r.n] + ReadSeries(h, k + 1, size, count - 1)
  }

  /** Each chunk cut down to at most `size` bytes. */
  function Truncated(chunks: seq<seq<uint8>>, size: nat): seq<seq<uint8>> {
    seq(|chunks|, i requires 0 <= i < |chunks| => chunks[i][..Min(|chunks[i]|, size)])
  }

  /** As written, reading the whole stream with `size`-byte buffers delivers
      every chunk cut down to `size` bytes: the rest of each chunk is lost. */
  lemma {:induction false} ReadSeriesTruncates(h: HostStream, k: nat, size: nat, count: nat)
    requires k + count <= |h.chunks|
    ensures ReadSeries(h, k, size, count) == Flatten(Truncated(h.chunks[k..k + count], size))
    decreases count
  {
    if count > 0 {
      ReadSeriesTruncates(h, k + 1, size, count - 1);
      var t := Truncated(h.chunks[k..k + count], size);
      assert t[1..] == Truncated(h.chunks[k + 1..k + count], size);
    }
  }

  /** A concrete loss: a 3-byte chunk read through 2-byte buffers yields only
      its first two bytes. The next host pull is already `done`, so that read
      returns `(0, nil)` and byte 3 is never delivered. */
  lemma ChunkTailIsDropped()
    ensures var h := HostStream([[1, 2, 3]], EndDone);
      && BlobRead(HostPull(h, 0), [0, 0]) == ReadReturn(2, None, [1, 2])
      && BlobRead(HostPull(h, 1), [0, 0]) == ReadReturn(0, None, [0, 0])
  {
    var h := HostStream([[1, 2, 3]], EndDone);
    var r := BlobRead(HostPull(h, 0), [0, 0]);
    assert r.buffer[..2] == [1, 2, 3][..2] == [1, 2];
  }

  /** The corrected reader's state: the next host pull and the bytes of the
      last chunk not yet handed out. */
  datatype Cursor = Cursor(next: nat, pending: seq<uint8>)

  predicate ValidCursor(h: HostStream, c: Cursor) {
    c.next <= |h.chunks|
  }

  /** The cursor moved on: one more host pull taken, or fewer pending bytes. */
  predicate Advanced(c: Cursor, c': Cursor) {
    c'.next == c.next + 1 || (c'.next == c.next && |c'.pending| < |c.pending|)
  }

  /** The corrected reader's cursor after a read, and what the read returned. */
  datatype Step = Step(cursor: Cursor, ret: ReadReturn)

  /** The corrected reader: pending bytes are served before any
      new pull, a chunk larger than the buffer leaves its tail pending, and a
      finished host stream yields `io.EOF`. */
  function ReadBuffered(h: HostStream, c: Cursor, p: seq<uint8>): (res: Step)
    requires ValidCursor(h, c)
    ensures ValidCursor(h, res.cursor)
    ensures |res.ret.buffer| == |p| && res.ret.n <= |p|
    ensures res.ret.err.Some? ==> res.ret.n == 0 && res.cursor == c && c.pending == [] && c.next == |h.chunks|
    ensures res.ret.err.Some? ==> res.ret.err.value == EndError(h.end)
    ensures res.ret.err.None? && |p| > 0 ==> Advanced(c, res.cursor)
    ensures |c.pending| > 0 ==>
      res.ret.err == None && res.cursor.next == c.next && res.ret.n == Min(|p|, |c.pending|)
    ensures c.pending == [] && c.next < |h.chunks| ==>
      res.ret.err == None && res.cursor.next == c.next + 1 && res.ret.n == Min(|p|, |h.chunks[c.next]|)
  {
    if |c.pending| > 0 then
      var n := CopiedCount(p, c.pending);
      Step(Cursor(c.next, c.pending[n..]), ReadReturn(n, None, CopyBytes(p, c.pending)))
    else if c.next == |h.chunks| then
      Step(c, ReadReturn(0, Some(EndError(h.end)), p))
    else
      var b := h.chunks[c.next];
      var n := CopiedCount(p, b);
      Step(Cursor(c.next + 1, b[n..]), ReadReturn(n, None, CopyBytes(p, b)))
  }

  /** Nothing is lost or invented by a corrected read: the bytes it returns,
      followed by what the reader still owes afterwards, are exactly what it
      owed before. */
  lemma ReadBufferedConserves(h: HostStream, c: Cursor, p: seq<uint8>)
    requires ValidCursor(h, c)
    ensures var res := ReadBuffered(h, c, p);
      res.ret.err.None? ==> res.ret.buffer[..res.ret.n] + Remaining(h, res.cursor) == Remaining(h, c)
  {
    var later := Flatten(h.chunks[c.next..]);
    if |c.pending| > 0 {
      CopySplit(p, c.pending, later);
    } else if c.next < |h.chunks| {
      var b := h.chunks[c.next];
      FlattenSuffix(h.chunks, c.next);
      CopySplit(p, b, Flatten(h.chunks[c.next + 1..]));
      assert c.pending + later == b + Flatten(h.chunks[c.next + 1..]);
    }
  }

  /** Everything a caller collected, and the error that stopped it. */
  datatype Drained = Drained(bytes: seq<uint8>, err: Error)

  /** A caller reading with fresh `size`-byte buffers until the first error:
      the bytes collected and that error. */
  function Drain(h: HostStream, c: Cursor, size: nat): Drained
    requires size > 0 && ValidCursor(h, c)
    decreases |h.chunks| - c.next, |c.pending|
  {
    var step := ReadBuffered(h, c, Zeros(size));
    var c', r := step.cursor, step.ret;
    if r.err.Some? then Drained([], r.err.value)
    else
      var rest := Drain(h, c', size);
      Drained(r.buffer[..r.n] + rest.bytes, rest.err)
  }

  /** What the corrected reader still owes: the pending bytes, then the chunks not yet pulled. */
  function Remaining(h: HostStream, c: Cursor): seq<uint8>
    requires ValidCursor(h, c)
  {
    c.pending + Flatten(h.chunks[c.next..])
  }

  /** One step of `Drain`: a successful read contributes its bytes and reading goes on. */
  lemma DrainStep(h: HostStream, c: Cursor, size: nat)
    requires size > 0 && ValidCursor(h, c)
    ensures var step := ReadBuffered(h, c, Zeros(size));
      step.ret.err.None? ==>
        && step.ret.buffer[..step.ret.n] + Remaining(h, step.cursor) == Remaining(h, c)
        && Drain(h, c, size) == Drained(step.ret.buffer[..step.ret.n] + Drain(h, step.cursor, size).bytes, Drain(h, step.cursor, size).err)
    ensures var step := ReadBuffered(h, c, Zeros(size));
      step.ret.err.Some? ==> Drain(h, c, size) == Drained([], EndError(h.end)) && Remaining(h, c) == []
  {
    var step := ReadBuffered(h, c, Zeros(size));
    ReadBufferedConserves(h, c, Zeros(size));
    if step.ret.err.Some? {
      assert h.chunks[c.next..] == [];
    }
  }

  /** Round trip for the corrected reader: for any non-empty buffer, the caller
      collects every byte of every chunk, in order, then the stream's own end. */
  lemma {:induction false} DrainDelivers(h: HostStream, c: Cursor, size: nat)
    requires size > 0 && ValidCursor(h, c)
    ensures Drain(h, c, size).bytes == Remaining(h, c)
    ensures Drain(h, c, size).err == EndError(h.end)
    decreases |h.chunks| - c.next, |c.pending|
  {
    DrainStep(h, c, size);
    var step := ReadBuffered(h, c, Zeros(size));
    if step.ret.err.None? {
      DrainDelivers(h, step.cursor, size);
    }
  }

  /** The corrected reader reports `io.EOF` on its first read after a done stream. */
  lemma ReadBufferedDoneIsEndOfFile(h: HostStream, p: seq<uint8>)
    requires h.end == EndDone
    ensures ReadBuffered(h, Cursor(|h.chunks|, []), p).ret == ReadReturn(0, Some(EOF), p)
  {
  }
}
