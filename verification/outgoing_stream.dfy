/** The request-body side: `createReadableStream` turns a Go `io.Reader` into a
    host stream. Each time the host invokes its chunk function, the function
    reads once into a fresh 100-byte buffer and either enqueues the bytes read
    or closes the stream. The reader is modelled by the results of its
    successive `Read` calls, the controller by the log of what it was told. */
module OutgoingStream {
  import opened Wrappers
  import opened Errors
  import opened Bytes

  /** Size of the buffer allocated for every read. */
  const ChunkSize: nat := 100

  /** One `Read(b)` call on the source: the `n` bytes it put at the start of
      `b` and the error it returned alongside them. */
  datatype SourceRead = SourceRead(data: seq<uint8>, err: Option<Error>)

  /** The `io.Reader` contract: a read never reports more bytes than the buffer holds. */
  predicate WellFormedRead(rd: SourceRead) {
    |rd.data| <= ChunkSize
  }

  predicate WellFormedReads(results: seq<SourceRead>) {
    forall i :: 0 <= i < |results| ==> WellFormedRead(results[i])
  }

  /** A call on the stream controller. */
  datatype Event = Enqueue(chunk: seq<uint8>) | Close

  /** One invocation of the chunk function: read into `b`, then either close
      (on any error) or copy the first `n` bytes of `b` into a new
      `Uint8Array(n)` and enqueue it. Buffer bytes past `n` are never copied,
      so the model fills them with zeros. */
  function ChunkStep(rd: SourceRead): (ev: Event)
    requires WellFormedRead(rd)
    ensures ev == Close <==> rd.err.Some?
    ensures rd.err.None? ==> ev == Enqueue(rd.data)
  {
    var b := CopyBytes(Zeros(ChunkSize), rd.data);
    var n := |rd.data|;
    if rd.err.Some? then Close
    else
      var u := CopyBytes(Zeros(n), b);
      CopyBytesSlices(Zeros(ChunkSize), rd.data);
      CopyBytesSlices(Zeros(n), b);
      assert u == u[..n] == b[..n] == rd.data;
      Enqueue(u)
  }

  /** The controller log when the host keeps invoking the chunk function while
      it keeps enqueuing, against a source that answers with `results`. */
  function Drive(results: seq<SourceRead>): (log: seq<Event>)
    requires WellFormedReads(results)
    ensures |log| <= |results|
    ensures forall i :: 0 <= i < |log| ==> log[i] == ChunkStep(results[i])
    ensures forall i :: 0 <= i < |log| - 1 ==> log[i].Enqueue?
  {
    if |results| == 0 then []
    else
      var ev := ChunkStep(results[0]);
      if ev == Close then [Close] else [ev] + Drive(results[1..])
  }

  /** The bytes the host received: the concatenated enqueued chunks. */
  function Enqueued(log: seq<Event>): seq<uint8> {
    if |log| == 0 then []
    else (if log[0].Enqueue? then log[0].chunk else []) + Enqueued(log[1..])
  }

  /** Index of the first read that returned an error, or |results| if none did. */
  function FirstError(results: seq<SourceRead>): (k: nat)
    ensures k <= |results|
    ensures forall i :: 0 <= i < k ==> results[i].err.None?
    ensures k < |results| ==> results[k].err.Some?
  {
    if |results| == 0 then 0
    else if results[0].err.Some? then 0
    else 1 + FirstError(results[1..])
  }

  /** The data of the reads that succeeded before the first error, concatenated. */
  function DataBefore(results: seq<SourceRead>, k: nat): seq<uint8>
    requires k <= |results|
  {
    if k == 0 then [] else results[0].data + DataBefore(results[1..], k - 1)
  }

  /** Driving past a successful first read enqueues its bytes and goes on with the rest. */
  lemma DriveCons(results: seq<SourceRead>)
    requires WellFormedReads(results) && |results| > 0 && results[0].err.None?
    ensures Drive(results) == [Enqueue(results[0].data)] + Drive(results[1..])
    ensures Enqueued(Drive(results)) == results[0].data + Enqueued(Drive(results[1..]))
  {
    var log := [Enqueue(results[0].data)] + Drive(results[1..]);
    assert log[1..] == Drive(results[1..]);
  }

  /** What reaches the host is exactly the successful reads before the first
      error; bytes returned together with an error are dropped. */
  lemma {:induction false} DriveForwardsPrefix(results: seq<SourceRead>)
    requires WellFormedReads(results)
    ensures Enqueued(Drive(results)) == DataBefore(results, FirstError(results))
    decreases |results|
  {
    if |results| == 0 {
    } else if results[0].err.Some? {
      assert Drive(results) == [Close];
    } else {
      DriveForwardsPrefix(results[1..]);
      DriveCons(results);
    }
  }

  /** The stream is closed exactly when some read failed: then the log ends
      with that read's `Close`; otherwise every read was enqueued. */
  lemma {:induction false} DriveClosesOnError(results: seq<SourceRead>)
    requires WellFormedReads(results)
    ensures FirstError(results) < |results| ==>
      |Drive(results)| == FirstError(results) + 1 && Drive(results)[FirstError(results)] == Close
    ensures FirstError(results) == |results| ==>
      |Drive(results)| == |results| && Close !in Drive(results)
    decreases |results|
  {
    if |results| == 0 {
    } else if results[0].err.Some? {
      assert Drive(results) == [Close];
    } else {
      DriveClosesOnError(results[1..]);
      DriveCons(results);
    }
  }

  /** The reads a `strings.Reader` or `bytes.Reader` over `s` answers to
      successive 100-byte buffers: full chunks, a final short one, then `(0, EOF)`. */
  function BytesReaderReads(s: seq<uint8>): (results: seq<SourceRead>)
    ensures WellFormedReads(results)
    decreases |s|
  {
    if |s| == 0 then [SourceRead([], Some(EOF))]
    else
      var n := Min(|s|, ChunkSize);
      [SourceRead(s[..n], None)] + BytesReaderReads(s[n..])
  }

  /** A successful first read moves the first error one place on and puts its
      data in front of the data before it. */
  lemma SuccessCons(results: seq<SourceRead>)
    requires |results| > 0 && results[0].err.None?
    ensures FirstError(results) == 1 + FirstError(results[1..])
    ensures DataBefore(results, FirstError(results)) == results[0].data + DataBefore(results[1..], FirstError(results[1..]))
  {
  }

  /** An in-memory reader succeeds on every read but its last, and those
      successful reads carry exactly its contents. */
  lemma {:induction false} BytesReaderSucceedsUntilEnd(s: seq<uint8>)
    ensures |BytesReaderReads(s)| > 0
    ensures FirstError(BytesReaderReads(s)) == |BytesReaderReads(s)| - 1
    ensures DataBefore(BytesReaderReads(s), FirstError(BytesReaderReads(s))) == s
    decreases |s|
  {
    if |s| > 0 {
      var n := Min(|s|, ChunkSize);
      var results := BytesReaderReads(s);
      var rest := BytesReaderReads(s[n..]);
      assert results == [SourceRead(s[..n], None)] + rest;
      assert results[1..] == rest;
      BytesReaderSucceedsUntilEnd(s[n..]);
      SuccessCons(results);
      assert s[..n] + s[n..] == s;
    }
  }

  /** Round trip: streaming any byte sequence from an in-memory reader delivers
      exactly that sequence, however it is cut into chunks, and then closes. */
  lemma StreamRoundTrip(s: seq<uint8>)
    ensures Enqueued(Drive(BytesReaderReads(s))) == s
    ensures |Drive(BytesReaderReads(s))| > 0
    ensures Drive(BytesReaderReads(s))[|Drive(BytesReaderReads(s))| - 1] == Close
  {
    var results := BytesReaderReads(s);
    BytesReaderSucceedsUntilEnd(s);
    DriveForwardsPrefix(results);
    DriveClosesOnError(results);
  }
}
