# structuredhttp: the WebAssembly fetch bridge

When structuredhttp is built for the `js` target, `Request.Run` does not use
`net/http`'s transport. Instead it calls the browser's `fetch` through
`syscall/js`. It waits on the returned promise with a sleep-poll loop, feeds
the request body to the host as a `ReadableStream`, and wraps the host
response in an `http.Response` whose body pulls chunks from a host stream
reader.

This project models the decision rules inside that plumbing and proves
properties about them. Plain Dafny datatypes stand in for the JavaScript
values:

- **DeferredBridge** (`promiseHack`): a settled promise becomes a value or a
  non-nil error. For an object payload, the error message is its `message`
  when that is defined, and otherwise the object's `String(...)` coercion.
  The message is empty when the callback got no arguments.
- **Timeout** (`Run`'s signal choice, `Duration.Milliseconds`):
  - a per-request timeout overrides the process-wide default;
  - an explicit zero disables the signal;
  - milliseconds truncate toward zero, as Go's integer division does.
- **OutgoingStream** (`createReadableStream`'s chunk function):
  - any read error closes the stream;
  - otherwise exactly the bytes read are enqueued.
  - Suppose the host invokes that function again after every enqueue. Then
    driving it over a reader forwards precisely the successful reads that come
    before the first error, and an in-memory reader round-trips unchanged.
    Whether a host ever invokes it is outside the model (see Left out).
- **IncomingStream** (`blobReader.Read`): one host pull per `Read`, with the
  copy semantics of `js.CopyBytesToGo`. Next to it is a corrected reader that
  keeps chunk remainders and reports `io.EOF` (see Findings).
- **ResponseAdapter** (`fetch2http`):
  - status and status text are copied;
  - `ContentLength` is the blob size;
  - a zero-size blob gets an empty reader and no host stream.
- **Executor** (`Run`):
  - a stored error short-circuits;
  - otherwise the fetch argument map is built, with `body` deleted for `GET`
    and `HEAD` (case-sensitive), and the host reply is mapped.

The host's reply to `fetch` is a parameter of `Executor.Run`, and so is each
host `read()` settlement. No network, timer or JavaScript engine is modelled.

For a nil body, lines 189-192 of request_run_wasm.go compute an empty reader.
Line 197 ignores it and builds the stream from `r.CurrentReader`, so a request
with no body streams from a nil reader. The model follows line 197:
`Executor.BodyStreamIgnoresDefaultReader`.

Go's `io.Reader` contract says a `(0, nil)` return does not indicate end of
data. `blobReader.Read` returns exactly that once the host stream is done, so
its callers never see end of data. That is the first finding below.

## Model

| member | source | states |
|---|---|---|
| Bytes.CopyBytes | request_run_wasm.go:143 | the buffer after a host copy (`CopyBytesToGo` here, `CopyBytesToJS` at line 102): each of the first min(len(dst), len(src)) bytes comes from the source, and every later byte keeps its old value |
| DeferredBridge.RejectionError | request_run_wasm.go:26-36 | a rejection always gives a real error, never the end-of-file sentinel |
| DeferredBridge.Await | request_run_wasm.go:17-53 | the result is an error exactly when the promise rejected. No callback arguments give an empty message. An object with a defined `message` gives that message. Any other object gives its string coercion. A resolved value is returned unchanged |
| Timeout.Milliseconds | request_run_wasm.go:183-185 | the result truncates toward zero: abs(ms) whole milliseconds fit in abs(d), abs(ms)+1 do not, and the sign agrees with `d` |
| Timeout.SignalFor | request_run_wasm.go:181-186 | a signal is made exactly when the effective timeout (the request's own if set, else the default) is non-zero, with that timeout in milliseconds. An explicit zero gives no signal even with a default. No timeout with a zero default gives none. A non-zero sub-millisecond timeout gives a 0 ms signal |
| OutgoingStream.ChunkStep | request_run_wasm.go:94-104 | a read with any error closes the stream and enqueues nothing, even if it returned bytes. A successful read of n ≤ 100 bytes enqueues exactly those n bytes, after they pass through the 100-byte buffer and the n-byte array |
| OutgoingStream.Drive | request_run_wasm.go:94-105 | each logged event is the chunk step of the matching read, and only the last event can be a close |
| OutgoingStream.DriveForwardsPrefix | request_run_wasm.go:95-104 | the enqueued bytes are the concatenation of the successful reads before the first error. Bytes returned together with an error are dropped |
| OutgoingStream.DriveClosesOnError | request_run_wasm.go:97-100 | the stream is closed exactly when some read failed: the log then ends with that read's close. Otherwise every read was enqueued and there is no close |
| OutgoingStream.StreamRoundTrip | request_run_wasm.go:87-116 | streaming any byte sequence from an in-memory reader delivers exactly that sequence and then closes |
| IncomingStream.BlobRead | request_run_wasm.go:134-144 | a rejected pull returns (0, the rejection error) and leaves the buffer alone. A done pull returns (0, nil). A chunk pull returns n = min(len(p), len(chunk)): the first n buffer bytes are the chunk's and the rest are unchanged |
| IncomingStream.DoneIsNotEndOfFile | request_run_wasm.go:139-142 | once the host stream is done, every further read returns zero bytes and no error, never `io.EOF` |
| IncomingStream.ReadSeriesTruncates | request_run_wasm.go:143 | reading a stream with n-byte buffers delivers each chunk cut down to n bytes, so the rest of every longer chunk is lost |
| IncomingStream.ChunkTailIsDropped | request_run_wasm.go:143 | a 3-byte chunk read through 2-byte buffers delivers two bytes. The next host pull is already `done`, so that read returns (0, nil) and byte 3 is never delivered |
| IncomingStream.ReadBuffered | request_run_wasm.go:134-144 | corrected read. Pending bytes are served first, up to the buffer's length, with no host pull. With nothing pending, one chunk is pulled: min(len(p), len(chunk)) bytes are returned and the rest is kept pending. An error comes only once nothing is pending and every chunk is pulled, and it is `io.EOF` or the rejection. Every successful read into a non-empty buffer makes progress |
| IncomingStream.ReadBufferedConserves | request_run_wasm.go:143 | a corrected read loses and invents nothing: the bytes it returns, followed by what is still pending and not yet pulled, equal what was owed before the read |
| IncomingStream.DrainDelivers | request_run_wasm.go:134-144 | with the corrected reader, reading until an error collects every byte of every chunk in order, for any non-empty buffer, and then the stream's own end error |
| IncomingStream.ReadBufferedDoneIsEndOfFile | request_run_wasm.go:139-142 | the corrected reader reports `io.EOF` on the first read after the host stream is done |
| ResponseAdapter.Fetch2Http | request_run_wasm.go:146-171 | status text and status code are copied unchanged and `ContentLength` is the blob size. The body is the empty reader exactly when the size is 0. Otherwise it is a blob reader over the blob's stream |
| ResponseAdapter.BodyRead | request_run_wasm.go:157-160 | a read on the attached body (the blob reader's `Read` is lines 134-144) never reports more bytes than the buffer holds. The empty reader answers every read with (0, `io.EOF`) and leaves the buffer alone. A blob body read past the last chunk returns (0, nil) on a done stream, or (0, the rejection's error) on a rejected one, and leaves the buffer alone either way. A chunk read returns no error and n = min(len(p), len(chunk)): the first n buffer bytes are the chunk's and the rest are unchanged |
| ResponseAdapter.EmptyResponseIsExhausted | request_run_wasm.go:156-158 | a zero-size response holds no host stream, and its first read returns (0, `io.EOF`) without touching the buffer |
| ResponseAdapter.ContentLengthMatchesBody | request_run_wasm.go:156-169 | for a blob whose stream yields its bytes, the corrected reader delivers exactly those bytes (`ContentLength` of them) and then `io.EOF` |
| Executor.FetchArgs | request_run_wasm.go:188-201 | the map always has `signal`, `method` and `headers`, with the request's values. It has `body` exactly when the method is neither `GET` nor `HEAD`, and then the body streams from `CurrentReader`. It has no other keys |
| Executor.Run | request_run_wasm.go:174-211 | a stored error is returned with no fetch call. Otherwise one call is made to the request URL with the argument map and the chosen signal. A rejection is returned as its error. A resolved reply becomes the response built by `fetch2http` |
| Executor.NoBodyForGetOrHead | request_run_wasm.go:199-201 | `GET` and `HEAD` never send a body, whatever reader they carry. The comparison is case-sensitive, so `get` sends one |
| Executor.BodyStreamIgnoresDefaultReader | request_run_wasm.go:189-197 | a body-carrying request with no reader streams from a nil reader, not from the empty one the code builds |
| Executor.ExplicitTimeouts | request_run_wasm.go:181-186 | an explicit zero timeout sends an `undefined` signal. A sub-millisecond timeout sends a 0 ms signal |

## Left out

- The 2 ms sleep-poll loop and the callback interleaving of `promiseHack`
  (request_run_wasm.go:23-25, 39-52) are cooperative scheduling with the
  JavaScript event loop. Only the settled outcome is modelled.
- `strmap2obj`, `fetch`'s object building and `createSignal`'s
  `AbortController`/`setTimeout` (request_run_wasm.go:55-85) are foreign
  calls. A signal is represented by the milliseconds passed to it.
- `ReadableStream` start/pull scheduling and what the host does with the
  returned function (request_run_wasm.go:104, 110-115) are host stream
  semantics. `OutgoingStream.Drive` assumes the host invokes the chunk
  function again after every enqueue and stops after a close. The object
  handed to `ReadableStream` registers only `start` (lines 110-112), not
  `pull`. Under the Streams standard nothing calls the function `start`
  returns. So `OutgoingStream.DriveForwardsPrefix`,
  `OutgoingStream.DriveClosesOnError` and `OutgoingStream.StreamRoundTrip`
  describe what happens if a host does invoke it, not what a standard host
  does.
- Invoking the chunk function over a nil reader (a Go nil-interface panic) is
  not modelled. `Executor.BodyStream` only records that the source is nil.
- `goHeaders` (request_run_wasm.go:118-127) depends on the host's `forEach`
  order and on `http.Header` key canonicalisation. Headers are not part of
  `ResponseAdapter.HttpResponse`.
- A rejected `blob()` promise panics (request_run_wasm.go:148-152). It is a
  precondition of `ResponseAdapter.Fetch2Http` and `Executor.Run`, not an
  error path.
- A non-nil `r.Error` that points to a nil error is not modelled. A stored
  error is an `Option<Error>`.
- A rejection reason that is not a JavaScript object is not modelled.
  Line 30 calls `args[0].Get("message")` first, and `js.Value.Get` panics on a
  string, number, `null` or `undefined`. So such a reason panics and never
  reaches the `String(...)` fallback at line 32. A promise `catch` callback
  always receives exactly one argument, so `Promise.reject()` also panics
  rather than producing `""`. `DeferredBridge.Payload.NoArgs` is modelled only
  because line 26 handles that case.
- A `message` that is not a string reaches the error as Go's `String()` form
  of a JavaScript value, such as `"<number: 5>"`. `WithMessage` carries that
  string as given.
- Other JavaScript values of unexpected types are not modelled. This includes a
  chunk `value` that is not a `Uint8Array`, and a non-numeric `size` or
  `status`.
- Timer firing, abort races and the network in general are not modelled.
- IncomingStream.DrainDelivers: requires a non-empty buffer. With a
  zero-length buffer the corrected reader returns 0 bytes and keeps its pending
  bytes, so a caller reading into `[]byte{}` never drains the body.
- OutgoingStream.ChunkStep: requires that a read reports at most 100 bytes,
  as the `io.Reader` contract demands. A reader that breaks that contract is
  not modelled. Buffer bytes past `n` are never copied, so the model leaves
  them zero.

## Findings

| source | as written | input that shows it | evidently intended | confidence | as-written member | corrected member |
|---|---|---|---|---|---|---|
| request_run_wasm.go:139-142 | a `done` pull makes `Read` return `(0, nil)` | a host stream that is done, read any number of times: every read returns `(0, nil)`, so `io.ReadAll` on the body never returns | return `(0, io.EOF)` once the host stream is done | not executed; high | IncomingStream.DoneIsNotEndOfFile | IncomingStream.ReadBufferedDoneIsEndOfFile |
| request_run_wasm.go:143 | `CopyBytesToGo` copies min(len(p), len(chunk)) bytes and the rest of the chunk is discarded | chunk `[1, 2, 3]` read through 2-byte buffers: `[1, 2]` is delivered, then the next host pull is already `done` and the read returns `(0, nil)`; byte `3` is never delivered | keep the remainder of the chunk and serve it on the next `Read` | not executed; high | IncomingStream.ChunkTailIsDropped | IncomingStream.DrainDelivers |

Both corrections are in `IncomingStream.ReadBuffered`. `ResponseAdapter.DrainBody`
reads response bodies through it.
