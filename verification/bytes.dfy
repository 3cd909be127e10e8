/** Byte sequences and the two copy primitives of `syscall/js`. */
module Bytes {

  newtype uint8 = x: int | 0 <= x < 256

  function Min(a: int, b: int): int {
    if a <= b then a else b
  }

  /** A freshly allocated buffer, as `make([]byte, n)` or `Uint8Array(n)` gives it. */
  function Zeros(n: nat): seq<uint8> {
    seq(n, _ => 0)
  }

  /** The buffer `dst` after `js.CopyBytesToGo(dst, src)` or `js.CopyBytesToJS(dst, src)`:
      both copy the first min(|dst|, |src|) bytes of `src` to the start of `dst`
      and leave the rest of `dst` alone. */
  function CopyBytes(dst: seq<uint8>, src: seq<uint8>): (out: seq<uint8>)
    ensures |out| == |dst|
    ensures forall i :: 0 <= i < |dst| ==> out[i] == (if i < |src| then src[i] else dst[i])
    decreases |dst|
  {
    if |dst| == 0 || |src| == 0 then dst
    else [src[0]] + CopyBytes(dst[1..], src[1..])
  }

  /** The count both copy primitives return. */
  function CopiedCount(dst: seq<uint8>, src: seq<uint8>): nat {
    Min(|dst|, |src|)
  }

  /** The copy, stated on slices: the copied prefix comes from `src`, the tail is `dst`'s. */
  lemma CopyBytesSlices(dst: seq<uint8>, src: seq<uint8>)
    ensures var n := CopiedCount(dst, src);
      && CopyBytes(dst, src)[..n] == src[..n]
      && CopyBytes(dst, src)[n..] == dst[n..]
  {
    var n := CopiedCount(dst, src);
    var out := CopyBytes(dst, src);
    assert forall i :: 0 <= i < n ==> out[..n][i] == src[..n][i];
    assert forall i :: 0 <= i < |dst| - n ==> out[n..][i] == dst[n..][i];
  }

  /** Copying `n` bytes out of `src` and keeping the rest: the copied prefix
      followed by the rest is `src` again. */
  lemma CopySplit(p: seq<uint8>, src: seq<uint8>, tail: seq<uint8>)
    ensures var n := CopiedCount(p, src);
      CopyBytes(p, src)[..n] + (src[n..] + tail) == src + tail
  {
    var n := CopiedCount(p, src);
    CopyBytesSlices(p, src);
    assert src[..n] + src[n..] == src;
  }

  /** Concatenation of a sequence of chunks. */
  function Flatten(chunks: seq<seq<uint8>>): seq<uint8> {
    if |chunks| == 0 then [] else chunks[0] + Flatten(chunks[1..])
  }

  /** Flattening a suffix peels off its first chunk. */
  lemma FlattenSuffix(chunks: seq<seq<uint8>>, k: nat)
    requires k < |chunks|
    ensures Flatten(chunks[k..]) == chunks[k] + Flatten(chunks[k + 1..])
  {
    assert chunks[k..][1..] == chunks[k + 1..];
  }
}
