/** Writing octets into a buffer that belongs to the caller. */
module Buffers {
  import opened Octets

  /** `buf` with `src` written at `at`. */
  function Splice(buf: seq<byte>, at: nat, src: seq<byte>): (r: seq<byte>)
    requires at + |src| <= |buf|
    ensures |r| == |buf|
  {
    buf[..at] + src + buf[at + |src|..]
  }

  lemma SpliceTwice(buf: seq<byte>, at: nat, a: seq<byte>, b: seq<byte>)
    requires at + |a| + |b| <= |buf|
    ensures Splice(Splice(buf, at, a), at + |a|, b) == Splice(buf, at, a + b)
  {
  }

  /** One more octet of `src`, written behind the ones before it. */
  lemma SpliceNext(buf: seq<byte>, at: nat, src: seq<byte>, from: nat, i: nat)
    requires at + i < |buf| && from + i < |src|
    ensures Splice(buf, at, src[from..from + i])[at + i := src[from + i]] == Splice(buf, at, src[from..from + i + 1])
  {
    assert src[from..from + i] + [src[from + i]] == src[from..from + i + 1];
  }

  method Copy(buf: array<byte>, at: nat, src: seq<byte>)
    requires at + |src| <= buf.Length
    modifies buf
    ensures buf[..] == Splice(old(buf[..]), at, src)
  {
    for i := 0 to |src|
      invariant buf[..] == Splice(old(buf[..]), at, src[0..i])
    {
      SpliceNext(old(buf[..]), at, src, 0, i);
      buf[at + i] := src[i];
    }
    assert src[0..|src|] == src;
  }

  /** The first `n` octets of `pending` are at the start of `buf`; `rest` is what is still pending. */
  predicate Moves(pending: seq<byte>, before: seq<byte>, buf: seq<byte>, n: nat, rest: seq<byte>) {
    && n <= |before| && n <= |pending|
    && buf == Splice(before, 0, pending[..n])
    && rest == pending[n..]
  }

  lemma MovedPart(pending: seq<byte>, before: seq<byte>, buf: seq<byte>, n: nat, rest: seq<byte>)
    requires Moves(pending, before, buf, n, rest)
    ensures |buf| == |before| && n <= |buf| && pending == buf[..n] + rest && |buf[..n]| == n
  {
    Front(buf, before, pending[..n]);
  }

  lemma Associate(a: seq<byte>, b: seq<byte>, c: seq<byte>)
    ensures a + (b + c) == a + b + c && [] + c == c
  {
  }

  /** A turn of a loop that writes: `out` leaves what is pending and joins what is done. */
  lemma Turn(pending: seq<byte>, done: seq<byte>, out: seq<byte>, rest: seq<byte>)
    requires pending == done + (out + rest)
    ensures pending == (done + out) + rest && |done + out| == |done| + |out|
  {
  }

  /** What was written at the start of a buffer is found there. */
  lemma Front(buf: seq<byte>, before: seq<byte>, src: seq<byte>)
    requires |src| <= |before| && buf == Splice(before, 0, src)
    ensures |src| <= |buf| && buf[..|src|] == src
  {
  }

  lemma FrontPart(buf: seq<byte>, before: seq<byte>, src: seq<byte>, n: nat)
    requires n <= |src| <= |before| && buf == Splice(before, 0, src)
    ensures n <= |buf| && buf[..n] == src[..n]
  {
  }

  /** The room in the first `k` of a row of buffers. */
  function Room(sizes: seq<nat>, k: nat): nat
    requires k <= |sizes|
  {
    if k == 0 then 0 else Room(sizes, k - 1) + sizes[k - 1]
  }

  /** The same for the buffers of nine octets and more, which take the header of any frame. */
  function Usable(sizes: seq<nat>, k: nat): nat
    requires k <= |sizes|
  {
    if k == 0 then 0 else Usable(sizes, k - 1) + if sizes[k - 1] < 9 then 0 else sizes[k - 1]
  }

  predicate AtLeast(sizes: seq<nat>, least: nat) {
    forall i :: 0 <= i < |sizes| ==> least <= sizes[i]
  }

  predicate AtMost(sizes: seq<nat>, most: nat) {
    forall i :: 0 <= i < |sizes| ==> sizes[i] <= most
  }
}
