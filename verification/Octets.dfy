/** Octets, big-endian integers and segmented byte streams. */
module Octets {

  type byte = b: int | 0 <= b < 256

  datatype Option<+T> = None | Some(value: T)

  function Min(a: nat, b: nat): nat {
    if a <= b then a else b
  }

  /** (v >> 8 * k) & 0xFF */
  function Digit(v: nat, k: nat): byte {
    if k == 0 then v % 256 else Digit(v / 256, k - 1)
  }

  /** The low `n` octets of `v`, most significant octet first. */
  function Be(v: nat, n: nat): (r: seq<byte>)
    ensures |r| == n
  {
    seq(n, i requires 0 <= i < n => Digit(v, n - 1 - i))
  }

  lemma {:induction false} DigitOfZero(k: nat)
    ensures Digit(0, k) == 0
  {
    if k > 0 {
      DigitOfZero(k - 1);
    }
  }

  function Nat24(b: seq<byte>): nat
    requires |b| == 3
  {
    (b[0] as int) * 65536 + (b[1] as int) * 256 + b[2]
  }

  function Nat32(b: seq<byte>): nat
    requires |b| == 4
  {
    (b[0] as int) * 16777216 + (b[1] as int) * 65536 + (b[2] as int) * 256 + b[3]
  }

  /** A 32-bit field whose top bit is reserved and ignored. */
  function Nat31(b: seq<byte>): nat
    requires |b| == 4
  {
    (b[0] as int) % 128 * 16777216 + (b[1] as int) * 65536 + (b[2] as int) * 256 + b[3]
  }

  lemma Be24RoundTrip(v: nat)
    requires v < 0x100_0000
    ensures Nat24(Be(v, 3)) == v
  {
    var w := v / 256;
    assert Be(v, 3) == [Digit(w, 1), Digit(w, 0), Digit(v, 0)];
    assert Digit(w, 1) == w / 256 && v == 256 * w + v % 256 && w == 256 * (w / 256) + w % 256;
  }

  lemma Be32RoundTrip(v: nat)
    requires v < 0x1_0000_0000
    ensures Nat32(Be(v, 4)) == v
    ensures v < 0x8000_0000 ==> Nat31(Be(v, 4)) == v
  {
    var w := v / 256;
    assert Be(v, 4) == [Digit(w, 2), Digit(w, 1), Digit(w, 0), Digit(v, 0)];
    Be24RoundTrip(w);
    assert Be(w, 3) == [Digit(w, 2), Digit(w, 1), Digit(w, 0)];
  }

  /** The stream of octets cut into `segments`. */
  function Flatten(segments: seq<seq<byte>>): seq<byte> {
    if segments == [] then [] else segments[0] + Flatten(segments[1..])
  }
}
