/** Variable-length integers (section 16 of RFC 9000) as ylong_http/src/h3/octets.rs reads and writes them. */
module Varint {
  import opened Octets
  import opened Buffers

  /** The first value that no variable-length integer holds. */
  const VARINT_LIMIT := 0x4000_0000_0000_0000

  function VarintLen(v: nat): (n: nat)
    requires v < VARINT_LIMIT
    ensures n in {1, 2, 4, 8}
  {
    if v < 0x40 then 1 else if v < 0x4000 then 2 else if v < 0x4000_0000 then 4 else 8
  }

  /** The length announced by the two top bits of the first octet. */
  function ParseVarintLen(first: byte): (n: nat)
    ensures n in {1, 2, 4, 8}
  {
    if first < 64 then 1 else if first < 128 then 2 else if first < 192 then 4 else 8
  }

  /** The two top bits that announce a length, as a summand. */
  function Tag(len: nat): nat {
    if len == 1 then 0 else if len == 2 then 64 else if len == 4 then 128 else 192
  }

  /** The value of octets, most significant octet first. */
  function BeNat(b: seq<byte>): nat {
    if b == [] then 0 else BeNat(b[..|b| - 1]) * 256 + b[|b| - 1]
  }

  function Capacity(n: nat): nat {
    if n == 0 then 1 else Capacity(n - 1) * 256
  }

  lemma BeInit(v: nat, n: nat)
    requires n > 0
    ensures Be(v, n)[..n - 1] == Be(v / 256, n - 1) && Be(v, n)[n - 1] == v % 256
  {
    forall i | 0 <= i < n - 1 ensures Be(v, n)[i] == Be(v / 256, n - 1)[i] {
      assert Be(v, n)[i] == Digit(v, n - 1 - i);
    }
    assert Be(v, n)[n - 1] == Digit(v, 0);
  }

  lemma {:induction false} BeNatOfBe(v: nat, n: nat)
    requires v < Capacity(n)
    ensures BeNat(Be(v, n)) == v
  {
    if n > 0 {
      BeInit(v, n);
      BeNatOfBe(v / 256, n - 1);
    }
  }

  lemma {:induction false} FirstOctetWeighs(b: seq<byte>)
    requires b != []
    ensures (b[0] as int) * Capacity(|b| - 1) <= BeNat(b)
  {
    if |b| > 1 {
      var init := b[..|b| - 1];
      FirstOctetWeighs(init);
      assert (b[0] as int) * Capacity(|b| - 1) == (b[0] as int) * Capacity(|b| - 2) * 256;
    }
  }

  /** What is written for `v`: the fewest octets that hold it, with their number in the top bits. */
  function VarintBytes(v: nat): (r: seq<byte>)
    requires v < VARINT_LIMIT
    ensures |r| == VarintLen(v)
  {
    var n := VarintLen(v);
    Tagged(Be(v, n), Tag(n))
  }

  function Tagged(b: seq<byte>, tag: nat): (r: seq<byte>)
    requires b != [] && tag <= 192
    ensures |r| == |b|
  {
    b[0 := (b[0] as int) % 64 + tag]
  }

  /** A variable-length integer at the front of `b`, and how many octets it takes. */
  function ReadVarint(b: seq<byte>): (r: Option<(nat, nat)>)
    ensures r.Some? ==> 1 <= r.value.1 <= |b|
  {
    if b == [] || |b| < ParseVarintLen(b[0]) then None
    else
      var n := ParseVarintLen(b[0]);
      Some((BeNat(Untagged(b[..n])), n))
  }

  /** The octets without the two top bits of the first one. */
  function Untagged(b: seq<byte>): seq<byte>
    requires b != []
  {
    b[0 := (b[0] as int) % 64]
  }

  /** The value fits: the two top bits of the first octet are clear before the length goes there. */
  lemma TopBitsClear(v: nat)
    requires v < VARINT_LIMIT
    ensures var n := VarintLen(v); BeNat(Be(v, n)) == v && Be(v, n)[0] < 64
  {
    var n := VarintLen(v);
    Capacities();
    BeNatOfBe(v, n);
    FirstOctetWeighs(Be(v, n));
  }

  lemma Capacities()
    ensures Capacity(0) == 1 && Capacity(1) == 0x100 && Capacity(3) == 0x100_0000
    ensures Capacity(2) == 0x1_0000 && Capacity(4) == 0x1_0000_0000
    ensures Capacity(7) == 0x100_0000_0000_0000 && Capacity(8) == 0x1_0000_0000_0000_0000
  {
    assert Capacity(5) == 0x100_0000_0000 && Capacity(6) == 0x1_0000_0000_0000;
  }

  /** Reading what was written gives the value, and leaves what follows. */
  lemma RoundTrip(v: nat, rest: seq<byte>)
    requires v < VARINT_LIMIT
    ensures ReadVarint(VarintBytes(v) + rest) == Some((v, VarintLen(v)))
    ensures (VarintBytes(v) + rest)[VarintLen(v)..] == rest
  {
    var n := VarintLen(v);
    var b := VarintBytes(v);
    TopBitsClear(v);
    assert (b + rest)[..n] == b;
    assert Untagged(b) == Be(v, n);
  }

  /** The value of a variable-length integer of `n` octets is below 2 to the power 8 n - 2. */
  function Limit(n: nat): nat {
    if n == 1 then 0x40 else if n == 2 then 0x4000 else if n == 4 then 0x4000_0000 else VARINT_LIMIT
  }

  lemma {:induction false} BeNatBound(b: seq<byte>, c: nat)
    requires b != [] && b[0] < c
    ensures BeNat(b) < c * Capacity(|b| - 1)
  {
    if |b| > 1 {
      BeNatBound(b[..|b| - 1], c);
      assert c * Capacity(|b| - 1) == c * Capacity(|b| - 2) * 256;
    }
  }

  lemma ReadInRange(b: seq<byte>)
    requires ReadVarint(b).Some?
    ensures var (v, n) := ReadVarint(b).value; n in {1, 2, 4, 8} && n <= |b| && v < Limit(n) <= VARINT_LIMIT
  {
    var n := ParseVarintLen(b[0]);
    Capacities();
    BeNatBound(Untagged(b[..n]), 64);
  }

  // ---------------------------------------------------------------------------
  // The wire format, octet by octet.
  // ---------------------------------------------------------------------------

  lemma TwoOctets(b: seq<byte>)
    requires |b| == 2
    ensures BeNat(b) == (b[0] as int) * 0x100 + b[1]
  {
    var init := b[..1];
    assert init[..0] == [] && BeNat(init) == init[0];
  }

  lemma FourOctets(b: seq<byte>)
    requires |b| == 4
    ensures BeNat(b) == (b[0] as int) * 0x100_0000 + (b[1] as int) * 0x1_0000 + (b[2] as int) * 0x100 + b[3]
  {
    TwoOctets(b[..2]);
    assert b[..3][..2] == b[..2] && BeNat(b[..3]) == BeNat(b[..2]) * 0x100 + b[2];
  }

  lemma EightOctets(b: seq<byte>)
    requires |b| == 8
    ensures BeNat(b)
            == (b[0] as int) * 0x100_0000_0000_0000 + (b[1] as int) * 0x1_0000_0000_0000
               + (b[2] as int) * 0x100_0000_0000 + (b[3] as int) * 0x1_0000_0000
               + (b[4] as int) * 0x100_0000 + (b[5] as int) * 0x1_0000 + (b[6] as int) * 0x100 + b[7]
  {
    FourOctets(b[..4]);
    assert b[..5][..4] == b[..4] && BeNat(b[..5]) == BeNat(b[..4]) * 0x100 + b[4];
    assert b[..6][..5] == b[..5] && BeNat(b[..6]) == BeNat(b[..5]) * 0x100 + b[5];
    assert b[..7][..6] == b[..6] && BeNat(b[..7]) == BeNat(b[..6]) * 0x100 + b[6];
  }

  /** How many octets there are to an integer whose first octet is `first`. */
  function Announced(first: byte): nat {
    match first / 64
    case 0 => 1
    case 1 => 2
    case 2 => 4
    case _ => 8
  }

  /**
   * An integer is read if and only if as many octets are there as its first octet announces. The integers of one,
   * two, four and eight octets are what remains without the two top bits, most significant octet first.
   */
  lemma ReadFormat(b: seq<byte>)
    ensures ReadVarint(b).Some? <==> b != [] && Announced(b[0]) <= |b|
    ensures |b| >= 1 && b[0] / 64 == 0 ==> ReadVarint(b) == Some((b[0] as nat, 1))
    ensures |b| >= 2 && b[0] / 64 == 1 ==> ReadVarint(b) == Some(((b[0] as int - 64) * 0x100 + b[1], 2))
    ensures |b| >= 4 && b[0] / 64 == 2 ==>
              ReadVarint(b)
              == Some(((b[0] as int - 128) * 0x100_0000 + (b[1] as int) * 0x1_0000 + (b[2] as int) * 0x100 + b[3], 4))
    ensures |b| >= 8 && b[0] / 64 == 3 ==>
              ReadVarint(b)
              == Some(((b[0] as int - 192) * 0x100_0000_0000_0000 + (b[1] as int) * 0x1_0000_0000_0000
                       + (b[2] as int) * 0x100_0000_0000 + (b[3] as int) * 0x1_0000_0000
                       + (b[4] as int) * 0x100_0000 + (b[5] as int) * 0x1_0000 + (b[6] as int) * 0x100 + b[7], 8))
  {
    if b != [] && ReadVarint(b).Some? {
      var n := ParseVarintLen(b[0]);
      var u := Untagged(b[..n]);
      match n
      case 1 => assert u[..0] == [] && BeNat(u) == u[0];
      case 2 => TwoOctets(u);
      case 4 => FourOctets(u);
      case 8 => EightOctets(u);
    }
  }

  /** What is written announces one, two, four or eight octets exactly for the values that need them. */
  lemma WriteFormat(v: nat)
    requires v < 0x4000_0000_0000_0000
    ensures |VarintBytes(v)| > 0 && Announced(VarintBytes(v)[0]) == |VarintBytes(v)|
    ensures VarintBytes(v)[0] / 64 == 0 <==> v < 0x40
    ensures VarintBytes(v)[0] / 64 == 1 <==> 0x40 <= v < 0x4000
    ensures VarintBytes(v)[0] / 64 == 2 <==> 0x4000 <= v < 0x4000_0000
    ensures VarintBytes(v)[0] / 64 == 3 <==> 0x4000_0000 <= v
  {
  }

  /** No shorter encoding stands for the same value: among all octets that read as `v`, these are the fewest. */
  lemma Least(v: nat, b: seq<byte>)
    requires v < VARINT_LIMIT && ReadVarint(b).Some? && ReadVarint(b).value.0 == v
    ensures VarintLen(v) <= ReadVarint(b).value.1
  {
    ReadInRange(b);
  }

  /** An integer that was read is read again when more octets follow. */
  lemma ReadExtends(a: seq<byte>, b: seq<byte>)
    requires ReadVarint(a).Some?
    ensures ReadVarint(a + b) == ReadVarint(a)
    ensures (a + b)[ReadVarint(a).value.1..] == a[ReadVarint(a).value.1..] + b
  {
    var n := ParseVarintLen(a[0]);
    assert (a + b)[..n] == a[..n];
  }

  /** Without its last octet an integer is not read. */
  lemma CutShort(v: nat, n: nat)
    requires v < VARINT_LIMIT && n < VarintLen(v)
    ensures ReadVarint(VarintBytes(v)[..n]).None?
  {
    RoundTrip(v, []);
    assert VarintBytes(v) + [] == VarintBytes(v);
  }

  /** An integer of one octet. */
  lemma SmallVarint(b: byte, rest: seq<byte>)
    requires b < 64
    ensures ReadVarint([b] + rest) == Some((b, 1)) && ([b] + rest)[1..] == rest
  {
    assert ([b] + rest)[..1] == [b] && Untagged([b]) == [b];
    assert [b][..0] == [] && BeNat([]) == 0;
  }

  // ---------------------------------------------------------------------------
  // Sequences of integers.
  // ---------------------------------------------------------------------------

  predicate AllVarints(vs: seq<nat>) {
    forall i :: 0 <= i < |vs| ==> vs[i] < VARINT_LIMIT
  }

  function WriteAll(vs: seq<nat>): seq<byte>
    requires AllVarints(vs)
  {
    if vs == [] then [] else VarintBytes(vs[0]) + WriteAll(vs[1..])
  }

  /** All the integers in `b`, if it holds nothing else. */
  function ReadAll(b: seq<byte>): Option<seq<nat>>
    decreases |b|
  {
    if b == [] then Some([])
    else if ReadVarint(b).None? then None
    else
      var (v, n) := ReadVarint(b).value;
      var rest := ReadAll(b[n..]);
      if rest.None? then None else Some([v] + rest.value)
  }

  lemma {:induction false} SequenceRoundTrip(vs: seq<nat>)
    requires AllVarints(vs)
    ensures ReadAll(WriteAll(vs)) == Some(vs)
  {
    if vs != [] {
      RoundTrip(vs[0], WriteAll(vs[1..]));
      SequenceRoundTrip(vs[1..]);
      assert vs == [vs[0]] + vs[1..];
    }
  }

  /** Different sequences are written differently. */
  lemma WriteAllIsInjective(vs: seq<nat>, ws: seq<nat>)
    requires AllVarints(vs) && AllVarints(ws) && WriteAll(vs) == WriteAll(ws)
    ensures vs == ws
  {
    SequenceRoundTrip(vs);
    SequenceRoundTrip(ws);
  }

  // ---------------------------------------------------------------------------
  // The cursors of the source.
  // ---------------------------------------------------------------------------

  class ReadableBytes {
    const buf: seq<byte>
    var idx: nat

    constructor (buf: seq<byte>)
      ensures this.buf == buf && idx == 0
    {
      this.buf, idx := buf, 0;
    }

    function Cap(): nat
      requires idx <= |buf|
      reads this
    {
      |buf| - idx
    }

    /** Reads an integer at the cursor and moves behind it, or does nothing if there are too few octets. */
    method GetVarint() returns (r: Option<nat>)
      requires idx <= |buf|
      modifies this
      ensures ReadVarint(buf[old(idx)..]).None? ==> r.None? && idx == old(idx)
      ensures ReadVarint(buf[old(idx)..]).Some? ==>
                r == Some(ReadVarint(buf[old(idx)..]).value.0) && idx == old(idx) + ReadVarint(buf[old(idx)..]).value.1
      ensures idx <= |buf|
    {
      if Cap() == 0 {
        return None;
      }
      var first := buf[idx];
      var len := ParseVarintLen(first);
      if len > Cap() {
        return None;
      }
      ghost var b := Untagged(buf[idx..][..len]);
      var value: nat := (first as int) % 64;
      assert b[..1] == [(first as int) % 64] && BeNat([]) == 0;
      var i := 1;
      while i < len
        invariant 1 <= i <= len && value == BeNat(b[..i])
      {
        assert b[..i + 1][..i] == b[..i];
        value := value * 256 + buf[idx + i];
        i := i + 1;
      }
      assert b[..len] == b;
      idx := idx + len;
      return Some(value);
    }
  }

  /** Writes an integer at `at`, if there is room for it. A value too large has no encoding. */
  method WriteVarint(buf: array<byte>, at: nat, v: nat) returns (r: Option<nat>)
    requires at <= buf.Length && v < VARINT_LIMIT
    modifies buf
    ensures r == if buf.Length - at < VarintLen(v) then None else Some(VarintLen(v))
    ensures r.None? ==> buf[..] == old(buf[..])
    ensures r.Some? ==> buf[..] == Splice(old(buf[..]), at, VarintBytes(v))
  {
    if buf.Length - at < VarintLen(v) {
      return None;
    }
    Copy(buf, at, VarintBytes(v));
    return Some(VarintLen(v));
  }
}
