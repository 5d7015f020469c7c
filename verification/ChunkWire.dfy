/** What the chunk encoder of ylong_http/src/body/chunk.rs puts on the wire for a whole body. */
module ChunkWire {
  import opened Octets
  import opened ChunkAutomaton
  import opened ChunkGrammar

  const CHUNK_SIZE := 1024

  /** Where the content comes from. `calls(i)` is what the reader's call number `i` delivers. */
  datatype Source = Bytes(data: seq<byte>) | Reader(calls: nat -> seq<byte>)

  /** The content loaded for chunk `i`, provided all loads before it were full. */
  function LoadAt(source: Source, i: nat): seq<byte> {
    match source
    case Reader(calls) => calls(i)
    case Bytes(data) =>
      if i == 0 then data[..Min(|data|, CHUNK_SIZE)]
      else if CHUNK_SIZE <= |data| then data[CHUNK_SIZE..Min(|data|, 2 * CHUNK_SIZE)]
      else []
  }

  /** No load is longer than the buffer it goes to. */
  ghost predicate Fits(source: Source) {
    forall i: nat :: |LoadAt(source, i)| <= CHUNK_SIZE
  }

  /** Load `m` is the first one that does not fill its chunk; the encoder takes it for the last. */
  ghost predicate FirstShort(source: Source, m: nat) {
    && |LoadAt(source, m)| < CHUNK_SIZE
    && forall i: nat :: i < m ==> |LoadAt(source, i)| == CHUNK_SIZE
  }

  function HexChar(d: nat): (b: byte)
    requires d < 16
    ensures IsDigit(b) && DigitValue(b) == d
  {
    if d < 10 then 48 + d else 87 + d
  }

  /** A number in lower-case hexadecimal digits. */
  function HexText(n: nat): (r: seq<byte>)
    ensures AllHex(r) && r != []
  {
    if n < 16 then [HexChar(n)] else HexText(n / 16) + [HexChar(n % 16)]
  }

  /** Lower case only, and no zero in front of other digits. */
  predicate IsPlain(digits: seq<byte>) {
    && (forall i :: 0 <= i < |digits| ==> !('A' as int <= digits[i] <= 'F' as int))
    && (|digits| > 1 ==> digits[0] != '0' as int)
  }

  lemma {:induction false} HexTextIsPlain(n: nat)
    ensures IsPlain(HexText(n)) && (n > 0 ==> HexText(n)[0] != '0' as int)
  {
    if n >= 16 {
      HexTextIsPlain(n / 16);
    }
  }

  function ChunkBytes(data: seq<byte>): seq<byte> {
    HexText(|data|) + (CRLF + (data + CRLF))
  }

  /** The closing chunk of size zero, the trailer fields and an empty line. */
  function End(trailer: seq<byte>): seq<byte> {
    [48, CR, LF] + (trailer + CRLF)
  }

  function LastPart(source: Source, m: nat, trailer: seq<byte>): seq<byte> {
    ChunkBytes(LoadAt(source, m)) + End(trailer)
  }

  /** Chunks `i` to `m` and the end. */
  function ChunksFrom(source: Source, i: nat, m: nat, trailer: seq<byte>): seq<byte>
    requires i <= m
    decreases m - i
  {
    if i == m then LastPart(source, m, trailer)
    else ChunkBytes(LoadAt(source, i)) + ChunksFrom(source, i + 1, m, trailer)
  }

  /** The whole body. */
  function Wire(source: Source, m: nat, trailer: seq<byte>): seq<byte> {
    ChunksFrom(source, 0, m, trailer)
  }

  /** Every chunk but the last is announced with 1024 octets. */
  lemma FullChunkIs(source: Source, m: nat, i: nat)
    requires FirstShort(source, m) && i < m
    ensures var data := LoadAt(source, i);
            |data| == 1024 && ChunkBytes(data) == [0x34, 0x30, 0x30, 0x0D, 0x0A] + (data + [0x0D, 0x0A])
  {
    assert HexText(64) == [HexChar(4), HexChar(0)] && HexText(1024) == [HexChar(4), HexChar(0), HexChar(0)];
  }

  lemma {:induction false} ChunksEndAlike(source: Source, i: nat, m: nat, trailer: seq<byte>)
    requires i <= m
    ensures |ChunksFrom(source, i, m, trailer)| >= |LastPart(source, m, trailer)|
    decreases m - i
  {
    if i < m {
      ChunksEndAlike(source, i + 1, m, trailer);
    }
  }

  /** The content that is sent. */
  function Content(source: Source, i: nat, m: nat): seq<byte>
    requires i <= m
    decreases m - i
  {
    LoadAt(source, i) + if i == m then [] else Content(source, i + 1, m)
  }

  /** A slice of octets has a last chunk if and only if it is shorter than two chunks, and then all of it is sent. */
  lemma BytesEndIff(data: seq<byte>)
    ensures (exists m :: FirstShort(Bytes(data), m)) <==> |data| < 2048
    ensures forall m :: FirstShort(Bytes(data), m) ==> Content(Bytes(data), 0, m) == data
  {
    var source := Bytes(data);
    if |data| < CHUNK_SIZE {
      assert FirstShort(source, 0);
    } else if |data| < 2 * CHUNK_SIZE {
      assert FirstShort(source, 1);
    }
    forall m | FirstShort(source, m) ensures Content(source, 0, m) == data {
      if m == 0 {
        assert LoadAt(source, 0) + [] == data;
      } else {
        assert |LoadAt(source, 0)| == CHUNK_SIZE;
        assert 1 < m ==> |LoadAt(source, 1)| == CHUNK_SIZE;
        assert Content(source, 1, 1) == LoadAt(source, 1) + [];
      }
    }
  }
}
