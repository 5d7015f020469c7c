/**
 * The wire format of HTTP/2 frames, octet by octet: what the decoder answers to one whole frame of each type
 * (section 6 of RFC 9113), as the numbers on the wire say it.
 */
module H2Format {
  import opened Octets
  import opened H2Frame
  import opened H2Decoder
  import opened H2Segments
  import opened H2Boundary

  // ---------------------------------------------------------------------------
  // Frame headers.
  // ---------------------------------------------------------------------------

  /** Length, type, flags and stream, in this order, most significant octet first. */
  lemma HeaderOctets(length: nat, frameType: byte, flags: byte, id: nat)
    requires length < 0x100_0000 && id < 0x8000_0000
    ensures HeaderBytes(length, frameType, flags, id)
            == [length / 0x1_0000, length / 0x100 % 0x100, length % 0x100, frameType, flags,
                id / 0x100_0000, id / 0x1_0000 % 0x100, id / 0x100 % 0x100, id % 0x100]
  {
    FourOctets(id);
    var w := length / 256;
    assert Be(length, 3) == [Digit(w, 1), Digit(w, 0), Digit(length, 0)];
  }

  lemma FourOctets(v: nat)
    requires v < 0x1_0000_0000
    ensures Be(v, 4) == [v / 0x100_0000, v / 0x1_0000 % 0x100, v / 0x100 % 0x100, v % 0x100]
  {
    var w, x, y := v / 0x100, v / 0x1_0000, v / 0x100_0000;
    assert x == w / 0x100 && y == x / 0x100 && y < 0x100;
    assert Digit(x, 1) == Digit(y, 0) == y && Digit(w, 2) == Digit(x, 1) && Digit(w, 1) == Digit(x, 0);
    assert Be(v, 4) == [Digit(w, 2), Digit(w, 1), Digit(w, 0), Digit(v, 0)];
  }

  /** Between two frames, and no field block open. */
  ghost predicate Ready<H>(s: DecoderState<H>) {
    AtBoundary(s) && s.continuations == NO_CONTINUATION
  }

  function LengthField(b: seq<byte>): nat
    requires |b| >= 9
  {
    (b[0] as int) * 0x1_0000 + (b[1] as int) * 0x100 + b[2]
  }

  /** A length above the limit is refused as soon as the header is there, whatever the frame is; no other is then. */
  lemma LengthIsLimited<H, P>(hp: Hpack<H, P>, s: DecoderState<H>, b: seq<byte>)
    requires AtBoundary(s) && |b| >= 9
    ensures LengthField(b) > s.maxFrameSize ==> Run(hp, s, b) == Err(ConnectionError(FrameSizeError))
    ensures |b| == 9 && 0 < LengthField(b) <= s.maxFrameSize && s.continuations == NO_CONTINUATION ==>
              Run(hp, s, b).Ok? && Run(hp, s, b).value.0 == []
  {
    assert s.buffer + b[..9] == b[..9];
    assert b[..9][0..3] == b[0..3];
  }

  /** The limit of a new decoder is 16384 octets. */
  lemma NewDecoderLimit<H, P>(hp: Hpack<H, P>, hpack: H, b: seq<byte>)
    requires |b| == 9 && LengthField(b) > 0
    ensures Run(hp, Initial(hpack), b) == Err(ConnectionError(FrameSizeError)) <==> LengthField(b) > 16384
  {
    LengthIsLimited(hp, Initial(hpack), b);
  }

  // ---------------------------------------------------------------------------
  // One frame.
  // ---------------------------------------------------------------------------

  /** What the decoder answers to one whole frame. */
  ghost function Answer<H, P>(
    hp: Hpack<H, P>, s: DecoderState<H>, frameType: byte, flags: byte, id: nat, p: seq<byte>): RunResult<H, P>
    requires Inv(s)
  {
    Run(hp, s, FrameBytes(frameType, flags, id, p))
  }

  ghost predicate Fits<H>(s: DecoderState<H>, id: nat, p: seq<byte>) {
    Ready(s) && id < 0x8000_0000 && |p| <= s.maxFrameSize
  }

  /** One frame is reported, on its stream and with its flags, and the state is that before it but for HPACK. */
  ghost predicate Reports<H, P>(
    r: RunResult<H, P>, s: DecoderState<H>, frameType: byte, flags: byte, id: nat, p: seq<byte>,
    payload: Payload<P>, hpack: H)
  {
    r == Ok(([Received(FrameHeader(id, flags, frameType, |p|), p, Complete(Frame(id, flags, payload)))],
             s.(hpack := hpack)))
  }

  /** The answer to a frame that was decoded to `d`. */
  function Answered<H, P>(s: DecoderState<H>, h: FrameHeader, p: seq<byte>, d: Outcome<Decoded<H, P>>)
    : RunResult<H, P>
  {
    if !d.Ok? then d.PropagateFailure()
    else
      Ok(([Received(h, p, d.value.kind)], s.(hpack := d.value.hpack, continuations := d.value.continuations)))
  }

  lemma AnswerIs<H, P>(
    hp: Hpack<H, P>, s: DecoderState<H>, frameType: byte, flags: byte, id: nat, p: seq<byte>)
    requires AtBoundary(s) && id < 0x8000_0000 && |p| <= s.maxFrameSize
    requires !LockViolated(s.continuations, FrameHeader(id, flags, frameType, |p|))
    ensures var h := FrameHeader(id, flags, frameType, |p|);
            Answer(hp, s, frameType, flags, id, p)
            == Answered(s, h, p, DecodeFrame(hp, h, s.continuations, s.hpack, |p|, p))
  {
    assert p + [] == p;
    FrameDecodes(hp, s, frameType, flags, id, p, []);
    var decoded := DecodeFrame(hp, FrameHeader(id, flags, frameType, |p|), s.continuations, s.hpack, |p|, p);
    if decoded.Ok? {
      var t := s.(hpack := decoded.value.hpack, continuations := decoded.value.continuations);
      var item := Received(FrameHeader(id, flags, frameType, |p|), p, decoded.value.kind);
      NothingToDecode(hp, t);
      assert [item] + [] == [item];
    }
  }

  /** The 32-bit field at octet `i`. */
  function Field32(p: seq<byte>, i: nat): nat
    requires i + 4 <= |p|
  {
    (p[i] as int) * 0x100_0000 + (p[i + 1] as int) * 0x1_0000 + (p[i + 2] as int) * 0x100 + p[i + 3]
  }

  /** The 31-bit field at octet `i`, behind a bit that does not count. */
  function Field31(p: seq<byte>, i: nat): nat
    requires i + 4 <= |p|
  {
    Field32(p, i) % 0x8000_0000
  }

  lemma FieldsAre(p: seq<byte>, i: nat)
    requires i + 4 <= |p|
    ensures Nat32(p[i..i + 4]) == Field32(p, i) && Nat31(p[i..i + 4]) == Field31(p, i)
  {
    var high := (p[i] as int) / 128;
    assert (p[i] as int) == high * 128 + (p[i] as int) % 128;
    assert Field32(p, i) == high * 0x8000_0000 + Nat31(p[i..i + 4]);
  }

  /** DATA has type 0; PADDED is 0x08. */
  lemma DataFormat<H, P>(hp: Hpack<H, P>, s: DecoderState<H>, flags: byte, id: nat, p: seq<byte>)
    requires Fits(s, id, p)
    ensures var r, padded := Answer(hp, s, 0, flags, id, p), flags / 8 % 2 == 1 && p != [];
            && (!r.Ok? <==> id == 0 || (padded && |p| <= p[0]))
            && (!r.Ok? ==> r == Err(ConnectionError(ProtocolError)))
            && (r.Ok? ==> Reports(r, s, 0, flags, id, p, Data(if padded then p[1..|p| - p[0]] else p), s.hpack))
  {
    AnswerIs(hp, s, 0, flags, id, p);
  }

  /** PRIORITY has type 2. */
  lemma PriorityFormat<H, P>(hp: Hpack<H, P>, s: DecoderState<H>, flags: byte, id: nat, p: seq<byte>)
    requires Fits(s, id, p)
    ensures var r := Answer(hp, s, 2, flags, id, p);
            && (r == Err(ConnectionError(ProtocolError)) <==> id == 0)
            && (r == Err(StreamError(id, FrameSizeError)) <==> id != 0 && |p| != 5)
            && (id != 0 && |p| == 5 ==>
                  Reports(r, s, 2, flags, id, p, Priority(p[0] / 128 == 1, Field31(p, 0), p[4]), s.hpack))
  {
    AnswerIs(hp, s, 2, flags, id, p);
    if |p| == 5 {
      FieldsAre(p, 0);
      assert p[0..4] == p[..4];
    }
  }

  /** RST_STREAM has type 3. */
  lemma ResetFormat<H, P>(hp: Hpack<H, P>, s: DecoderState<H>, flags: byte, id: nat, p: seq<byte>)
    requires Fits(s, id, p)
    ensures var r := Answer(hp, s, 3, flags, id, p);
            && (r == Err(ConnectionError(ProtocolError)) <==> id == 0)
            && (r == Err(ConnectionError(FrameSizeError)) <==> id != 0 && |p| != 4)
            && (id != 0 && |p| == 4 ==> Reports(r, s, 3, flags, id, p, RstStream(Field32(p, 0)), s.hpack))
  {
    AnswerIs(hp, s, 3, flags, id, p);
    if |p| == 4 {
      FieldsAre(p, 0);
      assert p[0..4] == p;
    }
  }

  /** PING has type 6. */
  lemma PingFormat<H, P>(hp: Hpack<H, P>, s: DecoderState<H>, flags: byte, id: nat, p: seq<byte>)
    requires Fits(s, id, p)
    ensures var r := Answer(hp, s, 6, flags, id, p);
            && (r == Err(ConnectionError(ProtocolError)) <==> id != 0)
            && (r == Err(ConnectionError(FrameSizeError)) <==> id == 0 && |p| != 8)
            && (id == 0 && |p| == 8 ==> Reports(r, s, 6, flags, id, p, Ping(p), s.hpack))
  {
    AnswerIs(hp, s, 6, flags, id, p);
  }

  /** GOAWAY has type 7: the last stream is in front of the error code. */
  lemma GoawayFormat<H, P>(hp: Hpack<H, P>, s: DecoderState<H>, flags: byte, id: nat, p: seq<byte>)
    requires Fits(s, id, p)
    ensures var r := Answer(hp, s, 7, flags, id, p);
            && (r == Err(ConnectionError(ProtocolError)) <==> id != 0)
            && (r == Err(ConnectionError(FrameSizeError)) <==> id == 0 && |p| < 8)
            && (id == 0 && |p| >= 8 ==>
                  Reports(r, s, 7, flags, id, p,
                          Goaway(errorCode := Field32(p, 4), lastStreamId := Field31(p, 0), debugData := p[8..]),
                          s.hpack))
  {
    AnswerIs(hp, s, 7, flags, id, p);
    if |p| >= 8 {
      FieldsAre(p, 0);
      FieldsAre(p, 4);
      assert p[0..4] == p[..4];
    }
  }

  /** WINDOW_UPDATE has type 8. */
  lemma WindowUpdateFormat<H, P>(hp: Hpack<H, P>, s: DecoderState<H>, flags: byte, id: nat, p: seq<byte>)
    requires Fits(s, id, p)
    ensures var r := Answer(hp, s, 8, flags, id, p);
            && (r == Err(ConnectionError(FrameSizeError)) <==> |p| != 4)
            && (r == Err(StreamError(id, ProtocolError)) <==> |p| == 4 && Field31(p, 0) == 0)
            && (|p| == 4 && Field31(p, 0) > 0 ==>
                  Reports(r, s, 8, flags, id, p, WindowUpdate(Field31(p, 0)), s.hpack))
  {
    AnswerIs(hp, s, 8, flags, id, p);
    if |p| == 4 {
      FieldsAre(p, 0);
      assert p[0..4] == p;
    }
  }

  /** Types from 10 on are refused. */
  lemma UnknownFormat<H, P>(
    hp: Hpack<H, P>, s: DecoderState<H>, frameType: byte, flags: byte, id: nat, p: seq<byte>)
    requires Fits(s, id, p) && frameType >= 10
    ensures Answer(hp, s, frameType, flags, id, p) == Err(ConnectionError(ProtocolError))
  {
    AnswerIs(hp, s, frameType, flags, id, p);
  }
}
