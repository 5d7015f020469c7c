/** One whole frame handed to the HTTP/2 decoder between two frames. */
module H2Boundary {
  import opened Octets
  import opened H2Frame
  import opened H2Decoder
  import opened H2Segments

  /** Between two frames. */
  ghost predicate AtBoundary<H>(s: DecoderState<H>) {
    s.stage.HeaderStage? && s.offset == 0 && s.buffer == [] && s.header == NO_HEADER
    && DEFAULT_MAX_FRAME_SIZE <= s.maxFrameSize <= MAX_ALLOWED_MAX_FRAME_SIZE
  }

  lemma HeaderParses(length: nat, frameType: byte, flags: byte, id: nat)
    requires length < 0x100_0000 && id < 0x8000_0000
    ensures ParseHeader(HeaderBytes(length, frameType, flags, id)) == FrameHeader(id, flags, frameType, length)
  {
    Be24RoundTrip(length);
    Be32RoundTrip(id);
    var h := HeaderBytes(length, frameType, flags, id);
    assert h[0..3] == Be(length, 3) && h[5..9] == Be(id, 4);
  }

  /** A frame with header `h` was decoded to `decoded`; `rest` follows. */
  ghost function Deliver<H, P>(
    hp: Hpack<H, P>, s: DecoderState<H>, h: FrameHeader, payload: seq<byte>,
    decoded: Outcome<Decoded<H, P>>, rest: seq<byte>): RunResult<H, P>
    requires AtBoundary(s)
  {
    var d :- decoded;
    Prepend([Received(h, payload, d.kind)], Run(hp, s.(hpack := d.hpack, continuations := d.continuations), rest))
  }

  lemma FrameDecodes<H, P>(
    hp: Hpack<H, P>, s: DecoderState<H>, frameType: byte, flags: byte, id: nat, payload: seq<byte>, rest: seq<byte>)
    requires AtBoundary(s) && |payload| <= s.maxFrameSize && id < 0x8000_0000
    requires !LockViolated(s.continuations, FrameHeader(id, flags, frameType, |payload|))
    ensures var h := FrameHeader(id, flags, frameType, |payload|);
            Run(hp, s, HeaderBytes(|payload|, frameType, flags, id) + (payload + rest))
            == Deliver(hp, s, h, payload, DecodeFrame(hp, h, s.continuations, s.hpack, |payload|, payload), rest)
  {
    var h := FrameHeader(id, flags, frameType, |payload|);
    HeaderStepIs(s, frameType, flags, id, |payload|, payload + rest);
    PayloadStepIs(hp, s, s.(header := h, stage := PayloadStage), payload, rest);
  }

  lemma HeaderStepIs<H>(s: DecoderState<H>, frameType: byte, flags: byte, id: nat, length: nat, rest: seq<byte>)
    requires AtBoundary(s) && length <= s.maxFrameSize && id < 0x8000_0000
    ensures HeaderStep(s, HeaderBytes(length, frameType, flags, id) + rest)
            == Ok(HeaderDone(s.(header := FrameHeader(id, flags, frameType, length), stage := PayloadStage), rest))
  {
    var head := HeaderBytes(length, frameType, flags, id);
    var wire := head + rest;
    HeaderParses(length, frameType, flags, id);
    assert wire[..9] == head && s.buffer + wire[..9] == head && wire[9..] == rest;
  }

  lemma PayloadStepIs<H, P>(
    hp: Hpack<H, P>, s: DecoderState<H>, t: DecoderState<H>, payload: seq<byte>, rest: seq<byte>)
    requires AtBoundary(s) && t == s.(header := t.header, stage := PayloadStage) && t.header.payloadLength == |payload|
    requires !LockViolated(t.continuations, t.header)
    ensures Run(hp, t, payload + rest)
            == Deliver(hp, s, t.header, payload,
                       DecodeFrame(hp, t.header, t.continuations, t.hpack, |payload|, payload), rest)
  {
    assert (payload + rest)[..|payload|] == payload && t.buffer + payload == payload;
    assert (payload + rest)[|payload|..] == rest;
  }

  lemma NothingToDecode<H, P>(hp: Hpack<H, P>, s: DecoderState<H>)
    requires AtBoundary(s)
    ensures Run(hp, s, []) == Ok(([], s))
  {
    assert s.buffer + [] == s.buffer;
  }
}
