/** HEADERS, PUSH_PROMISE and CONTINUATION (sections 6.2, 6.6 and 6.10 of RFC 9113) on the wire. */
module H2BlockFormat {
  import opened Octets
  import opened H2Frame
  import opened H2Decoder
  import opened H2Boundary
  import opened H2Format

  // PADDED is 0x08, PRIORITY 0x20, END_HEADERS 0x04 and END_STREAM 0x01.

  predicate HasPadding(flags: byte) { flags / 0x08 % 2 == 1 }

  predicate HasPriority(flags: byte) { flags / 0x20 % 2 == 1 }

  predicate EndsBlock(flags: byte) { flags / 0x04 % 2 == 1 }

  /** A payload: fields, the fragment and, if the flags say so, a padding length in front and the padding behind. */
  function Laid(flags: byte, fields: seq<byte>, fragment: seq<byte>, padding: seq<byte>): seq<byte>
    requires |padding| < 256
  {
    if HasPadding(flags) then [|padding|] + (fields + fragment) + padding else fields + fragment
  }

  /** HPACK was fed and left in `fed`: the block is over and reported, or it stays open as `open` says. */
  ghost function Block<H, P>(
    hp: Hpack<H, P>, flags: byte, fed: Outcome<H>, frame: P -> Frame<P>, open: Continuations): Outcome<Decoded<H, P>>
  {
    if !fed.Ok? then fed.PropagateFailure()
    else if !EndsBlock(flags) then Ok(Decoded(Partial, fed.value, open))
    else
      var finished := hp.finish(fed.value);
      if !finished.Ok? then finished.PropagateFailure()
      else Ok(Decoded(Complete(frame(finished.value.1)), finished.value.0, Continuations(0, false, 0, true, 0)))
  }

  lemma FragmentIs(frameType: byte, flags: byte, id: nat, fields: seq<byte>, fragment: seq<byte>, padding: seq<byte>)
    requires |padding| < 256
    ensures var p := Laid(flags, fields, fragment, padding);
            var r := FragmentBounds(FrameHeader(id, flags, frameType, |p|), |fields|, p);
            r.Ok? && p[r.value.0..r.value.1] == fragment
  {
    var p := Laid(flags, fields, fragment, padding);
    if HasPadding(flags) {
      assert forall i :: 0 <= i < |fragment| ==> p[1 + |fields| + i] == fragment[i];
    }
  }

  lemma HeadersDecode<H, P>(
    hp: Hpack<H, P>, hpack: H, flags: byte, id: nat, priority: seq<byte>, fragment: seq<byte>, padding: seq<byte>)
    requires |padding| < 256 && |priority| == (if HasPriority(flags) then 5 else 0) && id != 0
    ensures var p := Laid(flags, priority, fragment, padding);
            DecodeFrame(hp, FrameHeader(id, flags, 1, |p|), NO_CONTINUATION, hpack, |p|, p)
            == Block(hp, flags, hp.decode(hpack, fragment), parts => Frame(id, flags, Headers(parts)),
                     Continuations(flags, flags % 2 == 1, id, false, 0))
  {
    FragmentIs(1, flags, id, priority, fragment, padding);
  }

  /** HEADERS has type 1: HPACK is fed the fragment, behind the padding length and five octets of priority. */
  lemma HeadersFormat<H, P>(
    hp: Hpack<H, P>, s: DecoderState<H>, flags: byte, id: nat, priority: seq<byte>, fragment: seq<byte>,
    padding: seq<byte>)
    requires |padding| < 256 && |priority| == (if HasPriority(flags) then 5 else 0) && id != 0
    requires Fits(s, id, Laid(flags, priority, fragment, padding))
    ensures var p := Laid(flags, priority, fragment, padding);
            Answer(hp, s, 1, flags, id, p)
            == Answered(s, FrameHeader(id, flags, 1, |p|), p,
                        Block(hp, flags, hp.decode(s.hpack, fragment), parts => Frame(id, flags, Headers(parts)),
                              Continuations(flags, flags % 2 == 1, id, false, 0)))
  {
    HeadersDecode(hp, s.hpack, flags, id, priority, fragment, padding);
    AnswerIs(hp, s, 1, flags, id, Laid(flags, priority, fragment, padding));
  }

  /** HEADERS and PUSH_PROMISE are refused on stream 0, and if what the flags announce does not fit the payload. */
  lemma BlockRefused<H, P>(
    hp: Hpack<H, P>, s: DecoderState<H>, frameType: byte, flags: byte, id: nat, p: seq<byte>)
    requires Fits(s, id, p) && frameType in {1, 5} && (HasPadding(flags) ==> p != [])
    requires var fields := if frameType == 5 then 4 else if HasPriority(flags) then 5 else 0;
             id == 0 || |p| < fields + (if HasPadding(flags) then 1 + (p[0] as int) else 0)
    ensures Answer(hp, s, frameType, flags, id, p) == Err(ConnectionError(ProtocolError))
  {
    AnswerIs(hp, s, frameType, flags, id, p);
  }

  /** A promise of stream 0 is refused, once HPACK has accepted the block. */
  ghost function Promise<H, P>(hp: Hpack<H, P>, hpack: H, flags: byte, id: nat, promised: nat, p: seq<byte>)
    : Outcome<Decoded<H, P>>
  {
    if promised == 0 && hp.decode(hpack, p).Ok? then Err(ConnectionError(ProtocolError))
    else Block(hp, flags, hp.decode(hpack, p), parts => Frame(id, flags, PushPromise(promised, parts)),
               Continuations(flags, false, id, false, promised))
  }

  lemma PromisedIs(flags: byte, id: nat, promised: seq<byte>, fragment: seq<byte>, padding: seq<byte>)
    requires |padding| < 256 && |promised| == 4
    ensures var p := Laid(flags, promised, fragment, padding);
            PromisedId(FrameHeader(id, flags, 5, |p|), p) == Field31(promised, 0)
  {
    var p := Laid(flags, promised, fragment, padding);
    FieldsAre(promised, 0);
    if HasPadding(flags) {
      assert p[1..5] == promised[0..4];
    } else {
      assert p[..4] == promised[0..4];
    }
  }

  lemma PromiseDecodes<H, P>(
    hp: Hpack<H, P>, hpack: H, flags: byte, id: nat, promised: seq<byte>, fragment: seq<byte>, padding: seq<byte>)
    requires |padding| < 256 && |promised| == 4 && id != 0
    ensures var p := Laid(flags, promised, fragment, padding);
            DecodeFrame(hp, FrameHeader(id, flags, 5, |p|), NO_CONTINUATION, hpack, |p|, p)
            == Promise(hp, hpack, flags, id, Field31(promised, 0), p)
  {
    FragmentIs(5, flags, id, promised, fragment, padding);
    PromisedIs(flags, id, promised, fragment, padding);
  }

  /** PUSH_PROMISE has type 5: the promised stream is in front of the fragment, and HPACK is fed the whole payload. */
  lemma PushPromiseFormat<H, P>(
    hp: Hpack<H, P>, s: DecoderState<H>, flags: byte, id: nat, promised: seq<byte>, fragment: seq<byte>,
    padding: seq<byte>)
    requires |padding| < 256 && |promised| == 4 && id != 0
    requires Fits(s, id, Laid(flags, promised, fragment, padding))
    ensures var p := Laid(flags, promised, fragment, padding);
            Answer(hp, s, 5, flags, id, p)
            == Answered(s, FrameHeader(id, flags, 5, |p|), p, Promise(hp, s.hpack, flags, id, Field31(promised, 0), p))
  {
    PromiseDecodes(hp, s.hpack, flags, id, promised, fragment, padding);
    AnswerIs(hp, s, 5, flags, id, Laid(flags, promised, fragment, padding));
  }

  /**
   * CONTINUATION has type 9. Within an open block it is the only frame that is accepted, and on the stream of the block
   * only; with END_HEADERS the frame that opened the block is reported, on its stream and with its flags.
   */
  lemma ContinuationFormat<H, P>(
    hp: Hpack<H, P>, s: DecoderState<H>, frameType: byte, flags: byte, id: nat, p: seq<byte>)
    requires AtBoundary(s) && !s.continuations.isEndHeaders && s.continuations.streamId != 0
    requires id < 0x8000_0000 && |p| <= s.maxFrameSize
    ensures var r, c := Answer(hp, s, frameType, flags, id, p), s.continuations;
            r == if frameType != 9 || id != c.streamId then Err(ConnectionError(ProtocolError))
                 else Answered(s, FrameHeader(id, flags, 9, |p|), p,
                               Block(hp, flags, hp.decode(s.hpack, p),
                                     parts => Frame(c.streamId, c.flags,
                                                    if c.promisedStreamId == 0 then Headers(parts)
                                                    else PushPromise(c.promisedStreamId, parts)),
                                     c))
  {
    if frameType != 9 || id != s.continuations.streamId {
      HeaderStepIs(s, frameType, flags, id, |p|, p);
      var t := s.(header := FrameHeader(id, flags, frameType, |p|), stage := PayloadStage);
      assert Run(hp, t, p) == Err(ConnectionError(ProtocolError));
      assert Run(hp, s, FrameBytes(frameType, flags, id, p)) == Run(hp, t, p);
    } else {
      AnswerIs(hp, s, frameType, flags, id, p);
    }
  }
}
