/** Frames from one HTTP/2 encoder to a decoder, through any buffers and any segments. */
module H2EndToEnd {
  import opened Octets
  import opened Buffers
  import opened H2Frame
  import opened H2Wire
  import opened H2Control
  import opened H2Encoder
  import opened H2FrameEncoder
  import opened H2Calls
  import opened H2Decoder
  import opened H2Segments
  import opened H2Boundary
  import opened H2HeadersEndToEnd
  import opened H2FramesEndToEnd

  /** The CONTINUATION frames of a field block. */
  function ContinuationCount(block: seq<byte>): nat {
    Fragments(block[FragmentSize(block)..])
  }

  /** A block that one HEADERS frame holds gets through all buffers with room for it; any other needs ample room. */
  ghost predicate Enough(frame: OutFrame, block: seq<byte>, sizes: seq<nat>, least: nat, most: nat) {
    var octets := |HeadersWire(frame, block)|;
    || (|block| <= DEFAULT_MAX_FRAME_SIZE && octets <= Room(sizes, |sizes|))
    || Ample(octets, ContinuationCount(block), sizes, least, most)
  }

  /**
   * Sends HEADERS through buffers with enough room. The decoder reports the header list once, under the stream it
   * was sent on, or fails as HPACK does, however the octets are cut into segments.
   */
  method SendHeaders<H(!new), P>(
    encoder: FrameEncoder, frame: OutFrame, sizes: seq<nat>, ghost least: nat, ghost most: nat, ghost hp: Hpack<H, P>,
    ghost s: DecoderState<H>)
    returns (out: seq<byte>)
    requires Common(encoder.Fields()) && H2Encoder.Complete(encoder.Fields())
    requires frame.payload.Headers? && DEFAULT_MAX_FRAME_SIZE <= encoder.maxFrameSize
    requires 0 < frame.id < 0x8000_0000 && IsEndHeaders(frame.flags) && Plain(frame.flags)
    requires Enough(frame, frame.payload.parts, sizes, least, most)
    requires Streaming(hp) && AtBoundary(s) && s.continuations == NO_CONTINUATION
    modifies encoder
    ensures out == HeadersWire(frame, frame.payload.parts)
    ensures forall segments :: Flatten(segments) == out ==>
              Arrives(RunSegments(hp, s, segments), s, frame.id,
                      HeadersFlags(frame.flags, |frame.payload.parts| <= DEFAULT_MAX_FRAME_SIZE),
                      FeedAll(hp, s.hpack, frame.payload.parts))
  {
    StartPends(encoder.Fields(), frame);
    StartQueues(encoder.Fields(), frame);
    var accepted := encoder.SetFrame(frame);
    out := EncodeAll(encoder, sizes, least, most);
    forall segments | Flatten(segments) == out
      ensures Arrives(RunSegments(hp, s, segments), s, frame.id,
                      HeadersFlags(frame.flags, |frame.payload.parts| <= DEFAULT_MAX_FRAME_SIZE),
                      FeedAll(hp, s.hpack, frame.payload.parts))
    {
      HeadersArriveInSegments(hp, s, frame, frame.payload.parts, segments);
    }
  }

  /** Sends DATA through buffers of any sizes; what the decoder reports is `DataOutcome`. */
  method SendData<H(!new), P>(
    encoder: FrameEncoder, frame: OutFrame, sizes: seq<nat>, ghost hp: Hpack<H, P>, ghost s: DecoderState<H>)
    returns (out: seq<byte>)
    requires Common(encoder.Fields()) && H2Encoder.Complete(encoder.Fields()) && encoder.maxFrameSize <= s.maxFrameSize
    requires frame.payload.Data? && 0 < frame.id < 0x8000_0000
    requires |DataWire(frame, encoder.maxFrameSize)| <= Room(sizes, |sizes|)
    requires AtBoundary(s) && s.continuations == NO_CONTINUATION
    modifies encoder
    ensures out == DataWire(frame, old(encoder.maxFrameSize))
    ensures forall segments :: Flatten(segments) == out ==>
              DataReaches(RunSegments(hp, s, segments), s, frame, old(encoder.maxFrameSize))
  {
    ghost var max := encoder.maxFrameSize;
    StartPends(encoder.Fields(), frame);
    var accepted := encoder.SetFrame(frame);
    out := EncodeAll(encoder, sizes, 0, 0);
    DataComesBackIff(hp, s, frame, max);
    forall segments | Flatten(segments) == out
      ensures DataReaches(RunSegments(hp, s, segments), s, frame, max)
    {
      DataAnyCuts(hp, s, frame, max, segments);
      DataArrives(hp, s, frame, max, segments);
    }
  }

  /** The reported frames; they hold the data if and only if it is empty, or not padded and periodic. */
  ghost predicate DataReaches<H, P>(r: RunResult<H, P>, s: DecoderState<H>, frame: OutFrame, max: nat)
    requires frame.payload.Data? && 0 < max
  {
    && r == DataOutcome(s, frame, max)
    && (ComesBack(r, frame.payload.data) <==>
          frame.payload.data == [] || (!IsPadded(frame.flags) && Periodic(frame.payload.data, max)))
  }

  lemma ControlReaches<H(!new), P>(hp: Hpack<H, P>, s: DecoderState<H>, frame: OutFrame, out: seq<byte>)
    requires IsControl(frame.payload) && Typed(frame.payload) && frame.id < 0x8000_0000
    requires |ControlPayload(frame.payload)| <= s.maxFrameSize
    requires AtBoundary(s) && s.continuations == NO_CONTINUATION && out == ControlWire(frame)
    ensures Arrived(Run(hp, s, out), s, frame) <==> Deliverable(frame)
    ensures forall segments | Flatten(segments) == out && (frame.payload.Priority? ==> SafeCuts(hp, s, segments)) ::
              Arrived(RunSegments(hp, s, segments), s, frame) <==> Deliverable(frame)
  {
    ControlArrivesIff(hp, s, frame);
    forall segments | Flatten(segments) == out && (frame.payload.Priority? ==> SafeCuts(hp, s, segments))
      ensures Arrived(RunSegments(hp, s, segments), s, frame) <==> Deliverable(frame)
    {
      ControlArrivesInSegmentsIff(hp, s, frame, segments);
    }
  }

  /**
   * Sends a control frame through buffers none of which ends behind a forbidden octet. The decoder reports the frame
   * as it was sent if and only if it is deliverable, however the octets are cut into segments; a PRIORITY frame
   * must not be cut.
   */
  method SendControl<H(!new), P>(
    encoder: FrameEncoder, frame: OutFrame, sizes: seq<nat>, ghost hp: Hpack<H, P>, ghost s: DecoderState<H>)
    returns (out: seq<byte>)
    requires Common(encoder.Fields()) && H2Encoder.Complete(encoder.Fields())
    requires IsControl(frame.payload) && Typed(frame.payload) && frame.id < 0x8000_0000
    requires |ControlPayload(frame.payload)| <= s.maxFrameSize
    requires Clear(frame.payload, sizes, |sizes|) && |ControlWire(frame)| <= Room(sizes, |sizes|)
    requires AtBoundary(s) && s.continuations == NO_CONTINUATION
    modifies encoder
    ensures out == ControlWire(frame)
    ensures Arrived(Run(hp, s, out), s, frame) <==> Deliverable(frame)
    ensures forall segments | Flatten(segments) == out && (frame.payload.Priority? ==> SafeCuts(hp, s, segments)) ::
              Arrived(RunSegments(hp, s, segments), s, frame) <==> Deliverable(frame)
  {
    StartPends(encoder.Fields(), frame);
    var accepted := encoder.SetFrame(frame);
    assert ClearFrom(encoder.Fields(), sizes) by {
      assert SentOf(encoder.Fields()) == 0;
      assert forall j :: 0 <= j <= |sizes| ==> !Forbidden(frame.payload, Room(sizes, j));
    }
    out := EncodeAll(encoder, sizes, 0, 0);
    ControlReaches(hp, s, frame, out);
  }
}
