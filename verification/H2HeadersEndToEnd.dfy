/**
 * A field block through the HTTP/2 encoder and decoder: cut into HEADERS and
 * CONTINUATION frames, cut again into segments, and put together.
 */
module H2HeadersEndToEnd {
  import opened Octets
  import opened H2Frame
  import opened H2Wire
  import opened H2Decoder
  import opened H2Segments
  import opened H2Boundary
  import opened H2Reach

  // ---------------------------------------------------------------------------
  // CONTINUATION frames.
  // ---------------------------------------------------------------------------

  /** A field block opened by HEADERS on stream `id`. */
  ghost predicate BlockOpen<H>(s: DecoderState<H>, id: nat) {
    && AtBoundary(s)
    && s.continuations.streamId == id
    && !s.continuations.isEndHeaders
    && s.continuations.promisedStreamId == 0
  }

  /** The header of the CONTINUATION frame that carries the first `n` octets of what is left. */
  function ContinuationFrame(id: nat, n: nat, last: bool): FrameHeader {
    FrameHeader(id, ContinuationFlags(last), CONTINUATION, n)
  }

  /** One CONTINUATION frame of an open block. */
  ghost function ContinueFrame<H, P>(hp: Hpack<H, P>, c: Continuations, hpack: H, p: seq<byte>, last: bool)
    : Outcome<Decoded<H, P>>
  {
    var fed :- hp.decode(hpack, p);
    if last then
      var (finished, parts) :- hp.finish(fed);
      Ok(Decoded(Complete(Frame(c.streamId, c.flags, Headers(parts))), finished, NO_CONTINUATION))
    else
      Ok(Decoded(Partial, fed, c))
  }

  /** What is left of a field block, fed to HPACK fragment by fragment. */
  ghost function Continue<H, P>(hp: Hpack<H, P>, s: DecoderState<H>, block: seq<byte>): RunResult<H, P>
    decreases |block|
  {
    if block == [] then Ok(([], s)) else
    var n := FragmentSize(block);
    var last := block[n..] == [];
    var d :- ContinueFrame(hp, s.continuations, s.hpack, block[..n], last);
    Prepend([Received(ContinuationFrame(s.continuations.streamId, n, last), block[..n], d.kind)],
            Continue(hp, s.(hpack := d.hpack, continuations := d.continuations), block[n..]))
  }

  lemma ContinuationDecodes<H, P>(hp: Hpack<H, P>, c: Continuations, hpack: H, p: seq<byte>, last: bool)
    requires c.streamId != 0 && c.promisedStreamId == 0
    ensures DecodeFrame(hp, ContinuationFrame(c.streamId, |p|, last), c, hpack, |p|, p)
            == ContinueFrame(hp, c, hpack, p, last)
  {
    assert IsEndHeaders(ContinuationFlags(last)) == last;
  }

  lemma ContinuationWireDecodes<H, P>(
    hp: Hpack<H, P>, s: DecoderState<H>, id: nat, p: seq<byte>, last: bool, rest: seq<byte>)
    requires BlockOpen(s, id) && 0 < id < 0x8000_0000 && |p| <= DEFAULT_MAX_FRAME_SIZE
    ensures Run(hp, s, HeaderBytes(|p|, CONTINUATION, ContinuationFlags(last), id) + (p + rest))
            == Deliver(hp, s, ContinuationFrame(id, |p|, last), p,
                       ContinueFrame(hp, s.continuations, s.hpack, p, last), rest)
  {
    FrameDecodes(hp, s, CONTINUATION, ContinuationFlags(last), id, p, rest);
    ContinuationDecodes(hp, s.continuations, s.hpack, p, last);
  }

  lemma {:induction false} ContinuationsDecode<H, P>(
    hp: Hpack<H, P>, s: DecoderState<H>, frame: OutFrame, block: seq<byte>)
    requires BlockOpen(s, frame.id) && 0 < frame.id < 0x8000_0000 && block != []
    ensures Run(hp, s, ContinuationWire(frame, block)) == Continue(hp, s, block)
    decreases |block|
  {
    var n := FragmentSize(block);
    var last := block[n..] == [];
    ContinuationWireDecodes(hp, s, frame.id, block[..n], last, ContinuationWire(frame, block[n..]));
    var decoded := ContinueFrame(hp, s.continuations, s.hpack, block[..n], last);
    if decoded.Ok? {
      var t := s.(hpack := decoded.value.hpack, continuations := decoded.value.continuations);
      if last {
        NothingToDecode(hp, t);
      } else {
        ContinuationsDecode(hp, t, frame, block[n..]);
      }
    }
  }

  // ---------------------------------------------------------------------------
  // HEADERS and its CONTINUATION frames.
  // ---------------------------------------------------------------------------

  /** HPACK does not care how a field block is cut. */
  ghost predicate Streaming<H(!new), P>(hp: Hpack<H, P>) {
    forall h, a, b :: hp.decode(h, a + b) == FeedTwice(hp, h, a, b)
  }

  ghost function FeedTwice<H, P>(hp: Hpack<H, P>, h: H, a: seq<byte>, b: seq<byte>): Outcome<H> {
    var fed :- hp.decode(h, a);
    hp.decode(fed, b)
  }

  /** What HPACK makes of a whole field block. */
  ghost function FeedAll<H, P>(hp: Hpack<H, P>, h: H, block: seq<byte>): Outcome<(H, P)> {
    var fed :- hp.decode(h, block);
    hp.finish(fed)
  }

  /** A frame of the block on stream `id`; END_HEADERS is set on the last one only. */
  predicate BlockFrame(h: FrameHeader, id: nat, last: bool) {
    && h.streamId == id
    && h.frameType in {HEADERS, CONTINUATION}
    && h.payloadLength <= DEFAULT_MAX_FRAME_SIZE
    && IsEndHeaders(h.flags) == last
  }

  /** Any number of partial reports, then `frame`. */
  ghost predicate ReportsOnce<P>(items: seq<Received<P>>, frame: Frame<P>) {
    && items != []
    && items[|items| - 1].kind == Complete(frame)
    && (forall i :: 0 <= i < |items| - 1 ==> items[i].kind.Partial?)
    && (forall i :: 0 <= i < |items| ==> BlockFrame(items[i].header, frame.id, i == |items| - 1))
  }

  /** The run reports the header list `whole` once, or fails as HPACK does. */
  ghost predicate Arrives<H, P>(
    r: RunResult<H, P>, s: DecoderState<H>, id: nat, flags: byte, whole: Outcome<(H, P)>)
  {
    if whole.Ok? then
      && r.Ok?
      && ReportsOnce(r.value.0, Frame(id, flags, Headers(whole.value.1)))
      && r.value.1 == s.(hpack := whole.value.0, continuations := NO_CONTINUATION)
    else
      r == whole.PropagateFailure()
  }

  lemma PartialFirst<H, P>(
    item: Received<P>, r: RunResult<H, P>, s: DecoderState<H>, id: nat, flags: byte, whole: Outcome<(H, P)>)
    requires item.kind.Partial? && BlockFrame(item.header, id, false)
    requires Arrives(r, s, id, flags, whole)
    ensures Arrives(Prepend([item], r), s, id, flags, whole)
  {
  }

  lemma {:induction false} ContinueArrives<H(!new), P>(hp: Hpack<H, P>, s: DecoderState<H>, block: seq<byte>)
    requires Streaming(hp) && block != []
    ensures var c := s.continuations;
            Arrives(Continue(hp, s, block), s, c.streamId, c.flags, FeedAll(hp, s.hpack, block))
    decreases |block|
  {
    var n := FragmentSize(block);
    var fed := hp.decode(s.hpack, block[..n]);
    if n == |block| {
      assert block[..n] == block && block[n..] == [];
      return;
    }
    assert block == block[..n] + block[n..];
    assert hp.decode(s.hpack, block) == FeedTwice(hp, s.hpack, block[..n], block[n..]);
    if fed.Ok? {
      var c := s.continuations;
      var t := s.(hpack := fed.value);
      ContinueArrives(hp, t, block[n..]);
      PartialFirst(Received(ContinuationFrame(c.streamId, n, false), block[..n], Partial),
                   Continue(hp, t, block[n..]), s, c.streamId, c.flags, FeedAll(hp, s.hpack, block));
    }
  }

  /** A HEADERS frame whose payload is nothing but the fragment. */
  predicate Plain(flags: byte) {
    !IsPadded(flags) && !IsHeadersPriority(flags)
  }

  /** The block that HEADERS leaves open. */
  function Opened(id: nat, flags: byte): Continuations {
    Continuations(flags, IsEndStream(flags), id, false, 0)
  }

  lemma HeadersFrameDecodes<H, P>(
    hp: Hpack<H, P>, s: DecoderState<H>, id: nat, flags: byte, p: seq<byte>, rest: seq<byte>)
    requires AtBoundary(s) && s.continuations == NO_CONTINUATION
    requires 0 < id < 0x8000_0000 && |p| <= DEFAULT_MAX_FRAME_SIZE
    ensures var h := FrameHeader(id, flags, HEADERS, |p|);
            Run(hp, s, HeaderBytes(|p|, HEADERS, flags, id) + (p + rest))
            == Deliver(hp, s, h, p, DecodeHeaders(hp, h, NO_CONTINUATION, s.hpack, p), rest)
  {
    FrameDecodes(hp, s, HEADERS, flags, id, p, rest);
  }

  /** A block that fits into one frame. */
  lemma ShortHeadersArrive<H, P>(hp: Hpack<H, P>, s: DecoderState<H>, frame: OutFrame, block: seq<byte>)
    requires AtBoundary(s) && s.continuations == NO_CONTINUATION
    requires 0 < frame.id < 0x8000_0000 && IsEndHeaders(frame.flags) && Plain(frame.flags)
    requires |block| <= DEFAULT_MAX_FRAME_SIZE
    ensures Arrives(Run(hp, s, HeadersWire(frame, block)), s, frame.id, frame.flags, FeedAll(hp, s.hpack, block))
  {
    var n := |block|;
    assert block[..n] == block && block[n..] == [];
    assert block[0..n] == block;
    HeadersFrameDecodes(hp, s, frame.id, frame.flags, block, []);
    if FeedAll(hp, s.hpack, block).Ok? {
      NothingToDecode(hp, s.(hpack := FeedAll(hp, s.hpack, block).value.0));
    }
  }

  /** A block that needs CONTINUATION frames. */
  lemma LongHeadersArrive<H(!new), P>(hp: Hpack<H, P>, s: DecoderState<H>, frame: OutFrame, block: seq<byte>)
    requires Streaming(hp) && AtBoundary(s) && s.continuations == NO_CONTINUATION
    requires 0 < frame.id < 0x8000_0000 && Plain(frame.flags)
    requires |block| > DEFAULT_MAX_FRAME_SIZE
    ensures Arrives(Run(hp, s, HeadersWire(frame, block)), s, frame.id, ClearEndHeaders(frame.flags),
                    FeedAll(hp, s.hpack, block))
  {
    var n := DEFAULT_MAX_FRAME_SIZE;
    var flags := ClearEndHeaders(frame.flags);
    ClearEndHeadersOnly(frame.flags);
    assert block == block[..n] + block[n..] && block[n..] != [];
    assert block[..n][0..n] == block[..n];
    HeadersFrameDecodes(hp, s, frame.id, flags, block[..n], ContinuationWire(frame, block[n..]));
    assert hp.decode(s.hpack, block) == FeedTwice(hp, s.hpack, block[..n], block[n..]);
    var fed := hp.decode(s.hpack, block[..n]);
    if fed.Ok? {
      var t := s.(hpack := fed.value, continuations := Opened(frame.id, flags));
      ContinuationsDecode(hp, t, frame, block[n..]);
      ContinueArrives(hp, t, block[n..]);
      PartialFirst(Received(FrameHeader(frame.id, flags, HEADERS, n), block[..n], Partial),
                   Continue(hp, t, block[n..]), s, frame.id, flags, FeedAll(hp, s.hpack, block));
    }
  }

  /**
   * Every field block reaches the other side as one header list, END_STREAM
   * included. END_HEADERS is missing from the reported flags if the block was split.
   */
  lemma HeadersArrive<H(!new), P>(hp: Hpack<H, P>, s: DecoderState<H>, frame: OutFrame, block: seq<byte>)
    requires Streaming(hp) && AtBoundary(s) && s.continuations == NO_CONTINUATION
    requires 0 < frame.id < 0x8000_0000 && IsEndHeaders(frame.flags) && Plain(frame.flags)
    ensures var flags := HeadersFlags(frame.flags, |block| <= DEFAULT_MAX_FRAME_SIZE);
            && IsEndStream(flags) == IsEndStream(frame.flags)
            && Arrives(Run(hp, s, HeadersWire(frame, block)), s, frame.id, flags, FeedAll(hp, s.hpack, block))
  {
    ClearEndHeadersOnly(frame.flags);
    if |block| <= DEFAULT_MAX_FRAME_SIZE {
      ShortHeadersArrive(hp, s, frame, block);
    } else {
      LongHeadersArrive(hp, s, frame, block);
    }
  }

  lemma {:induction false} ContinuationsMeetNoPriority<H, P>(
    hp: Hpack<H, P>, s: DecoderState<H>, frame: OutFrame, block: seq<byte>)
    requires AtBoundary(s) && frame.id < 0x8000_0000
    ensures !Meets(hp, s, ContinuationWire(frame, block), IsPriority)
    decreases |block|
  {
    if block == [] {
      NothingMet(hp, s, IsPriority);
    } else {
      var n := FragmentSize(block);
      var flags := ContinuationFlags(block[n..] == []);
      FrameMeets(hp, s, CONTINUATION, flags, frame.id, block[..n], ContinuationWire(frame, block[n..]), IsPriority);
      var h := FrameHeader(frame.id, flags, CONTINUATION, n);
      var decoded := DecodeFrame(hp, h, s.continuations, s.hpack, n, block[..n]);
      if decoded.Ok? {
        var t := s.(hpack := decoded.value.hpack, continuations := decoded.value.continuations);
        ContinuationsMeetNoPriority(hp, t, frame, block[n..]);
      }
    }
  }

  lemma HeadersMeetNoPriority<H, P>(hp: Hpack<H, P>, s: DecoderState<H>, frame: OutFrame, block: seq<byte>)
    requires AtBoundary(s) && frame.id < 0x8000_0000
    ensures !Meets(hp, s, HeadersWire(frame, block), IsPriority)
  {
    var n := FragmentSize(block);
    var flags := HeadersFlags(frame.flags, block[n..] == []);
    FrameMeets(hp, s, HEADERS, flags, frame.id, block[..n], ContinuationWire(frame, block[n..]), IsPriority);
    var h := FrameHeader(frame.id, flags, HEADERS, n);
    var decoded := DecodeFrame(hp, h, s.continuations, s.hpack, n, block[..n]);
    if decoded.Ok? {
      var t := s.(hpack := decoded.value.hpack, continuations := decoded.value.continuations);
      ContinuationsMeetNoPriority(hp, t, frame, block[n..]);
    }
  }

  /** The same however the octets are cut on their way, failures included. */
  lemma HeadersArriveInSegments<H(!new), P>(
    hp: Hpack<H, P>, s: DecoderState<H>, frame: OutFrame, block: seq<byte>, segments: seq<seq<byte>>)
    requires Streaming(hp) && AtBoundary(s) && s.continuations == NO_CONTINUATION
    requires 0 < frame.id < 0x8000_0000 && IsEndHeaders(frame.flags) && Plain(frame.flags)
    requires Flatten(segments) == HeadersWire(frame, block)
    ensures Arrives(RunSegments(hp, s, segments), s, frame.id,
                    HeadersFlags(frame.flags, |block| <= DEFAULT_MAX_FRAME_SIZE), FeedAll(hp, s.hpack, block))
  {
    HeadersArrive(hp, s, frame, block);
    HeadersMeetNoPriority(hp, s, frame, block);
    NotMetAnyCuts(hp, s, segments);
  }

  // ---------------------------------------------------------------------------
  // The condition on the flags is exact.
  // ---------------------------------------------------------------------------

  /** An HPACK decoder that only notes what it was fed. */
  ghost function Recorder(): Hpack<seq<byte>, seq<byte>> {
    Hpack((h: seq<byte>, a: seq<byte>) => Ok(h + a), (h: seq<byte>) => Ok((h, h)))
  }

  lemma RecorderStreams()
    ensures Streaming(Recorder())
  {
    var hp := Recorder();
    forall h, a, b ensures hp.decode(h, a + b) == FeedTwice(hp, h, a, b) {
      assert h + (a + b) == h + a + b;
    }
  }

  /** The octets HPACK is fed for this frame, if decoding succeeds. */
  ghost function Recorded(frame: OutFrame, block: seq<byte>): Outcome<seq<byte>> {
    var r :- Run(Recorder(), Initial([]), HeadersWire(frame, block));
    Ok(r.1.hpack)
  }

  /** With PADDED or PRIORITY set, the encoder's payload is misread and HPACK is fed fewer octets. */
  lemma FlaggedHeadersLoseOctets(frame: OutFrame, block: seq<byte>)
    requires 0 < frame.id < 0x8000_0000 && IsEndHeaders(frame.flags) && !Plain(frame.flags)
    ensures Recorded(frame, block).Ok? ==> |Recorded(frame, block).value| < |block|
  {
    var hp := Recorder();
    var s := Initial<seq<byte>>([]);
    var n := FragmentSize(block);
    var p := block[..n];
    var last := block[n..] == [];
    var flags := HeadersFlags(frame.flags, last);
    ClearEndHeadersOnly(frame.flags);
    var h := FrameHeader(frame.id, flags, HEADERS, n);
    HeadersFrameDecodes(hp, s, frame.id, flags, p, ContinuationWire(frame, block[n..]));
    var bounds := FragmentBounds(h, if IsHeadersPriority(flags) then 5 else 0, p);
    if bounds.Ok? {
      var fed := p[bounds.value.0..bounds.value.1];
      assert [] + fed == fed;
      if last {
        NothingToDecode(hp, s.(hpack := fed));
      } else {
        var t := s.(hpack := fed, continuations := Opened(frame.id, flags));
        ContinuationsDecode(hp, t, frame, block[n..]);
        RecorderStreams();
        ContinueArrives(hp, t, block[n..]);
      }
    }
  }

  /** HPACK is fed exactly the field block if and only if neither PADDED nor PRIORITY is set. */
  lemma HeadersArriveIff(frame: OutFrame, block: seq<byte>)
    requires 0 < frame.id < 0x8000_0000 && IsEndHeaders(frame.flags)
    ensures Recorded(frame, block) == Ok(block) <==> Plain(frame.flags)
  {
    if Plain(frame.flags) {
      RecorderStreams();
      HeadersArrive(Recorder(), Initial([]), frame, block);
      assert [] + block == block;
    } else {
      FlaggedHeadersLoseOctets(frame, block);
    }
  }
}
