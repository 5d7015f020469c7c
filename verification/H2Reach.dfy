/** The frames that a run of the HTTP/2 decoder gets to, whether it succeeds or not. */
module H2Reach {
  import opened Octets
  import opened H2Frame
  import opened H2Decoder
  import opened H2Segments
  import opened H2Boundary

  /** The run gets to a frame whose header is `wanted` and that passes the lock. */
  ghost predicate Meets<H, P>(hp: Hpack<H, P>, s: DecoderState<H>, buf: seq<byte>, wanted: FrameHeader -> bool)
    requires Inv(s)
    decreases Measure(s, buf)
  {
    match s.stage
    case HeaderStage =>
      var step := HeaderStep(s, buf);
      step.Ok? && step.value.HeaderDone? && Meets(hp, step.value.state, step.value.rest, wanted)
    case PayloadStage =>
      && !LockViolated(s.continuations, s.header)
      && (wanted(s.header) || MeetsBehind(hp, s, buf, wanted))
  }

  ghost predicate MeetsBehind<H, P>(hp: Hpack<H, P>, s: DecoderState<H>, buf: seq<byte>, wanted: FrameHeader -> bool)
    requires Inv(s) && s.stage.PayloadStage?
    decreases Measure(s, buf), 0
  {
    var step := PayloadStep(hp, s, buf);
    step.Ok? && step.value.PayloadDone? && Meets(hp, step.value.state, step.value.rest, wanted)
  }

  /** A frame that is under way was met. */
  lemma {:induction false} UnderWayIsMet<H, P>(
    hp: Hpack<H, P>, s: DecoderState<H>, buf: seq<byte>, wanted: FrameHeader -> bool)
    requires Inv(s) && Run(hp, s, buf).Ok?
    requires var t := Run(hp, s, buf).value.1; t.stage.PayloadStage? && wanted(t.header)
    ensures Meets(hp, s, buf, wanted)
    decreases Measure(s, buf)
  {
    if s.stage.HeaderStage? {
      var step := HeaderStep(s, buf).value;
      if step.HeaderDone? {
        UnderWayIsMet(hp, step.state, step.rest, wanted);
      }
    } else {
      var step := PayloadStep(hp, s, buf).value;
      if step.PayloadDone? {
        UnderWayIsMet(hp, step.state, step.rest, wanted);
      }
    }
  }

  predicate IsPriority(h: FrameHeader) {
    h.frameType == PRIORITY
  }

  /** What is not met in one call is met in neither of two. */
  lemma {:induction false} NotMetInParts<H, P>(hp: Hpack<H, P>, s: DecoderState<H>, a: seq<byte>, b: seq<byte>)
    requires Inv(s) && !Meets(hp, s, a + b, IsPriority)
    ensures !Meets(hp, s, a, IsPriority)
    ensures Run(hp, s, a).Ok? ==> !Meets(hp, Run(hp, s, a).value.1, b, IsPriority)
    decreases Measure(s, a)
  {
    StepExtends(hp, s, a, b);
    if s.stage.HeaderStage? {
      if s.offset + |a| < FRAME_HEADER_LENGTH {
        HeaderResumes(s, a, b);
      } else if HeaderStep(s, a).Ok? {
        var step := HeaderStep(s, a).value;
        NotMetInParts(hp, step.state, step.rest, b);
      }
    } else if LockViolated(s.continuations, s.header) {
    } else if s.offset + |a| < s.header.payloadLength {
      PayloadResumes(hp, s, a, b);
    } else if PayloadStep(hp, s, a).Ok? {
      var step := PayloadStep(hp, s, a).value;
      NotMetInParts(hp, step.state, step.rest, b);
    }
  }

  /** Octets that lead to no PRIORITY frame may be cut anywhere, even if decoding them fails. */
  lemma {:induction false} NotMetAnyCuts<H, P>(hp: Hpack<H, P>, s: DecoderState<H>, segments: seq<seq<byte>>)
    requires Settled(s) && !Meets(hp, s, Flatten(segments), IsPriority)
    ensures RunSegments(hp, s, segments) == Run(hp, s, Flatten(segments))
  {
    NotMetSafeCuts(hp, s, segments);
    SegmentsAreInvisible(hp, s, segments);
  }

  lemma {:induction false} NotMetSafeCuts<H, P>(hp: Hpack<H, P>, s: DecoderState<H>, segments: seq<seq<byte>>)
    requires Settled(s) && !Meets(hp, s, Flatten(segments), IsPriority)
    ensures SafeCuts(hp, s, segments)
    decreases |segments|
  {
    if |segments| > 1 && Run(hp, s, segments[0]).Ok? {
      var t := Run(hp, s, segments[0]).value.1;
      NotMetInParts(hp, s, segments[0], Flatten(segments[1..]));
      if MidPriority(t) {
        UnderWayIsMet(hp, s, segments[0], IsPriority);
      }
      NotMetSafeCuts(hp, t, segments[1..]);
    }
  }

  /** No PRIORITY frame among `items`, and none under way in `t`. */
  ghost predicate NoPriority<H, P>(items: seq<Received<P>>, t: DecoderState<H>) {
    && (forall i :: 0 <= i < |items| ==> items[i].header.frameType != PRIORITY)
    && t.header.frameType != PRIORITY
  }

  lemma NoPriorityTail<H, P>(item: Received<P>, items: seq<Received<P>>, t: DecoderState<H>)
    requires NoPriority([item] + items, t)
    ensures item.header.frameType != PRIORITY && NoPriority(items, t)
  {
    var all := [item] + items;
    assert all[0] == item && forall i :: 0 <= i < |items| ==> items[i] == all[i + 1];
  }

  lemma {:induction false} NoPriorityIsMet<H, P>(hp: Hpack<H, P>, s: DecoderState<H>, buf: seq<byte>)
    requires Inv(s) && Run(hp, s, buf).Ok? && NoPriority(Run(hp, s, buf).value.0, Run(hp, s, buf).value.1)
    ensures !Meets(hp, s, buf, IsPriority)
    decreases Measure(s, buf)
  {
    if s.stage.HeaderStage? {
      var step := HeaderStep(s, buf).value;
      if step.HeaderDone? {
        NoPriorityIsMet(hp, step.state, step.rest);
      }
    } else {
      var step := PayloadStep(hp, s, buf).value;
      if step.PayloadDone? {
        var r := Run(hp, step.state, step.rest).value;
        NoPriorityTail(step.item, r.0, r.1);
        NoPriorityIsMet(hp, step.state, step.rest);
      }
    }
  }

  /** A successful run without PRIORITY frames may be cut anywhere. */
  lemma NoPriorityAnyCuts<H, P>(hp: Hpack<H, P>, s: DecoderState<H>, segments: seq<seq<byte>>)
    requires Settled(s)
    requires var r := Run(hp, s, Flatten(segments)); r.Ok? && NoPriority(r.value.0, r.value.1)
    ensures RunSegments(hp, s, segments) == Run(hp, s, Flatten(segments))
  {
    NoPriorityIsMet(hp, s, Flatten(segments));
    NotMetAnyCuts(hp, s, segments);
  }

  /** What follows a frame that is decoded. */
  ghost predicate MeetsAfter<H, P>(
    hp: Hpack<H, P>, s: DecoderState<H>, decoded: Outcome<Decoded<H, P>>, rest: seq<byte>, wanted: FrameHeader -> bool)
    requires AtBoundary(s)
  {
    decoded.Ok? && Meets(hp, s.(hpack := decoded.value.hpack, continuations := decoded.value.continuations), rest, wanted)
  }

  lemma FrameMeets<H, P>(
    hp: Hpack<H, P>, s: DecoderState<H>, frameType: byte, flags: byte, id: nat, payload: seq<byte>, rest: seq<byte>,
    wanted: FrameHeader -> bool)
    requires AtBoundary(s) && |payload| <= s.maxFrameSize && id < 0x8000_0000
    ensures var h := FrameHeader(id, flags, frameType, |payload|);
            Meets(hp, s, HeaderBytes(|payload|, frameType, flags, id) + (payload + rest), wanted) <==>
            && !LockViolated(s.continuations, h)
            && (wanted(h)
                || MeetsAfter(hp, s, DecodeFrame(hp, h, s.continuations, s.hpack, |payload|, payload), rest, wanted))
  {
    HeaderStepIs(s, frameType, flags, id, |payload|, payload + rest);
    var t := s.(header := FrameHeader(id, flags, frameType, |payload|), stage := PayloadStage);
    PayloadMeets(hp, s, t, payload, rest, wanted);
  }

  /** The same, behind the header. */
  lemma PayloadMeets<H, P>(
    hp: Hpack<H, P>, s: DecoderState<H>, t: DecoderState<H>, payload: seq<byte>, rest: seq<byte>,
    wanted: FrameHeader -> bool)
    requires AtBoundary(s) && t == s.(header := t.header, stage := PayloadStage) && t.header.payloadLength == |payload|
    ensures MeetsBehind(hp, t, payload + rest, wanted) <==>
            && !LockViolated(t.continuations, t.header)
            && MeetsAfter(hp, s, DecodeFrame(hp, t.header, t.continuations, t.hpack, |payload|, payload), rest, wanted)
  {
    assert (payload + rest)[..|payload|] == payload && t.buffer + payload == payload;
    assert (payload + rest)[|payload|..] == rest;
    var decoded := DecodeFrame(hp, t.header, t.continuations, t.hpack, |payload|, payload);
    if !LockViolated(t.continuations, t.header) && decoded.Ok? {
      assert PayloadStep(hp, t, payload + rest)
             == Ok(PayloadDone(s.(hpack := decoded.value.hpack, continuations := decoded.value.continuations), rest,
                               Received(t.header, payload, decoded.value.kind)));
    }
  }

  lemma NothingMet<H, P>(hp: Hpack<H, P>, s: DecoderState<H>, wanted: FrameHeader -> bool)
    requires AtBoundary(s)
    ensures !Meets(hp, s, [], wanted)
  {
  }

  // ---------------------------------------------------------------------------
  // Panics.
  // ---------------------------------------------------------------------------

  ghost predicate NeverPanics<H(!new), P>(hp: Hpack<H, P>) {
    (forall h, a :: hp.decode(h, a) != Panic) && (forall h :: hp.finish(h) != Panic)
  }

  /** The pad length of an empty payload is read. */
  predicate EmptyPadded(h: FrameHeader) {
    h.frameType in {HEADERS, PUSH_PROMISE} && IsPadded(h.flags) && h.payloadLength == 0 && h.streamId != 0
  }

  lemma FramePanicsIff<H(!new), P>(
    hp: Hpack<H, P>, h: FrameHeader, c: Continuations, hpack: H, n: nat, p: seq<byte>)
    requires NeverPanics(hp) && |p| == h.payloadLength
    ensures DecodeFrame(hp, h, c, hpack, n, p).Panic? <==> EmptyPadded(h)
  {
    if h.frameType == SETTINGS && |p| % 6 == 0 {
      SettingsNeverPanic(p);
    }
  }

  lemma {:induction false} SettingsNeverPanic(p: seq<byte>)
    requires |p| % 6 == 0
    ensures !ParseSettings(p).Panic?
  {
    if p != [] {
      SettingsNeverPanic(p[6..]);
    }
  }

  /** Decoding panics if and only if it gets to an empty PADDED frame of HEADERS or PUSH_PROMISE on a stream. */
  lemma {:induction false} PanicsIff<H(!new), P>(hp: Hpack<H, P>, s: DecoderState<H>, buf: seq<byte>)
    requires NeverPanics(hp) && Inv(s)
    ensures Run(hp, s, buf).Panic? <==> Meets(hp, s, buf, EmptyPadded)
    decreases Measure(s, buf)
  {
    if s.stage.HeaderStage? {
      var step := HeaderStep(s, buf);
      if step.Ok? && step.value.HeaderDone? {
        PanicsIff(hp, step.value.state, step.value.rest);
      }
    } else if !LockViolated(s.continuations, s.header) && s.header.payloadLength - s.offset <= |buf| {
      var end := s.header.payloadLength - s.offset;
      FramePanicsIff(hp, s.header, s.continuations, s.hpack, end, s.buffer + buf[..end]);
      var step := PayloadStep(hp, s, buf);
      if step.Ok? {
        PanicsIff(hp, step.value.state, step.value.rest);
      }
    }
  }

  /** Nine octets are enough, for every HPACK. */
  lemma NineOctetsPanic<H, P>(hp: Hpack<H, P>, hpack: H, id: nat)
    requires 0 < id < 0x8000_0000
    ensures Run(hp, Initial(hpack), HeaderBytes(0, HEADERS, 8, id)) == Panic
  {
    FrameDecodes(hp, Initial(hpack), HEADERS, 8, id, [], []);
    assert HeaderBytes(0, HEADERS, 8, id) + ([] + []) == HeaderBytes(0, HEADERS, 8, id);
  }

  /** A first segment that ends inside a PRIORITY payload. */
  lemma SomeCutShows<H, P>(hp: Hpack<H, P>, hpack: H, b: byte)
    ensures var r := Run(hp, Initial(hpack), HeaderBytes(5, PRIORITY, 0, 1) + [b]);
            r.Ok? && CutsPriority(Initial(hpack), r.value.1)
  {
    var head := HeaderBytes(5, PRIORITY, 0, 1);
    var wire := head + [b];
    HeaderParses(5, PRIORITY, 0, 1);
    assert wire[..9] == head && [] + wire[..9] == head && wire[9..] == [b];
  }
}
