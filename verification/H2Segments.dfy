/**
 * Cutting the input of the HTTP/2 frame decoder into segments.
 *
 * Two calls on `a` and `b` do what one call on `a + b` does, except that the first cut
 * inside the payload of a PRIORITY frame turns that frame into an error.
 */
module H2Segments {
  import opened Octets
  import opened H2Frame
  import opened H2Decoder

  type RunResult<H, P> = Outcome<(seq<Received<P>>, DecoderState<H>)>

  /** The caller hands over `b` after a first call that ended in `first`. */
  ghost function Then<H, P>(hp: Hpack<H, P>, first: RunResult<H, P>, b: seq<byte>): RunResult<H, P>
    requires first.Ok? ==> Inv(first.value.1)
  {
    if first.Ok? then Prepend(first.value.0, Run(hp, first.value.1, b)) else first
  }

  /** One call for each segment, up to the first failure. */
  ghost function RunSegments<H, P>(hp: Hpack<H, P>, s: DecoderState<H>, segments: seq<seq<byte>>): RunResult<H, P>
    requires Inv(s)
    decreases |segments|
  {
    if segments == [] then Ok(([], s)) else
    var first := Run(hp, s, segments[0]);
    if first.Ok? then Prepend(first.value.0, RunSegments(hp, first.value.1, segments[1..])) else first
  }

  /** A well-formed PRIORITY frame whose payload has begun but not ended. */
  predicate MidPriority<H>(s: DecoderState<H>) {
    && s.stage.PayloadStage?
    && s.offset > 0
    && s.header.frameType == PRIORITY
    && s.header.payloadLength == 5
    && s.header.streamId != 0
  }

  /** A call that takes `s` to `t` stops inside the payload of a PRIORITY frame that was not cut before. */
  predicate CutsPriority<H>(s: DecoderState<H>, t: DecoderState<H>) {
    MidPriority(t) && !MidPriority(s)
  }

  /** No segment but the last ends inside the payload of a PRIORITY frame that was not cut before. */
  ghost predicate SafeCuts<H, P>(hp: Hpack<H, P>, s: DecoderState<H>, segments: seq<seq<byte>>)
    requires Inv(s)
    decreases |segments|
  {
    |segments| > 1 && Run(hp, s, segments[0]).Ok? ==>
      && !CutsPriority(s, Run(hp, s, segments[0]).value.1)
      && SafeCuts(hp, Run(hp, s, segments[0]).value.1, segments[1..])
  }

  /** What is cut off behind `a`, with what was kept before in front. */
  lemma Rejoined(kept: seq<byte>, a: seq<byte>, b: seq<byte>, end: nat)
    requires |a| <= end <= |a| + |b|
    ensures kept + (a + b)[..end] == kept + a + b[..end - |a|] && (a + b)[end..] == b[end - |a|..]
  {
    assert (a + b)[..end] == a + b[..end - |a|];
    assert kept + (a + b[..end - |a|]) == kept + a + b[..end - |a|];
  }

  lemma HeaderResumes<H>(s: DecoderState<H>, a: seq<byte>, b: seq<byte>)
    requires Inv(s) && s.stage.HeaderStage? && s.offset + |a| < FRAME_HEADER_LENGTH
    ensures HeaderStep(s, a + b) == HeaderStep(Keep(s, a), b)
  {
    var pos := FRAME_HEADER_LENGTH - s.offset;
    assert s.buffer + (a + b) == s.buffer + a + b;
    if pos <= |a + b| {
      Rejoined(s.buffer, a, b, pos);
    }
  }

  /** Only a PRIORITY frame is decoded differently when its last fragment has another length. */
  lemma LastFragment<H, P>(
    hp: Hpack<H, P>, h: FrameHeader, c: Continuations, hpack: H, m: nat, n: nat, p: seq<byte>)
    requires |p| == h.payloadLength
    requires h.frameType != PRIORITY || |p| != 5 || h.streamId == 0 || m == n
    ensures DecodeFrame(hp, h, c, hpack, m, p) == DecodeFrame(hp, h, c, hpack, n, p)
  {
  }

  lemma PayloadStillShort<H, P>(hp: Hpack<H, P>, s: DecoderState<H>, a: seq<byte>, b: seq<byte>)
    requires Inv(s) && s.stage.PayloadStage? && s.offset + |a| + |b| < s.header.payloadLength
    ensures PayloadStep(hp, s, a + b) == PayloadStep(hp, Keep(s, a), b)
  {
    assert s.buffer + (a + b) == s.buffer + a + b;
  }

  lemma PayloadResumes<H, P>(hp: Hpack<H, P>, s: DecoderState<H>, a: seq<byte>, b: seq<byte>)
    requires Inv(s) && s.stage.PayloadStage? && s.offset + |a| < s.header.payloadLength
    requires !MidPriority(Keep(s, a))
    ensures PayloadStep(hp, s, a + b) == PayloadStep(hp, Keep(s, a), b)
  {
    if s.offset + |a| + |b| < s.header.payloadLength {
      PayloadStillShort(hp, s, a, b);
    } else {
      var end := s.header.payloadLength - s.offset;
      Rejoined(s.buffer, a, b, end);
      LastFragment(hp, s.header, s.continuations, s.hpack, end, end - |a|, s.buffer + (a + b)[..end]);
    }
  }

  /** A step that finishes on `a` does not look at what follows. */
  lemma StepExtends<H, P>(hp: Hpack<H, P>, s: DecoderState<H>, a: seq<byte>, b: seq<byte>)
    requires Inv(s)
    ensures s.stage.HeaderStage? && s.offset + |a| >= FRAME_HEADER_LENGTH ==>
              match HeaderStep(s, a)
              case Ok(step) => HeaderStep(s, a + b) == Ok(step.(rest := step.rest + b))
              case _ => HeaderStep(s, a + b) == HeaderStep(s, a)
    ensures s.stage.PayloadStage? && s.offset + |a| >= s.header.payloadLength ==>
              match PayloadStep(hp, s, a)
              case Ok(step) => PayloadStep(hp, s, a + b) == Ok(step.(rest := step.rest + b))
              case _ => PayloadStep(hp, s, a + b) == PayloadStep(hp, s, a)
  {
    var n := (if s.stage.HeaderStage? then FRAME_HEADER_LENGTH else s.header.payloadLength) - s.offset;
    if n <= |a| {
      assert (a + b)[..n] == a[..n] && (a + b)[n..] == a[n..] + b;
    }
  }

  /** A PRIORITY payload that was cut is refused, wherever else it is cut. */
  lemma AlreadyCut<H, P>(hp: Hpack<H, P>, s: DecoderState<H>, a: seq<byte>, b: seq<byte>)
    requires Inv(s) && MidPriority(s)
    ensures Run(hp, s, a + b) == Then(hp, Run(hp, s, a), b)
  {
    StepExtends(hp, s, a, b);
    if !LockViolated(s.continuations, s.header) && s.offset + |a| < s.header.payloadLength {
      if s.offset + |a| + |b| < s.header.payloadLength {
        PayloadStillShort(hp, s, a, b);
      }
      PrependTwice([], [], Run(hp, Keep(s, a), b));
    }
  }

  /** Two calls do what one call does, unless the first one stops inside a PRIORITY payload that was not cut before. */
  lemma {:induction false} CutIsInvisible<H, P>(hp: Hpack<H, P>, s: DecoderState<H>, a: seq<byte>, b: seq<byte>)
    requires Inv(s)
    requires Run(hp, s, a).Ok? ==> !CutsPriority(s, Run(hp, s, a).value.1)
    ensures Run(hp, s, a + b) == Then(hp, Run(hp, s, a), b)
    decreases Measure(s, a)
  {
    StepExtends(hp, s, a, b);
    if MidPriority(s) {
      AlreadyCut(hp, s, a, b);
    } else if s.stage.HeaderStage? {
      if s.offset + |a| < FRAME_HEADER_LENGTH {
        HeaderResumes(s, a, b);
        PrependTwice([], [], Run(hp, Keep(s, a), b));
      } else if HeaderStep(s, a).Ok? {
        var step := HeaderStep(s, a).value;
        CutIsInvisible(hp, step.state, step.rest, b);
      }
    } else if LockViolated(s.continuations, s.header) {
    } else if s.offset + |a| < s.header.payloadLength {
      PayloadResumes(hp, s, a, b);
      PrependTwice([], [], Run(hp, Keep(s, a), b));
    } else if PayloadStep(hp, s, a).Ok? {
      var step := PayloadStep(hp, s, a).value;
      CutIsInvisible(hp, step.state, step.rest, b);
      var first := Run(hp, step.state, step.rest);
      if first.Ok? {
        PrependTwice([step.item], first.value.0, Run(hp, first.value.1, b));
      }
    }
  }

  /** A cut inside a PRIORITY payload: one call accepts the frame. */
  lemma {:induction false} JoinedPriority<H, P>(hp: Hpack<H, P>, s: DecoderState<H>, a: seq<byte>, b: seq<byte>)
    requires Inv(s) && !MidPriority(s)
    requires Run(hp, s, a).Ok? && MidPriority(Run(hp, s, a).value.1)
    requires Run(hp, s, a).value.1.offset + |b| == 5
    ensures Run(hp, s, a + b).Ok?
    decreases Measure(s, a)
  {
    StepExtends(hp, s, a, b);
    if s.stage.HeaderStage? {
      if s.offset + |a| >= FRAME_HEADER_LENGTH {
        var step := HeaderStep(s, a).value;
        JoinedPriority(hp, step.state, step.rest, b);
      }
    } else if s.offset + |a| < s.header.payloadLength {
      assert (a + b)[5..] == [];
    } else {
      var step := PayloadStep(hp, s, a).value;
      JoinedPriority(hp, step.state, step.rest, b);
    }
  }

  /** A cut inside a PRIORITY payload: the second of two calls rejects the frame. */
  lemma SplitPriority<H, P>(hp: Hpack<H, P>, s: DecoderState<H>, b: seq<byte>)
    requires Settled(s) && MidPriority(s) && s.offset + |b| == 5
    ensures Run(hp, s, b) == Err(StreamError(s.header.streamId, FrameSizeError))
  {
  }

  /** The exact condition under which a cut behind `a` can never be noticed. */
  lemma CutIsInvisibleIff<H, P>(hp: Hpack<H, P>, s: DecoderState<H>, a: seq<byte>)
    requires Settled(s)
    ensures (forall b :: Run(hp, s, a + b) == Then(hp, Run(hp, s, a), b))
            <==> !(Run(hp, s, a).Ok? && CutsPriority(s, Run(hp, s, a).value.1))
  {
    if Run(hp, s, a).Ok? && CutsPriority(s, Run(hp, s, a).value.1) {
      var t := Run(hp, s, a).value.1;
      var b: seq<byte> := seq(5 - t.offset, _ => 0);
      JoinedPriority(hp, s, a, b);
      SplitPriority(hp, t, b);
      assert Run(hp, s, a + b) != Then(hp, Run(hp, s, a), b);
    } else {
      forall b ensures Run(hp, s, a + b) == Then(hp, Run(hp, s, a), b) {
        CutIsInvisible(hp, s, a, b);
      }
    }
  }

  /** The same for any number of segments. */
  lemma {:induction false} SegmentsAreInvisible<H, P>(
    hp: Hpack<H, P>, s: DecoderState<H>, segments: seq<seq<byte>>)
    requires Settled(s) && SafeCuts(hp, s, segments)
    ensures RunSegments(hp, s, segments) == Run(hp, s, Flatten(segments))
    decreases |segments|
  {
    if segments == [] {
      assert s.buffer + [] == s.buffer;
    } else if |segments| == 1 {
      assert Flatten(segments) == segments[0] + [] == segments[0];
      var first := Run(hp, s, segments[0]);
      if first.Ok? {
        assert first.value.0 + [] == first.value.0;
      }
    } else {
      var first := Run(hp, s, segments[0]);
      CutIsInvisible(hp, s, segments[0], Flatten(segments[1..]));
      if first.Ok? {
        SegmentsAreInvisible(hp, first.value.1, segments[1..]);
      }
    }
  }
}
