/**
 * HTTP/3 streams on the wire (sections 6.2 and 7 of RFC 9114): what the numbers in front of a stream, a frame and a
 * setting mean to the decoder.
 */
module H3Format {
  import opened Octets
  import opened Varint
  import opened H3Frame
  import opened H3Stream
  import opened H3Settings
  import opened H3Decoder

  // ---------------------------------------------------------------------------
  // Unidirectional streams.
  // ---------------------------------------------------------------------------

  /** A stream that the type in front of its octets makes one of `s`. */
  lemma TypeIsRead(id: nat, b: seq<byte>, s: Stream)
    requires id / 2 % 2 == 1 && ReadVarint(b).Some?
    requires s == NewStream(id).(ty := DecodeType(ReadVarint(b).value.0), phase := PhaseOfType(s.ty))
    ensures Run(NewStream(id), b) == Run(s, b[ReadVarint(b).value.1..])
  {
    PrependTwice([], [], Run(s, b[ReadVarint(b).value.1..]));
  }

  /** A stream that does not become a control stream may be cut anywhere, also within its type. */
  lemma {:induction false} TypedAnyCuts(s: Stream, unread: seq<byte>, segments: seq<seq<byte>>)
    requires s.phase.StreamTypePhase? && segments != []
    requires var r := ReadVarint(unread + Flatten(segments)); r.Some? && r.value.0 != 0
    ensures QuietCuts(s, unread, segments)
    decreases |segments|
  {
    var u := unread + segments[0];
    assert unread + Flatten(segments) == u + Flatten(segments[1..]);
    if |segments| > 1 {
      if ReadVarint(u).Some? {
        ReadExtends(u, Flatten(segments[1..]));
        var step := Step(s, u);
        NoneAhead(step.stream, step.rest);
        if Run(s, u).Waiting? {
          NoneAheadAnyCuts(Run(s, u).stream, Run(s, u).unread, segments[1..]);
        }
      } else {
        TypedAnyCuts(s, u, segments[1..]);
      }
    }
  }

  /** What the segments of a new unidirectional stream with a type other than 0 come to. */
  lemma TypedSegments(id: nat, segments: seq<seq<byte>>)
    requires id / 2 % 2 == 1 && ReadVarint(Flatten(segments)).Some? && ReadVarint(Flatten(segments)).value.0 != 0
    ensures RunSegments(NewStream(id), [], segments) == Run(NewStream(id), Flatten(segments))
  {
    assert [] + Flatten(segments) == Flatten(segments);
    TypedAnyCuts(NewStream(id), [], segments);
    SegmentsAreInvisible(NewStream(id), [], segments);
  }

  /** Type 3 is the stream of a QPACK decoder: every octet behind the type is delivered, in its order. */
  lemma InstructionsDelivered(id: nat, segments: seq<seq<byte>>, n: nat)
    requires id / 2 % 2 == 1 && ReadVarint(Flatten(segments)) == Some((3, n))
    ensures var r, rest := RunSegments(NewStream(id), [], segments), Flatten(segments)[n..];
            && r.Waiting? && r.unread == [] && |r.events| == |rest|
            && forall i :: 0 <= i < |rest| ==> r.events[i] == InstructionOctet(rest[i])
  {
    TypedSegments(id, segments);
    TypeIsRead(id, Flatten(segments), NewStream(id).(ty := QpackDecoder, phase := QpackDecoderPhase));
  }

  /** Type 2 is the stream of a QPACK encoder, which is handed over: the decoder delivers none of it. */
  lemma EncoderStreamHandedOver(id: nat, segments: seq<seq<byte>>, n: nat)
    requires id / 2 % 2 == 1 && ReadVarint(Flatten(segments)) == Some((2, n))
    ensures RunSegments(NewStream(id), [], segments) == Failed(OpaqueQpack)
  {
    TypedSegments(id, segments);
    TypeIsRead(id, Flatten(segments), NewStream(id).(ty := QpackEncoder, phase := QpackEncoderPhase));
  }

  /** A stream of any type above 3 is dropped. */
  lemma UnknownTypesDropped(id: nat, segments: seq<seq<byte>>, t: nat, n: nat)
    requires id / 2 % 2 == 1 && ReadVarint(Flatten(segments)) == Some((t, n)) && t > 3
    ensures RunSegments(NewStream(id), [], segments) == H3Stream.Dropped
  {
    TypedSegments(id, segments);
    TypeIsRead(id, Flatten(segments), NewStream(id).(ty := Unknown, phase := DropPhase));
  }

  /** Behind its type, and behind its identifier if it is a push stream, a stream keeps both. */
  predicate Named(s: Stream) {
    !s.phase.StreamTypePhase? && !s.phase.PushIdPhase?
  }

  lemma StepKeepsName(s: Stream, u: seq<byte>)
    requires Named(s)
    ensures var r := Step(s, u);
            && (r.Go? ==> Named(r.stream) && r.stream.ty == s.ty && r.stream.pushId == s.pushId)
            && (r.Stop? && r.result.Waiting? ==>
                  Named(r.result.stream) && r.result.stream.ty == s.ty && r.result.stream.pushId == s.pushId)
  {
  }

  lemma {:induction false} RunKeepsName(s: Stream, u: seq<byte>)
    requires Named(s)
    ensures var r := Run(s, u);
            r.Waiting? ==> Named(r.stream) && r.stream.ty == s.ty && r.stream.pushId == s.pushId
    decreases |u|, Rank(s)
  {
    StepDecreases(s, u);
    StepKeepsName(s, u);
    var step := Step(s, u);
    if step.Go? {
      RunKeepsName(step.stream, step.rest);
    }
  }

  /**
   * Type 1 is a push stream: every message behind its identifier is a push message that carries it, and until the
   * identifier is there all that is said is that more is awaited.
   */
  lemma PushStreamsAreNamed(id: nat, segments: seq<seq<byte>>, n: nat, m: Message)
    requires id / 2 % 2 == 1 && ReadVarint(Flatten(segments)) == Some((1, n))
    ensures var r, named := RunSegments(NewStream(id), [], segments), ReadVarint(Flatten(segments)[n..]);
            && (named.None? ==> r.Waiting? && r.events == [] && (Identifies(m, r.stream) ==> m.WaitingMore?))
            && (named.Some? && r.Waiting? && Identifies(m, r.stream) ==> m.PushFrames? && m.pushId == named.value.0)
  {
    TypedSegments(id, segments);
    var b := Flatten(segments);
    var s := NewStream(id).(ty := Push, phase := PushIdPhase);
    TypeIsRead(id, b, s);
    var named := ReadVarint(b[n..]);
    if named.Some? {
      var t := s.(pushId := Some(named.value.0), phase := FrameTypePhase);
      PrependTwice([], [], Run(t, b[n..][named.value.1..]));
      RunKeepsName(t, b[n..][named.value.1..]);
    }
  }

  /** Until its type is there, a stream waits. */
  lemma TypeIsAwaited(id: nat, b: seq<byte>)
    requires id / 2 % 2 == 1 && ReadVarint(b).None?
    ensures Run(NewStream(id), b) == Waiting(NewStream(id), b, [])
  {
  }

  // ---------------------------------------------------------------------------
  // Frame types.
  // ---------------------------------------------------------------------------

  /** A stream in front of a frame. */
  predicate AtFrame(s: Stream) {
    && s.phase.FrameTypePhase? && s.frameType.None? && s.payloadLen.None?
    && (s.ty.Request? || s.ty.Push? || s.ty.Control?)
  }

  /**
   * DATA and HEADERS on a control stream; PUSH_PROMISE elsewhere than on a request stream; SETTINGS elsewhere than on a
   * control stream, or twice; CANCEL_PUSH elsewhere than on a control stream; and MAX_PUSH_ID.
   */
  predicate Misplaced(s: Stream, frameType: nat) {
    || (frameType in {0, 1} && s.ty.Control?)
    || (frameType == 5 && !s.ty.Request?)
    || (frameType == 4 && (!s.ty.Control? || s.streamSet))
    || (frameType == 3 && !s.ty.Control?)
    || frameType == 0xD
  }

  /** A frame is refused for its type if and only if it is misplaced; the refusal names the type. */
  lemma RefusedIffMisplaced(s: Stream, b: seq<byte>)
    requires AtFrame(s) && ReadVarint(b).Some?
    ensures var (v, n) := ReadVarint(b).value;
            && (Misplaced(s, v) ==> Run(s, b) == Failed(UnexpectedFrame(v)))
            && (!Misplaced(s, v) && n == |b| ==> Run(s, b).Waiting? && Run(s, b).events == [])
  {
    var (v, n) := ReadVarint(b).value;
    if !Misplaced(s, v) {
      var t := s.(frameType := Some(v), phase := PayloadLenPhase, streamSet := s.streamSet || v == SETTINGS);
      assert Step(s, b) == Go(t, b[n..], []);
    }
  }

  lemma HeaderIsRead(s: Stream, frameType: nat, length: nat, tail: seq<byte>, t: Stream)
    requires AtFrame(s) && !Misplaced(s, frameType) && frameType < VARINT_LIMIT && length < VARINT_LIMIT
    requires t == s.(frameType := Some(frameType), payloadLen := Some(length), phase := PhaseOfFrame(frameType),
                     streamSet := s.streamSet || frameType == 4)
    ensures Run(s, VarintBytes(frameType) + (VarintBytes(length) + tail)) == Run(t, tail)
  {
    RoundTrip(frameType, VarintBytes(length) + tail);
    RoundTrip(length, tail);
    var named := t.(payloadLen := None, phase := PayloadLenPhase);
    PrependTwice([], [], Run(named, VarintBytes(length) + tail));
    PrependTwice([], [], Run(t, tail));
  }

  /** Type 0 is DATA: its octets are delivered, and the stream goes on behind them. */
  lemma DataIsDelivered(s: Stream, data: seq<byte>, rest: seq<byte>)
    requires AtFrame(s) && !s.ty.Control? && |data| < VARINT_LIMIT
    ensures Run(s, VarintBytes(0) + (VarintBytes(|data|) + (data + rest)))
            == Prepend(seq(|data|, i requires 0 <= i < |data| => DataOctet(data[i])), Run(s, rest))
  {
    var t := s.(frameType := Some(0), payloadLen := Some(|data|), phase := DataPhase);
    HeaderIsRead(s, 0, |data|, data + rest, t);
    RestOfPayload(t, data + rest, |data|);
    assert (data + rest)[..|data|] == data && (data + rest)[|data|..] == rest && FrameDone(t) == s;
  }

  /** Types that mean nothing are skipped with their payload, on every stream. */
  lemma UnknownIsSkipped(s: Stream, frameType: nat, payload: seq<byte>, rest: seq<byte>)
    requires AtFrame(s) && frameType !in {0, 1, 3, 4, 5, 7, 0xD}
    requires frameType < VARINT_LIMIT && |payload| < VARINT_LIMIT
    ensures Run(s, VarintBytes(frameType) + (VarintBytes(|payload|) + (payload + rest))) == Run(s, rest)
  {
    var t := s.(frameType := Some(frameType), payloadLen := Some(|payload|), phase := UnknownPhase);
    HeaderIsRead(s, frameType, |payload|, payload + rest, t);
    RestOfPayload(t, payload + rest, |payload|);
    assert (payload + rest)[|payload|..] == rest && FrameDone(t) == s;
    PrependTwice([], [], Run(s, rest));
  }

  lemma IdentifierStep(t: Stream, id: nat, rest: seq<byte>)
    requires t.phase.VariablePhase? && t.frameType in {Some(3), Some(7)} && id < VARINT_LIMIT
    ensures Step(t, VarintBytes(id) + rest)
            == Go(FrameDone(t), rest,
                  [Received(if t.frameType == Some(7) then GoawayFrame(id) else CancelPushFrame(id))])
  {
    RoundTrip(id, rest);
  }

  /** Type 7 is GOAWAY, on every stream, and type 3 CANCEL_PUSH: the identifier is reported whatever the length says. */
  lemma IdentifierIsReported(s: Stream, frameType: nat, length: nat, id: nat, rest: seq<byte>)
    requires AtFrame(s) && (frameType == 7 || (frameType == 3 && s.ty.Control?))
    requires id < VARINT_LIMIT && length < VARINT_LIMIT
    ensures Run(s, VarintBytes(frameType) + (VarintBytes(length) + (VarintBytes(id) + rest)))
            == Prepend([Received(if frameType == 7 then GoawayFrame(id) else CancelPushFrame(id))], Run(s, rest))
  {
    var t := s.(frameType := Some(frameType), payloadLen := Some(length), phase := VariablePhase);
    HeaderIsRead(s, frameType, length, VarintBytes(id) + rest, t);
    IdentifierStep(t, id, rest);
    assert FrameDone(t) == s;
  }

  /** Types 1 and 5, HEADERS and PUSH_PROMISE, are where QPACK takes over. */
  lemma QpackTakesOver(s: Stream, frameType: nat, length: nat, rest: seq<byte>)
    requires AtFrame(s) && (frameType == 1 || frameType == 5) && !Misplaced(s, frameType) && length < VARINT_LIMIT
    ensures Run(s, VarintBytes(frameType) + (VarintBytes(length) + rest)) == Failed(OpaqueQpack)
  {
    HeaderIsRead(s, frameType, length, rest,
                 s.(frameType := Some(frameType), payloadLen := Some(length), phase := PhaseOfFrame(frameType)));
  }
}
