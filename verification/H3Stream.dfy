/**
 * One HTTP/3 stream as the decoder of ylong_http/src/h3/decoder.rs reads it.
 *
 * A stream is followed up to its first HEADERS or PUSH_PROMISE payload, where QPACK takes over.
 */
module H3Stream {
  import opened Octets
  import opened Varint
  import opened H3Frame

  datatype StreamType = Init | Request | Control | Push | QpackEncoder | QpackDecoder | Unknown

  datatype Phase =
    | StreamTypePhase
    | PushIdPhase
    | FrameTypePhase
    | PayloadLenPhase
    | HeadersPhase
    | DataPhase
    | SettingsPhase
    | VariablePhase
    | PushPromisePhase
    | UnknownPhase
    | QpackDecoderPhase
    | QpackEncoderPhase
    | DropPhase

  datatype Stream = Stream(
    ty: StreamType,
    phase: Phase,
    pushId: Option<nat>,
    frameType: Option<nat>,
    payloadLen: Option<nat>,
    streamSet: bool)

  /** What a caller learns. Where a DATA frame ends is not reported. */
  datatype Event =
    | DataOctet(value: byte)
    | InstructionOctet(value: byte)
    | Received(frame: Frame)

  /** A call ends when more octets are needed, when the stream is of no interest, or in an error. */
  datatype RunResult =
    | Waiting(stream: Stream, unread: seq<byte>, events: seq<Event>)
    | Dropped
    | Failed(error: H3Error)

  /** (id & 2) == 0 */
  predicate IsBidirectional(id: nat) {
    id / 2 % 2 == 0
  }

  function NewStream(id: nat): Stream {
    if IsBidirectional(id) then Stream(Request, FrameTypePhase, None, None, None, false)
    else Stream(Init, StreamTypePhase, None, None, None, false)
  }

  function DecodeType(integer: nat): StreamType {
    match integer
    case 0 => Control
    case 1 => Push
    case 2 => QpackEncoder
    case 3 => QpackDecoder
    case _ => Unknown
  }

  function PhaseOfType(ty: StreamType): Phase {
    match ty
    case Control => FrameTypePhase
    case Push => PushIdPhase
    case QpackEncoder => QpackEncoderPhase
    case QpackDecoder => QpackDecoderPhase
    case _ => DropPhase
  }

  /** Whether a frame type may occur here. */
  predicate Accepts(s: Stream, frameType: nat) {
    if frameType == DATA || frameType == HEADERS then s.ty.Request? || s.ty.Push?
    else if frameType == PUSH_PROMISE then s.ty.Request?
    else if frameType == SETTINGS then s.ty.Control? && !s.streamSet
    else if frameType == CANCEL_PUSH then s.ty.Control?
    else frameType != MAX_PUSH_ID
  }

  function PhaseOfFrame(frameType: nat): Phase {
    if frameType == DATA then DataPhase
    else if frameType == HEADERS then HeadersPhase
    else if frameType == SETTINGS then SettingsPhase
    else if frameType == PUSH_PROMISE then PushPromisePhase
    else if frameType in {GOAWAY, MAX_PUSH_ID, CANCEL_PUSH} then VariablePhase
    else UnknownPhase
  }

  function DataEvents(data: seq<byte>): seq<Event> {
    seq(|data|, i requires 0 <= i < |data| => DataOctet(data[i]))
  }

  function InstructionEvents(data: seq<byte>): seq<Event> {
    seq(|data|, i requires 0 <= i < |data| => InstructionOctet(data[i]))
  }

  function FrameDone(s: Stream): Stream {
    s.(phase := FrameTypePhase, frameType := None, payloadLen := None)
  }

  /** Known in every phase that asks for it. */
  function FrameType(s: Stream): nat {
    if s.frameType.Some? then s.frameType.value else DATA
  }

  function Length(s: Stream): nat {
    if s.payloadLen.Some? then s.payloadLen.value else 0
  }

  // ---------------------------------------------------------------------------
  // SETTINGS payloads.
  // ---------------------------------------------------------------------------

  datatype SettingsResult = Parsed(settings: Settings, consumed: nat) | Malformed(error: H3Error)

  function SetSetting(settings: Settings, key: nat, value: nat): Settings {
    if key == QPACK_MAX_TABLE_CAPACITY then settings.(qpackMaxTableCapacity := Some(value))
    else if key == ENABLE_CONNECT_PROTOCOL then settings.(connectProtocolEnabled := Some(value))
    else if key == H3_DATAGRAM then settings.(h3Datagram := Some(value))
    else if key == MAX_FIELD_SECTION_SIZE then settings.(maxFieldSectionSize := Some(value))
    else if key == QPACK_BLOCKED_STREAMS then settings.(qpackBlockedStreams := Some(value))
    else settings.(additional := Some((if settings.additional.Some? then settings.additional.value else []) + [(key, value)]))
  }

  /** A key and a value at octet `i`, and where they end. */
  function PairAt(b: seq<byte>, i: nat): (r: Option<(nat, nat, nat)>)
    requires i <= |b|
    ensures r.Some? ==> i < r.value.2 <= |b|
  {
    match ReadVarint(b[i..])
    case None => None
    case Some((key, n)) =>
      match ReadVarint(b[i + n..])
      case None => None
      case Some((value, m)) => Some((key, value, i + n + m))
  }

  /** Pairs of integers from `b[i..]` on, until `length` octets are used. The last pair may reach beyond them. */
  function ParseSettings(b: seq<byte>, i: nat, length: nat, settings: Settings): SettingsResult
    requires i <= |b|
    decreases |b| - i
  {
    if i >= length then Parsed(settings, i)
    else if PairAt(b, i).None? then Malformed(FrameSizeError(length))
    else
      var (key, value, next) := PairAt(b, i).value;
      if IsReserved(key) then Malformed(UnsupportedSetting(key))
      else ParseSettings(b, next, length, SetSetting(settings, key, value))
  }

  // ---------------------------------------------------------------------------
  // One call of `decode`.
  // ---------------------------------------------------------------------------

  datatype StepResult = Stop(result: RunResult) | Go(stream: Stream, rest: seq<byte>, events: seq<Event>)

  function Wait(s: Stream, u: seq<byte>): StepResult {
    Stop(Waiting(s, u, []))
  }

  function StreamTypeStep(s: Stream, u: seq<byte>): StepResult {
    match ReadVarint(u)
    case None => Wait(s, u)
    case Some((v, n)) =>
      Go(s.(ty := DecodeType(v), phase := PhaseOfType(DecodeType(v))), u[n..], [])
  }

  function PushIdStep(s: Stream, u: seq<byte>): StepResult {
    match ReadVarint(u)
    case None => Wait(s, u)
    case Some((v, n)) => Go(s.(pushId := Some(v), phase := FrameTypePhase), u[n..], [])
  }

  function FrameTypeStep(s: Stream, u: seq<byte>): StepResult {
    match ReadVarint(u)
    case None => Wait(s, u)
    case Some((v, n)) =>
      if !Accepts(s, v) then Stop(Failed(UnexpectedFrame(v)))
      else
        Go(s.(frameType := Some(v), phase := PayloadLenPhase, streamSet := s.streamSet || v == SETTINGS), u[n..], [])
  }

  function PayloadLenStep(s: Stream, u: seq<byte>): StepResult {
    match ReadVarint(u)
    case None => Wait(s, u)
    case Some((v, n)) =>
      Go(s.(payloadLen := Some(v), phase := PhaseOfFrame(FrameType(s))), u[n..], [])
  }

  function DataStep(s: Stream, u: seq<byte>): StepResult {
    if |u| < Length(s) then
      Stop(Waiting(s.(payloadLen := Some(Length(s) - |u|)), [], DataEvents(u)))
    else Go(FrameDone(s), u[Length(s)..], DataEvents(u[..Length(s)]))
  }

  function UnknownStep(s: Stream, u: seq<byte>): StepResult {
    if |u| < Length(s) then Stop(Waiting(s.(payloadLen := Some(Length(s) - |u|)), [], []))
    else Go(FrameDone(s), u[Length(s)..], [])
  }

  /** The payload is one integer; the announced length is not looked at. */
  function VariableStep(s: Stream, u: seq<byte>): StepResult {
    match ReadVarint(u)
    case None => Wait(s, u)
    case Some((v, n)) =>
      if s.frameType == Some(GOAWAY) then Go(FrameDone(s), u[n..], [Received(GoawayFrame(v))])
      else if s.frameType == Some(MAX_PUSH_ID) then Go(FrameDone(s), u[n..], [Received(MaxPushIdFrame(v))])
      else Go(FrameDone(s), u[n..], [Received(CancelPushFrame(v))])
  }

  /** The payload is not skipped: unless it was all there is, the next frame is looked for at its start. */
  function SettingsStep(s: Stream, u: seq<byte>): StepResult {
    if |u| < Length(s) then Wait(s, u)
    else
      match ParseSettings(u, 0, Length(s), NO_SETTINGS)
      case Malformed(error) => Stop(Failed(error))
      case Parsed(settings, consumed) =>
        Go(FrameDone(s), if consumed >= |u| then [] else u, [Received(SettingsFrame(settings))])
  }

  function Step(s: Stream, u: seq<byte>): StepResult {
    match s.phase
    case StreamTypePhase => StreamTypeStep(s, u)
    case PushIdPhase => PushIdStep(s, u)
    case FrameTypePhase => FrameTypeStep(s, u)
    case PayloadLenPhase => PayloadLenStep(s, u)
    case DataPhase => DataStep(s, u)
    case UnknownPhase => UnknownStep(s, u)
    case VariablePhase => VariableStep(s, u)
    case SettingsPhase => SettingsStep(s, u)
    case QpackDecoderPhase => Stop(Waiting(s, [], InstructionEvents(u)))
    case DropPhase => Stop(Dropped)
    case HeadersPhase => Stop(Failed(OpaqueQpack))
    case PushPromisePhase => Stop(Failed(OpaqueQpack))
    case QpackEncoderPhase => Stop(Failed(OpaqueQpack))
  }

  /** A step that reads nothing leads to one that reads. */
  function Rank(s: Stream): nat {
    if s.phase in {DataPhase, UnknownPhase, SettingsPhase} then 1 else 0
  }

  lemma StepDecreases(s: Stream, u: seq<byte>)
    ensures var r := Step(s, u); r.Go? ==> |r.rest| < |u| || (|r.rest| == |u| && Rank(r.stream) < Rank(s))
  {
  }

  function Prepend(events: seq<Event>, r: RunResult): RunResult {
    if r.Waiting? then r.(events := events + r.events) else r
  }

  /** All the frames in `u`; the octets kept from earlier calls are in front. */
  function Run(s: Stream, u: seq<byte>): RunResult
    decreases |u|, Rank(s)
  {
    var step := Step(s, u);
    StepDecreases(s, u);
    if step.Stop? then step.result else Prepend(step.events, Run(step.stream, step.rest))
  }

  lemma PrependTwice(a: seq<Event>, b: seq<Event>, r: RunResult)
    ensures Prepend([], r) == r && Prepend(a, Prepend(b, r)) == Prepend(a + b, r)
  {
    if r.Waiting? {
      assert [] + r.events == r.events && a + (b + r.events) == (a + b) + r.events;
    }
  }

  /** Nothing behind a frame: the call ends there, whether or not the loop looks once more. */
  lemma RunGo(s: Stream, u: seq<byte>)
    requires Step(s, u).Go? && Step(s, u).stream.phase.FrameTypePhase? && Step(s, u).rest == []
    ensures Run(s, u) == Waiting(Step(s, u).stream, [], Step(s, u).events)
  {
    var step := Step(s, u);
    assert step.events + [] == step.events;
  }

  // ---------------------------------------------------------------------------
  // Segments.
  // ---------------------------------------------------------------------------

  /** The caller hands over `b` after a call that ended in `first`. */
  function Then(first: RunResult, b: seq<byte>): RunResult {
    if first.Waiting? then Prepend(first.events, Run(first.stream, first.unread + b)) else first
  }

  /** All of a SETTINGS payload is in `u`. What becomes of it depends on whether more octets follow. */
  predicate CompletesSettings(s: Stream, u: seq<byte>)
    decreases |u|, Rank(s)
  {
    StepDecreases(s, u);
    || (s.phase.SettingsPhase? && Length(s) <= |u|)
    || (Step(s, u).Go? && CompletesSettings(Step(s, u).stream, Step(s, u).rest))
  }

  /** A step that goes on does not look at what follows. */
  lemma StepExtends(s: Stream, a: seq<byte>, b: seq<byte>)
    requires !(s.phase.SettingsPhase? && Length(s) <= |a|)
    ensures var r := Step(s, a);
            && (r.Go? ==> Step(s, a + b) == Go(r.stream, r.rest + b, r.events))
            && (r.Stop? && !r.result.Waiting? ==> Step(s, a + b) == r)
  {
    if ReadVarint(a).Some? {
      ReadExtends(a, b);
    }
    var n := Length(s);
    if n <= |a| {
      assert (a + b)[..n] == a[..n] && (a + b)[n..] == a[n..] + b;
    }
  }

  lemma DataEventsJoin(a: seq<byte>, b: seq<byte>)
    ensures DataEvents(a + b) == DataEvents(a) + DataEvents(b)
    ensures InstructionEvents(a + b) == InstructionEvents(a) + InstructionEvents(b)
  {
  }

  /** What is reported of a payload as it arrives. */
  function PayloadEvents(s: Stream, data: seq<byte>): seq<Event> {
    if s.phase.DataPhase? then DataEvents(data) else []
  }

  /** The part of a payload in `u`, if the payload does not end there. */
  lemma PartOfPayload(s: Stream, u: seq<byte>)
    requires (s.phase.DataPhase? || s.phase.UnknownPhase?) && |u| < Length(s)
    ensures Run(s, u) == Waiting(s.(payloadLen := Some(Length(s) - |u|)), [], PayloadEvents(s, u))
  {
  }

  lemma RestOfPayload(s: Stream, u: seq<byte>, n: nat)
    requires (s.phase.DataPhase? || s.phase.UnknownPhase?) && n == Length(s) <= |u|
    ensures Run(s, u) == Prepend(PayloadEvents(s, u[..n]), Run(FrameDone(s), u[n..]))
  {
  }

  lemma PayloadGoesOn(s: Stream, t: Stream, a: seq<byte>, b: seq<byte>)
    requires (s.phase.DataPhase? || s.phase.UnknownPhase?) && |a| + |b| < Length(s)
    requires t == s.(payloadLen := Some(Length(s) - |a|))
    ensures Run(s, a + b) == Prepend(PayloadEvents(s, a), Run(t, b))
  {
    PartOfPayload(s, a + b);
    PartOfPayload(t, b);
    DataEventsJoin(a, b);
  }

  lemma PayloadEnds(s: Stream, t: Stream, a: seq<byte>, b: seq<byte>)
    requires (s.phase.DataPhase? || s.phase.UnknownPhase?) && |a| < Length(s) <= |a| + |b|
    requires t == s.(payloadLen := Some(Length(s) - |a|))
    ensures Run(s, a + b) == Prepend(PayloadEvents(s, a), Run(t, b))
  {
    var n := Length(s) - |a|;
    RestOfPayload(s, a + b, Length(s));
    RestOfPayload(t, b, n);
    assert (a + b)[..Length(s)] == a + b[..n] && (a + b)[Length(s)..] == b[n..];
    DataEventsJoin(a, b[..n]);
    PrependTwice(PayloadEvents(s, a), PayloadEvents(s, b[..n]), Run(FrameDone(s), b[n..]));
  }

  /** A payload that is passed on as it arrives. */
  lemma PayloadResumes(s: Stream, a: seq<byte>, b: seq<byte>)
    requires (s.phase.DataPhase? || s.phase.UnknownPhase?) && |a| < Length(s)
    ensures Run(s, a + b) == Then(Run(s, a), b)
  {
    var t := s.(payloadLen := Some(Length(s) - |a|));
    PartOfPayload(s, a);
    assert [] + b == b;
    if |a| + |b| < Length(s) {
      PayloadGoesOn(s, t, a, b);
    } else {
      PayloadEnds(s, t, a, b);
    }
  }

  /** QPACK instructions are passed on as they arrive. */
  lemma InstructionsResume(s: Stream, a: seq<byte>, b: seq<byte>)
    requires s.phase.QpackDecoderPhase?
    ensures Run(s, a + b) == Then(Run(s, a), b)
  {
    DataEventsJoin(a, b);
    assert [] + b == b;
  }

  /** A step that keeps everything it was given. */
  lemma WaitResumes(s: Stream, a: seq<byte>, b: seq<byte>)
    requires Step(s, a) == Wait(s, a)
    ensures Run(s, a + b) == Then(Run(s, a), b)
  {
    PrependTwice([], [], Run(s, a + b));
  }

  /** A step that waits for more goes on as if there had been no call in between. */
  lemma StopResumes(s: Stream, a: seq<byte>, b: seq<byte>)
    requires !(s.phase.SettingsPhase? && Length(s) <= |a|) && Step(s, a).Stop?
    ensures Run(s, a + b) == Then(Run(s, a), b)
  {
    StepExtends(s, a, b);
    if Step(s, a).result.Waiting? {
      if s.phase.DataPhase? || s.phase.UnknownPhase? {
        PayloadResumes(s, a, b);
      } else if s.phase.QpackDecoderPhase? {
        InstructionsResume(s, a, b);
      } else {
        WaitResumes(s, a, b);
      }
    }
  }

  /** Two calls do what one call does, unless the first one has all of a SETTINGS payload. */
  lemma {:induction false} CutIsInvisible(s: Stream, a: seq<byte>, b: seq<byte>)
    requires !CompletesSettings(s, a)
    ensures Run(s, a + b) == Then(Run(s, a), b)
    decreases |a|, Rank(s)
  {
    StepDecreases(s, a);
    var step := Step(s, a);
    if step.Go? {
      StepExtends(s, a, b);
      CutIsInvisible(step.stream, step.rest, b);
      var first := Run(step.stream, step.rest);
      if first.Waiting? {
        PrependTwice(step.events, first.events, Run(first.stream, first.unread + b));
      }
    } else {
      StopResumes(s, a, b);
    }
  }

  /** One call for each segment, up to the first failure. */
  function RunSegments(s: Stream, unread: seq<byte>, segments: seq<seq<byte>>): RunResult
    decreases |segments|
  {
    if segments == [] then Waiting(s, unread, []) else
    var first := Run(s, unread + segments[0]);
    if first.Waiting? then Prepend(first.events, RunSegments(first.stream, first.unread, segments[1..])) else first
  }

  /** No segment ends behind all of a SETTINGS payload, unless nothing follows. */
  predicate QuietCuts(s: Stream, unread: seq<byte>, segments: seq<seq<byte>>)
    decreases |segments|
  {
    |segments| > 1 ==>
      var u := unread + segments[0];
      && (CompletesSettings(s, u) ==> Flatten(segments[1..]) == [])
      && (Run(s, u).Waiting? ==> QuietCuts(Run(s, u).stream, Run(s, u).unread, segments[1..]))
  }

  lemma StopStillWaits(s: Stream, u: seq<byte>)
    requires Step(s, u).Stop? && Step(s, u).result.Waiting?
    ensures var r := Step(s, u).result; Step(r.stream, r.unread) == Wait(r.stream, r.unread)
  {
    assert DataEvents([]) == [] && InstructionEvents([]) == [];
  }

  /** A stream that waits goes on waiting until there is something to read. */
  lemma {:induction false} StillWaits(s: Stream, u: seq<byte>)
    requires Run(s, u).Waiting?
    ensures var r := Run(s, u); Run(r.stream, r.unread) == Waiting(r.stream, r.unread, [])
    decreases |u|, Rank(s)
  {
    StepDecreases(s, u);
    if Step(s, u).Go? {
      StillWaits(Step(s, u).stream, Step(s, u).rest);
    } else {
      StopStillWaits(s, u);
    }
  }

  lemma {:induction false} EmptySegments(s: Stream, unread: seq<byte>, segments: seq<seq<byte>>)
    requires Run(s, unread) == Waiting(s, unread, []) && Flatten(segments) == []
    ensures RunSegments(s, unread, segments) == Waiting(s, unread, [])
    decreases |segments|
  {
    if segments != [] {
      assert segments[0] == [] && unread + [] == unread;
      EmptySegments(s, unread, segments[1..]);
    }
  }

  /** The same for any number of segments, of which there is at least one. */
  lemma {:induction false} SegmentsAreInvisible(s: Stream, unread: seq<byte>, segments: seq<seq<byte>>)
    requires QuietCuts(s, unread, segments) && segments != []
    ensures RunSegments(s, unread, segments) == Run(s, unread + Flatten(segments))
    decreases |segments|
  {
    var u := unread + segments[0];
    var first := Run(s, u);
    var rest := Flatten(segments[1..]);
    assert unread + Flatten(segments) == u + rest;
    if rest == [] {
      assert u + rest == u;
      if first.Waiting? {
        StillWaits(s, u);
        EmptySegments(first.stream, first.unread, segments[1..]);
        assert first.events + [] == first.events;
      }
    } else {
      CutIsInvisible(s, u, rest);
      if first.Waiting? {
        SegmentsAreInvisible(first.stream, first.unread, segments[1..]);
      }
    }
  }

  // ---------------------------------------------------------------------------
  // Streams on which no SETTINGS frame can come.
  // ---------------------------------------------------------------------------

  /** A SETTINGS frame has begun and was not reported yet. */
  predicate SettingsUnderWay(s: Stream) {
    s.phase.SettingsPhase? || (s.phase.PayloadLenPhase? && s.frameType == Some(SETTINGS))
  }

  /** A SETTINGS frame is under way, or would be accepted. */
  predicate SettingsAhead(s: Stream) {
    SettingsUnderWay(s) || (!s.streamSet && (s.phase.StreamTypePhase? || s.ty.Control?))
  }

  lemma StepKeepsNoneAhead(s: Stream, u: seq<byte>)
    requires !SettingsAhead(s)
    ensures Step(s, u).Go? ==> !SettingsAhead(Step(s, u).stream)
  {
  }

  lemma WaitKeepsNoneAhead(s: Stream, u: seq<byte>)
    requires !SettingsAhead(s)
    ensures Step(s, u).Stop? && Step(s, u).result.Waiting? ==> !SettingsAhead(Step(s, u).result.stream)
  {
  }

  lemma {:induction false} NoneAhead(s: Stream, u: seq<byte>)
    requires !SettingsAhead(s)
    ensures !CompletesSettings(s, u) && (Run(s, u).Waiting? ==> !SettingsAhead(Run(s, u).stream))
    decreases |u|, Rank(s)
  {
    StepDecreases(s, u);
    StepKeepsNoneAhead(s, u);
    WaitKeepsNoneAhead(s, u);
    if Step(s, u).Go? {
      NoneAhead(Step(s, u).stream, Step(s, u).rest);
    }
  }

  /** Such streams may be cut anywhere: request and push streams, and the control stream once it is set. */
  lemma {:induction false} NoneAheadAnyCuts(s: Stream, unread: seq<byte>, segments: seq<seq<byte>>)
    requires !SettingsAhead(s)
    ensures QuietCuts(s, unread, segments)
    decreases |segments|
  {
    if |segments| > 1 {
      NoneAhead(s, unread + segments[0]);
      var first := Run(s, unread + segments[0]);
      if first.Waiting? {
        NoneAheadAnyCuts(first.stream, first.unread, segments[1..]);
      }
    }
  }

  /** A SETTINGS frame with one setting, in front of `rest`. */
  lemma OneSetting(s: Stream, rest: seq<byte>)
    requires s.phase.FrameTypePhase? && s.ty.Control? && !s.streamSet
    ensures var done := s.(streamSet := true, frameType := None, payloadLen := None);
            Run(s, [4, 2, 1, 0] + rest)
            == Prepend([Received(SettingsFrame(NO_SETTINGS.(qpackMaxTableCapacity := Some(0))))],
                       Run(done, if rest == [] then [] else [1, 0] + rest))
  {
    var named := s.(frameType := Some(SETTINGS), phase := PayloadLenPhase, streamSet := true);
    var before := named.(payloadLen := Some(2), phase := SettingsPhase);
    SmallVarint(4, [2, 1, 0] + rest);
    assert [4] + ([2, 1, 0] + rest) == [4, 2, 1, 0] + rest;
    assert Step(s, [4, 2, 1, 0] + rest) == Go(named, [2, 1, 0] + rest, []);
    SmallVarint(2, [1, 0] + rest);
    assert [2] + ([1, 0] + rest) == [2, 1, 0] + rest;
    assert Step(named, [2, 1, 0] + rest) == Go(before, [1, 0] + rest, []);
    OneSettingParses(rest);
    PrependTwice([], [], Run(before, [1, 0] + rest));
  }

  lemma OneSettingParses(rest: seq<byte>)
    ensures ParseSettings([1, 0] + rest, 0, 2, NO_SETTINGS)
            == Parsed(NO_SETTINGS.(qpackMaxTableCapacity := Some(0)), 2)
  {
    var b := [1, 0] + rest;
    SmallVarint(1, [0] + rest);
    SmallVarint(0, rest);
    assert b[0..] == [1] + ([0] + rest) && b[1..] == [0] + rest;
    assert PairAt(b, 0) == Some((1, 0, 2));
  }

  lemma Refuses(s: Stream, b: byte, rest: seq<byte>)
    requires s.phase.FrameTypePhase? && b < 64 && !Accepts(s, b)
    ensures Run(s, [b] + rest) == Failed(UnexpectedFrame(b))
  {
    SmallVarint(b, rest);
  }

  /** A cut between a SETTINGS frame and an octet behind it: two calls. */
  lemma CutBehindSettings(s: Stream)
    requires s.phase.FrameTypePhase? && s.ty.Control? && !s.streamSet
    ensures Run(s, [4, 2, 1, 0]).Waiting? && Then(Run(s, [4, 2, 1, 0]), [4]) == Failed(UnexpectedFrame(4))
  {
    var done := s.(streamSet := true, frameType := None, payloadLen := None);
    OneSetting(s, []);
    assert [4, 2, 1, 0] + [] == [4, 2, 1, 0];
    assert Run(done, []) == Waiting(done, [], []);
    Refuses(done, 4, []);
    assert [] + [4] == [4] + [];
  }

  /** The same octets in one call. */
  lemma NoCutBehindSettings(s: Stream)
    requires s.phase.FrameTypePhase? && s.ty.Control? && !s.streamSet
    ensures Run(s, [4, 2, 1, 0, 4]) == Failed(UnexpectedFrame(1))
  {
    OneSetting(s, [4]);
    assert [4, 2, 1, 0] + [4] == [4, 2, 1, 0, 4];
    Refuses(s.(streamSet := true, frameType := None, payloadLen := None), 1, [0, 4]);
    assert [1] + [0, 4] == [1, 0] + [4];
  }

  lemma ControlBegins(s: Stream, u: seq<byte>)
    requires s.phase.StreamTypePhase?
    ensures Run(s, [0] + u) == Run(s.(ty := Control, phase := FrameTypePhase), u)
  {
    SmallVarint(0, u);
    PrependTwice([], [], Run(s.(ty := Control, phase := FrameTypePhase), u));
  }

  lemma SomeCutShows(s: Stream) returns (a: seq<byte>, b: seq<byte>)
    requires (s.phase.StreamTypePhase? || s.phase.FrameTypePhase?) && SettingsAhead(s)
    ensures Run(s, a + b) != Then(Run(s, a), b)
  {
    a, b := [4, 2, 1, 0], [4];
    assert a + b == [4, 2, 1, 0, 4];
    var t := if s.phase.StreamTypePhase? then s.(ty := Control, phase := FrameTypePhase) else s;
    CutBehindSettings(t);
    NoCutBehindSettings(t);
    if s.phase.StreamTypePhase? {
      ControlBegins(s, a);
      ControlBegins(s, a + b);
      assert ([0] + a) + b == [0] + (a + b);
      a := [0] + a;
    }
  }

  /** The exclusion is exact: on any other stream that waits for its type or for a frame, some cut is noticed. */
  lemma CutsAreInvisibleIff(s: Stream)
    requires s.phase.StreamTypePhase? || s.phase.FrameTypePhase?
    ensures (forall a, b :: Run(s, a + b) == Then(Run(s, a), b)) <==> !SettingsAhead(s)
  {
    if SettingsAhead(s) {
      var a, b := SomeCutShows(s);
    } else {
      forall a, b ensures Run(s, a + b) == Then(Run(s, a), b) {
        NoneAhead(s, a);
        CutIsInvisible(s, a, b);
      }
    }
  }
}
