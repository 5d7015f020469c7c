/** The HTTP/3 stream decoder of ylong_http/src/h3/decoder.rs, proved against `H3Stream.Run`. */
module H3Decoder {
  import opened Octets
  import opened Varint
  import opened H3Frame
  import opened H3Stream
  import opened H3Streams

  datatype PartResult = ReturnOuter | Continue | Error(error: H3Error)

  datatype Message =
    | RequestFrames(frames: seq<FrameKind>)
    | ControlFrames(frames: seq<FrameKind>)
    | PushFrames(pushId: nat, frames: seq<FrameKind>)
    | Instructions(bytes: seq<byte>)
    | UnknownStream
    | WaitingMore
    | DecodeError(error: H3Error)

  function EventsOf(kind: FrameKind): seq<Event> {
    match kind
    case Partial => []
    case Complete(DataFrame(data)) => DataEvents(data)
    case Complete(frame) => [Received(frame)]
  }

  function EventsOfAll(frames: seq<FrameKind>): seq<Event> {
    if frames == [] then [] else EventsOf(frames[0]) + EventsOfAll(frames[1..])
  }

  lemma {:induction false} EventsOfJoin(a: seq<FrameKind>, b: seq<FrameKind>)
    ensures EventsOfAll(a + b) == EventsOfAll(a) + EventsOfAll(b)
  {
    if a == [] {
      assert a + b == b;
    } else {
      assert (a + b)[1..] == a[1..] + b;
      EventsOfJoin(a[1..], b);
    }
  }

  lemma EventsOfFew(x: FrameKind, y: FrameKind)
    ensures EventsOfAll([x]) == EventsOf(x) && EventsOfAll([x, y]) == EventsOf(x) + EventsOf(y)
  {
    assert [x][1..] == [] && [x, y][1..] == [y] && [y][1..] == [];
    assert EventsOf(y) + [] == EventsOf(y) && EventsOf(x) + [] == EventsOf(x);
  }

  /** Phase, type and the fields they need fit together. */
  predicate WellTyped(s: Stream) {
    && (s.phase.StreamTypePhase? <==> s.ty.Init?)
    && (s.phase.QpackDecoderPhase? <==> s.ty.QpackDecoder?)
    && (s.phase.QpackEncoderPhase? <==> s.ty.QpackEncoder?)
    && (s.phase.DropPhase? <==> s.ty.Unknown?)
    && (s.phase.PushIdPhase? ==> s.ty.Push?)
    && (s.ty.Push? && !s.phase.PushIdPhase? ==> s.pushId.Some?)
    && (s.phase in {PayloadLenPhase, VariablePhase} ==> s.frameType.Some?)
    && (s.phase in {DataPhase, UnknownPhase, SettingsPhase} ==> s.payloadLen.Some?)
    && (s.phase.VariablePhase? ==> s.frameType.value in {GOAWAY, CANCEL_PUSH})
    && (s.phase.PayloadLenPhase? ==> s.frameType.value != MAX_PUSH_ID)
  }

  /** What a step did: `frames` are its reports, `t` and `u` the stream behind it. */
  ghost predicate Explains(
    before: Stream, unread: seq<byte>, r: PartResult, frames: seq<FrameKind>, t: Stream, u: seq<byte>)
  {
    match r
    case Error(e) => Step(before, unread) == Stop(Failed(e))
    case Continue => Step(before, unread) == Go(t, u, EventsOfAll(frames))
    case ReturnOuter =>
      || Step(before, unread) == Stop(Waiting(t, u, EventsOfAll(frames)))
      || (Step(before, unread) == Go(t, u, EventsOfAll(frames)) && t.phase.FrameTypePhase? && u == [])
  }

  lemma GoWellTyped(s: Stream, u: seq<byte>)
    requires WellTyped(s)
    ensures Step(s, u).Go? ==> WellTyped(Step(s, u).stream)
  {
  }

  lemma StepWellTyped(s: Stream, u: seq<byte>)
    requires WellTyped(s)
    ensures var r := Step(s, u);
            && (r.Go? ==> WellTyped(r.stream))
            && (r.Stop? && r.result.Waiting? ==> WellTyped(r.result.stream))
  {
    GoWellTyped(s, u);
  }

  predicate Framing(phase: Phase) {
    && !phase.HeadersPhase? && !phase.PushPromisePhase? && !phase.QpackDecoderPhase?
    && !phase.QpackEncoderPhase? && !phase.DropPhase?
  }

  /** What a message tells about a stream that waits for more: its type, or that it is not known yet. */
  predicate Identifies(m: Message, s: Stream) {
    && (m.WaitingMore? || m.RequestFrames? || m.ControlFrames? || m.PushFrames?)
    && (m.WaitingMore? <==> s.phase.StreamTypePhase? || s.phase.PushIdPhase?)
    && (m.RequestFrames? <==> s.ty.Request?)
    && (m.ControlFrames? <==> s.ty.Control?)
    && (m.PushFrames? <==> s.ty.Push? && !s.phase.PushIdPhase?)
    && (m.PushFrames? ==> s.pushId == Some(m.pushId))
  }

  function FramesOf(m: Message): seq<FrameKind> {
    if m.RequestFrames? || m.ControlFrames? || m.PushFrames? then m.frames else []
  }

  lemma {:induction false} RunWellTyped(s: Stream, u: seq<byte>)
    requires WellTyped(s)
    ensures Run(s, u).Waiting? ==> WellTyped(Run(s, u).stream)
    decreases |u|, Rank(s)
  {
    StepDecreases(s, u);
    StepWellTyped(s, u);
    var step := Step(s, u);
    if step.Go? {
      RunWellTyped(step.stream, step.rest);
    }
  }

  class DecodedStream {
    var ty: StreamType
    var phase: Phase
    var buffer: seq<byte>
    var offset: nat
    var pushId: Option<nat>
    var frameType: Option<nat>
    var payloadLen: Option<nat>
    var streamSet: bool

    function State(): Stream
      reads this
    {
      Stream(ty, phase, pushId, frameType, payloadLen, streamSet)
    }

    function Unread(): seq<byte>
      requires offset <= |buffer|
      reads this
    {
      buffer[offset..]
    }

    constructor (s: Stream, buffer: seq<byte>, offset: nat)
      requires offset <= |buffer|
      ensures State() == s && this.buffer == buffer && this.offset == offset
    {
      ty, phase, pushId, frameType, payloadLen, streamSet := s.ty, s.phase, s.pushId, s.frameType, s.payloadLen, s.streamSet;
      this.buffer, this.offset := buffer, offset;
    }

    method ClearBuffer()
      modifies this`buffer, this`offset
      ensures offset <= |buffer| && Unread() == []
    {
      buffer := [];
      offset := 0;
    }

    method ClearFrame()
      modifies this`frameType, this`payloadLen
      ensures frameType.None? && payloadLen.None?
    {
      frameType := None;
      payloadLen := None;
    }

    /** The integer at the start of what is unread. */
    method ReadInteger() returns (integer: Option<nat>, n: nat)
      requires offset <= |buffer|
      ensures ReadVarint(Unread()) == if integer.Some? then Some((integer.value, n)) else None
      ensures integer.Some? ==> offset + n <= |buffer| && buffer[offset + n..] == Unread()[n..]
    {
      var reader := new ReadableBytes(buffer[offset..]);
      integer := reader.GetVarint();
      n := reader.idx;
      assert reader.buf[0..] == reader.buf;
      if integer.Some? {
        assert buffer[offset + n..] == buffer[offset..][n..];
      }
    }

    method DecodeStreamType() returns (r: PartResult, frames: seq<FrameKind>)
      requires offset <= |buffer| && WellTyped(State()) && phase.StreamTypePhase?
      modifies this
      ensures offset <= |buffer| && Explains(old(State()), old(Unread()), r, frames, State(), Unread())
    {
      frames := [];
      var integer, n := ReadInteger();
      if integer.None? {
        return ReturnOuter, frames;
      }
      offset := offset + n;
      ty := DecodeType(integer.value);
      phase := PhaseOfType(ty);
      return Continue, frames;
    }

    method DecodePushId() returns (r: PartResult, frames: seq<FrameKind>)
      requires offset <= |buffer| && WellTyped(State()) && phase.PushIdPhase?
      modifies this
      ensures offset <= |buffer| && Explains(old(State()), old(Unread()), r, frames, State(), Unread())
    {
      frames := [];
      var integer, n := ReadInteger();
      if integer.None? {
        return ReturnOuter, frames;
      }
      pushId := integer;
      offset := offset + n;
      phase := FrameTypePhase;
      return Continue, frames;
    }

    method DecodeFrameType() returns (r: PartResult, frames: seq<FrameKind>)
      requires offset <= |buffer| && WellTyped(State()) && phase.FrameTypePhase?
      modifies this
      ensures offset <= |buffer| && Explains(old(State()), old(Unread()), r, frames, State(), Unread())
    {
      frames := [];
      var integer, n := ReadInteger();
      if integer.None? {
        frames := [Partial];
        EventsOfFew(Partial, Partial);
        return ReturnOuter, frames;
      }
      if !Accepts(State(), integer.value) {
        return Error(UnexpectedFrame(integer.value)), frames;
      }
      if integer.value == SETTINGS {
        streamSet := true;
      }
      frameType := integer;
      offset := offset + n;
      phase := PayloadLenPhase;
      return Continue, frames;
    }

    method DecodePayloadLen() returns (r: PartResult, frames: seq<FrameKind>)
      requires offset <= |buffer| && WellTyped(State()) && phase.PayloadLenPhase?
      modifies this
      ensures offset <= |buffer| && Explains(old(State()), old(Unread()), r, frames, State(), Unread())
    {
      frames := [];
      var integer, n := ReadInteger();
      if integer.None? {
        frames := [Partial];
        EventsOfFew(Partial, Partial);
        return ReturnOuter, frames;
      }
      payloadLen := integer;
      offset := offset + n;
      phase := PhaseOfFrame(frameType.value);
      return Continue, frames;
    }

    /** The frame ends `n` octets further on; if nothing follows it, the call ends too. */
    method FinishFrame(n: nat) returns (r: PartResult)
      requires offset + n <= |buffer|
      modifies this
      ensures offset <= |buffer| && State() == FrameDone(old(State())) && Unread() == old(Unread())[n..]
      ensures r == if old(Unread())[n..] == [] then ReturnOuter else Continue
    {
      assert buffer[offset + n..] == buffer[offset..][n..];
      offset := offset + n;
      ClearFrame();
      phase := FrameTypePhase;
      if offset == |buffer| {
        ClearBuffer();
        return ReturnOuter;
      }
      return Continue;
    }

    method DecodeDataPayload() returns (r: PartResult, frames: seq<FrameKind>)
      requires offset <= |buffer| && WellTyped(State()) && phase.DataPhase?
      modifies this
      ensures offset <= |buffer| && Explains(old(State()), old(Unread()), r, frames, State(), Unread())
    {
      var u := buffer[offset..];
      var length := payloadLen.value;
      if |u| < length {
        payloadLen := Some(length - |u|);
        ClearBuffer();
        frames := [Complete(DataFrame(u)), Partial];
        EventsOfFew(Complete(DataFrame(u)), Partial);
        assert DataEvents(u) + [] == DataEvents(u);
        return ReturnOuter, frames;
      }
      frames := [Complete(DataFrame(u[..length]))];
      EventsOfFew(frames[0], Partial);
      r := FinishFrame(length);
    }

    method DecodeUnknownPayload() returns (r: PartResult, frames: seq<FrameKind>)
      requires offset <= |buffer| && WellTyped(State()) && phase.UnknownPhase?
      modifies this
      ensures offset <= |buffer| && Explains(old(State()), old(Unread()), r, frames, State(), Unread())
    {
      frames := [];
      var u := buffer[offset..];
      var length := payloadLen.value;
      if |u| < length {
        ClearBuffer();
        payloadLen := Some(length - |u|);
        frames := [Partial];
        EventsOfFew(Partial, Partial);
        return ReturnOuter, frames;
      }
      r := FinishFrame(length);
    }

    method DecodeVariablePayload() returns (r: PartResult, frames: seq<FrameKind>)
      requires offset <= |buffer| && WellTyped(State()) && phase.VariablePhase?
      modifies this
      ensures offset <= |buffer| && Explains(old(State()), old(Unread()), r, frames, State(), Unread())
    {
      frames := [];
      var integer, n := ReadInteger();
      if integer.None? {
        frames := [Partial];
        EventsOfFew(Partial, Partial);
        return ReturnOuter, frames;
      }
      var frame := if frameType == Some(GOAWAY) then GoawayFrame(integer.value) else CancelPushFrame(integer.value);
      frames := [Complete(frame)];
      EventsOfFew(Complete(frame), Partial);
      r := FinishFrame(n);
    }

    /** The pairs of a SETTINGS payload. */
    method ReadSettings(length: nat) returns (r: SettingsResult)
      requires offset <= |buffer|
      ensures r == ParseSettings(Unread(), 0, length, NO_SETTINGS)
    {
      var u := buffer[offset..];
      var reader := new ReadableBytes(u);
      var settings := NO_SETTINGS;
      while reader.idx < length
        invariant reader.buf == u && reader.idx <= |u|
        invariant ParseSettings(u, 0, length, NO_SETTINGS) == ParseSettings(u, reader.idx, length, settings)
        decreases |u| - reader.idx
      {
        var pair := ReadPair(reader);
        if pair.None? {
          return Malformed(FrameSizeError(length));
        }
        var (key, value) := pair.value;
        if IsReserved(key) {
          return Malformed(UnsupportedSetting(key));
        }
        settings := SetSetting(settings, key, value);
      }
      return Parsed(settings, reader.idx);
    }

    /** A key and its value, if all their octets are there. */
    static method ReadPair(reader: ReadableBytes) returns (pair: Option<(nat, nat)>)
      requires reader.idx <= |reader.buf|
      modifies reader
      ensures reader.idx <= |reader.buf|
      ensures pair.None? ==> PairAt(reader.buf, old(reader.idx)).None?
      ensures pair.Some? ==> PairAt(reader.buf, old(reader.idx)) == Some((pair.value.0, pair.value.1, reader.idx))
    {
      var key := reader.GetVarint();
      if key.None? {
        return None;
      }
      var value := reader.GetVarint();
      if value.None? {
        return None;
      }
      return Some((key.value, value.value));
    }

    method DecodeSettingsPayload() returns (r: PartResult, frames: seq<FrameKind>)
      requires offset <= |buffer| && WellTyped(State()) && phase.SettingsPhase?
      modifies this
      ensures offset <= |buffer| && Explains(old(State()), old(Unread()), r, frames, State(), Unread())
    {
      frames := [];
      var length := payloadLen.value;
      if |buffer| - offset < length {
        frames := [Partial];
        EventsOfFew(Partial, Partial);
        return ReturnOuter, frames;
      }
      var parsed := ReadSettings(length);
      if parsed.Malformed? {
        return Error(parsed.error), frames;
      }
      var frame := SettingsFrame(parsed.settings);
      frames := [Complete(frame)];
      EventsOfFew(Complete(frame), Partial);
      ClearFrame();
      phase := FrameTypePhase;
      if parsed.consumed >= |buffer| - offset {
        ClearBuffer();
        return ReturnOuter, frames;
      }
      return Continue, frames;
    }

    /** One turn of the loop in `decode`, for the phases that QPACK has no part in. */
    method DecodePart() returns (r: PartResult, frames: seq<FrameKind>)
      requires offset <= |buffer| && WellTyped(State()) && Framing(phase)
      modifies this
      ensures offset <= |buffer| && Explains(old(State()), old(Unread()), r, frames, State(), Unread())
    {
      match phase {
        case StreamTypePhase => r, frames := DecodeStreamType();
        case PushIdPhase => r, frames := DecodePushId();
        case FrameTypePhase => r, frames := DecodeFrameType();
        case PayloadLenPhase => r, frames := DecodePayloadLen();
        case DataPhase => r, frames := DecodeDataPayload();
        case VariablePhase => r, frames := DecodeVariablePayload();
        case SettingsPhase => r, frames := DecodeSettingsPayload();
        case UnknownPhase => r, frames := DecodeUnknownPayload();
      }
    }

    /** The stream is well-formed, and what is unread gives `whole` when `events` are put in front. */
    ghost predicate At(whole: RunResult, events: seq<Event>)
      reads this
    {
      && offset <= |buffer| && WellTyped(State())
      && whole == Prepend(events, Run(State(), Unread()))
      && (Quiet(phase) ==> events == [])
    }

    /** One turn, after `frames` were reported. */
    method Turn(frames: seq<FrameKind>, ghost whole: RunResult) returns (r: PartResult, all: seq<FrameKind>)
      requires At(whole, EventsOfAll(frames)) && Framing(phase)
      modifies this
      ensures r.Error? ==> whole == Failed(r.error)
      ensures r.ReturnOuter? ==> Waits(whole, EventsOfAll(all))
      ensures r.Continue? ==> At(whole, EventsOfAll(all))
      ensures r.Continue? ==>
                |Unread()| < old(|Unread()|) || (|Unread()| == old(|Unread()|) && Rank(State()) < old(Rank(State())))
    {
      ghost var t, v := State(), Unread();
      var more;
      r, more := DecodePart();
      all := frames + more;
      StepWellTyped(t, v);
      StepShape(t, v);
      EventsOfJoin(frames, more);
      if r.Continue? {
        StepDecreases(t, v);
        GoesOn(whole, frames, t, v, more);
      } else if r.ReturnOuter? {
        Stops(whole, frames, t, v, more, State(), Unread());
      }
    }

    /** The call ends with the stream as it is and `events` reported. */
    ghost predicate Waits(whole: RunResult, events: seq<Event>)
      reads this
    {
      && offset <= |buffer| && WellTyped(State()) && Framing(phase)
      && whole == Waiting(State(), Unread(), events)
      && (Quiet(phase) ==> events == [])
    }

    method ReturnByType(frames: seq<FrameKind>) returns (m: Message)
      requires WellTyped(State()) && Framing(phase)
      ensures Identifies(m, State()) && (!m.WaitingMore? ==> FramesOf(m) == frames)
    {
      if phase.StreamTypePhase? || phase.PushIdPhase? {
        return WaitingMore;
      }
      match ty {
        case Request => return RequestFrames(frames);
        case Push => return PushFrames(pushId.value, frames);
        case _ => return ControlFrames(frames);
      }
    }
  }

  /** Phases in which nothing was reported yet. */
  predicate Quiet(phase: Phase) {
    phase.StreamTypePhase? || phase.PushIdPhase? || phase.QpackDecoderPhase?
  }

  /** Where one turn can lead. Nothing is reported before the type of a stream is known. */
  lemma StepShape(s: Stream, u: seq<byte>)
    requires Framing(s.phase)
    ensures var r := Step(s, u);
            && (r.Stop? && r.result.Waiting? ==> r.result.stream.phase == s.phase)
            && (r.Go? && Quiet(r.stream.phase) ==> s.phase.StreamTypePhase? && r.events == [])
  {
    if s.phase.PayloadLenPhase? {
      FramesAreNotQuiet(FrameType(s));
    }
  }

  lemma FramesAreNotQuiet(frameType: nat)
    ensures !Quiet(PhaseOfFrame(frameType))
  {
  }

  /** The stream goes on after `frames + more` were reported. */
  lemma GoesOn(whole: RunResult, frames: seq<FrameKind>, t: Stream, v: seq<byte>, more: seq<FrameKind>)
    requires whole == Prepend(EventsOfAll(frames), Run(t, v))
    requires Step(t, v).Go? && Step(t, v).events == EventsOfAll(more)
    ensures whole == Prepend(EventsOfAll(frames + more), Run(Step(t, v).stream, Step(t, v).rest))
  {
    StepDecreases(t, v);
    EventsOfJoin(frames, more);
    PrependTwice(EventsOfAll(frames), EventsOfAll(more), Run(Step(t, v).stream, Step(t, v).rest));
  }

  /** The stream waits after `frames + more` were reported. */
  lemma Stops(
    whole: RunResult, frames: seq<FrameKind>, t: Stream, v: seq<byte>,
    more: seq<FrameKind>, t': Stream, v': seq<byte>)
    requires whole == Prepend(EventsOfAll(frames), Run(t, v)) && Explains(t, v, ReturnOuter, more, t', v')
    ensures whole == Waiting(t', v', EventsOfAll(frames + more))
  {
    EventsOfJoin(frames, more);
    if Step(t, v).Go? {
      RunGo(t, v);
    }
  }

  // ---------------------------------------------------------------------------
  // All streams.
  // ---------------------------------------------------------------------------

  /** A stream between two calls: of `buffer`, the octets before `offset` are used up. */
  datatype Saved = Saved(stream: Stream, buffer: seq<byte>, offset: nat)

  predicate Sound(s: Saved) {
    s.offset <= |s.buffer| && WellTyped(s.stream)
  }

  function ViewOf(s: Saved): Kept
    requires Sound(s)
  {
    Kept(s.stream, s.buffer[s.offset..])
  }

  /** What a message says about the octets of one call. */
  ghost predicate Tells(m: Message, r: RunResult) {
    match r
    case Failed(e) => m == DecodeError(e)
    case Dropped => m == UnknownStream
    case Waiting(t, _, events) =>
      if t.phase.QpackDecoderPhase? then m.Instructions? && InstructionEvents(m.bytes) == events
      else Identifies(m, t) && EventsOfAll(FramesOf(m)) == events
  }

  /** What a stream that waits satisfies. */
  predicate AfterWaiting(r: RunResult) {
    r.Waiting? ==> WellTyped(r.stream)
  }

  ghost predicate AllSound(streams: map<nat, Saved>) {
    forall id :: id in streams ==> Sound(streams[id])
  }

  ghost function Views(streams: map<nat, Saved>): Streams
    requires AllSound(streams)
  {
    map id | id in streams :: ViewOf(streams[id])
  }

  function Without(streams: map<nat, Saved>, id: nat): map<nat, Saved> {
    map i | i in streams && i != id :: streams[i]
  }

  /** A stream that was taken out stays out. */
  lemma TakenOut(streams: map<nat, Saved>, id: nat, r: RunResult)
    requires AllSound(streams) && !r.Waiting?
    ensures AllSound(Without(streams, id)) && Views(Without(streams, id)) == PutBack(Views(streams), id, r)
  {
  }

  /** A stream that was taken out is put back as it is now. */
  lemma PutIn(streams: map<nat, Saved>, id: nat, r: RunResult, s: Saved)
    requires AllSound(streams) && Sound(s) && r.Waiting? && ViewOf(s) == Kept(r.stream, r.unread)
    ensures AllSound(Without(streams, id)[id := s])
    ensures Views(Without(streams, id)[id := s]) == PutBack(Views(streams), id, r)
  {
  }

  class FrameDecoder {
    var streams: map<nat, Saved>

    ghost predicate Valid()
      reads this
    {
      AllSound(streams)
    }

    ghost function View(): Streams
      requires Valid()
      reads this
    {
      Views(streams)
    }

    constructor ()
      ensures Valid() && View() == map[]
    {
      streams := map[];
    }

    /** One call of `decode`. */
    method Decode(id: nat, src: seq<byte>) returns (m: Message)
      requires Valid()
      modifies this
      ensures Valid() && View() == AfterCall(old(View()), Call(id, src))
      ensures Tells(m, ResultOf(Entry(old(View()), id), src))
    {
      var stream := TakeStream(id, src);
      ghost var whole := ResultOf(Entry(old(View()), id), src);
      m := DecodeStream(stream, whole);
      if m.UnknownStream? || m.DecodeError? {
        TakenOut(old(streams), id, whole);
      } else {
        var s := Saved(stream.State(), stream.buffer, stream.offset);
        PutIn(old(streams), id, whole, s);
        streams := streams[id := s];
      }
    }

    /** The stream, removed from the map or new, with `src` behind its unread octets. */
    method TakeStream(id: nat, src: seq<byte>) returns (stream: DecodedStream)
      requires Valid()
      modifies this
      ensures fresh(stream) && streams == Without(old(streams), id)
      ensures stream.At(ResultOf(Entry(old(View()), id), src), [])
      ensures AfterWaiting(ResultOf(Entry(old(View()), id), src))
    {
      ghost var k := Entry(View(), id);
      var saved := if id in streams then streams[id] else Saved(NewStream(id), [], 0);
      assert ViewOf(saved) == k;
      streams := Without(streams, id);
      assert (saved.buffer + src)[saved.offset..] == k.unread + src;
      stream := new DecodedStream(saved.stream, saved.buffer + src, saved.offset);
      RunWellTyped(k.stream, k.unread + src);
      PrependTwice([], [], ResultOf(k, src));
    }

    /** The loop in `decode`. */
    static method DecodeStream(stream: DecodedStream, ghost whole: RunResult) returns (m: Message)
      requires stream.At(whole, [])
      modifies stream
      ensures Tells(m, whole)
      ensures !m.UnknownStream? && !m.DecodeError? ==>
                && stream.offset <= |stream.buffer|
                && whole.Waiting? && whole.stream == stream.State() && whole.unread == stream.Unread()
    {
      var frames: seq<FrameKind> := [];
      while Framing(stream.phase)
        invariant stream.At(whole, EventsOfAll(frames))
        decreases |stream.Unread()|, Rank(stream.State())
      {
        var r;
        r, frames := stream.Turn(frames, whole);
        if r.Error? {
          return DecodeError(r.error);
        } else if r.ReturnOuter? {
          m := stream.ReturnByType(frames);
          return;
        }
      }
      m := Handover(stream, whole, EventsOfAll(frames));
    }

    /** Streams that are not made of frames, and the point where QPACK takes over. */
    static method Handover(stream: DecodedStream, ghost whole: RunResult, ghost events: seq<Event>) returns (m: Message)
      requires stream.At(whole, events) && !Framing(stream.phase)
      modifies stream
      ensures Tells(m, whole)
      ensures !m.UnknownStream? && !m.DecodeError? ==>
                && stream.offset <= |stream.buffer|
                && whole.Waiting? && whole.stream == stream.State() && whole.unread == stream.Unread()
    {
      match stream.phase {
        case QpackDecoderPhase =>
          m := Instructions(stream.buffer[stream.offset..]);
          PrependTwice([], [], whole);
          stream.ClearBuffer();
        case DropPhase =>
          m := UnknownStream;
        case _ =>
          m := DecodeError(OpaqueQpack);
      }
    }
  }
}
