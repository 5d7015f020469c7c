/**
 * The HTTP/2 frame decoder of ylong_http/src/h2/decoder.rs.
 *
 * `Run` says what one call of `decode` does to a decoder state; the class
 * `FrameDecoder` updates its fields as the source does and is proved against `Run`.
 */
module H2Decoder {
  import opened Octets
  import opened H2Frame

  /** An HPACK failure may carry any code, hence `OtherCode`. */
  datatype ErrorCode = ProtocolError | FlowControlError | FrameSizeError | OtherCode(code: nat)

  datatype H2Error = ConnectionError(code: ErrorCode) | StreamError(id: nat, code: ErrorCode)

  /** `Panic` stands for a Rust panic, such as indexing past the end of a slice. */
  datatype Outcome<+T> = Ok(value: T) | Err(error: H2Error) | Panic {
    predicate IsFailure() {
      !Ok?
    }

    function PropagateFailure<U>(): Outcome<U>
      requires !Ok?
    {
      if Err? then Err(error) else Panic
    }

    function Extract(): T
      requires Ok?
    {
      value
    }
  }

  /** Any deterministic HPACK decoder: `H` is its state, `P` a decoded header list. */
  datatype Hpack<!H, P> = Hpack(decode: (H, seq<byte>) -> Outcome<H>, finish: H -> Outcome<(H, P)>)

  datatype FrameKind<+P> = Complete(frame: Frame<P>) | Partial

  datatype FrameHeader = FrameHeader(streamId: nat, flags: byte, frameType: byte, payloadLength: nat)

  datatype Continuations =
    Continuations(flags: byte, isEndStream: bool, streamId: nat, isEndHeaders: bool, promisedStreamId: nat)

  datatype Stage = HeaderStage | PayloadStage

  datatype DecoderState<H> = DecoderState(
    buffer: seq<byte>,
    offset: nat,
    maxFrameSize: nat,
    stage: Stage,
    header: FrameHeader,
    hpack: H,
    continuations: Continuations)

  /** A frame as it was received, next to what the decoder reports for it. */
  datatype Received<+P> = Received(header: FrameHeader, payload: seq<byte>, kind: FrameKind<P>)

  const NO_HEADER := FrameHeader(0, 0, 0, 0)
  const NO_CONTINUATION := Continuations(0, false, 0, true, 0)

  const PROTOCOL_ERROR := ConnectionError(ProtocolError)
  const FRAME_SIZE_ERROR := ConnectionError(FrameSizeError)

  function Initial<H>(hpack: H): DecoderState<H> {
    DecoderState([], 0, DEFAULT_MAX_FRAME_SIZE, HeaderStage, NO_HEADER, hpack, NO_CONTINUATION)
  }

  /** What holds at every step: the buffer holds what was kept of the current header or payload. */
  ghost predicate Inv<H>(s: DecoderState<H>) {
    && |s.buffer| == s.offset
    && (s.stage.HeaderStage? ==> s.offset < FRAME_HEADER_LENGTH)
    && (s.stage.PayloadStage? ==> s.offset == 0 || s.offset < s.header.payloadLength)
  }

  /** What holds between two calls: the buffer holds only bytes of a header or payload that is not finished. */
  ghost predicate Settled<H>(s: DecoderState<H>) {
    && Inv(s)
    && (s.stage.PayloadStage? ==> s.offset < s.header.payloadLength && !LockViolated(s.continuations, s.header))
  }

  function Kinds<P>(items: seq<Received<P>>): seq<FrameKind<P>> {
    seq(|items|, i requires 0 <= i < |items| => items[i].kind)
  }

  lemma KindsMore<P>(items: seq<Received<P>>, item: Received<P>)
    ensures Kinds(items + [item]) == Kinds(items) + [item.kind]
  {
  }

  // ---------------------------------------------------------------------------
  // Payload layouts. `p` is the whole payload of the frame with header `h`.
  // ---------------------------------------------------------------------------

  function ParseHeader(b: seq<byte>): FrameHeader
    requires |b| >= FRAME_HEADER_LENGTH
  {
    FrameHeader(Nat31(b[5..9]), b[4], b[3], Nat24(b[0..3]))
  }

  function CompleteFrame<P>(h: FrameHeader, payload: Payload<P>): FrameKind<P> {
    Complete(Frame(h.streamId, h.flags, payload))
  }

  function DecodePing<P>(h: FrameHeader, p: seq<byte>): Outcome<FrameKind<P>>
    requires |p| == h.payloadLength
  {
    if h.streamId != 0 then Err(PROTOCOL_ERROR)
    else if |p| != 8 then Err(FRAME_SIZE_ERROR)
    else Ok(CompleteFrame(h, Ping(p)))
  }

  /** The length test is applied to the last fragment, before it is joined to the buffer. */
  function DecodePriority<P>(h: FrameHeader, fragmentLength: nat, p: seq<byte>): Outcome<FrameKind<P>>
    requires |p| == h.payloadLength
  {
    if h.streamId == 0 then Err(PROTOCOL_ERROR)
    else if |p| != 5 || fragmentLength != 5 then Err(StreamError(h.streamId, FrameSizeError))
    else Ok(CompleteFrame(h, Priority(p[0] >= 128, Nat31(p[..4]), p[4])))
  }

  function DecodeGoaway<P>(h: FrameHeader, p: seq<byte>): Outcome<FrameKind<P>>
    requires |p| == h.payloadLength
  {
    if h.streamId != 0 then Err(PROTOCOL_ERROR)
    else if |p| < 8 then Err(FRAME_SIZE_ERROR)
    else Ok(CompleteFrame(h, Goaway(Nat32(p[4..8]), Nat31(p[..4]), p[8..])))
  }

  function DecodeWindowUpdate<P>(h: FrameHeader, p: seq<byte>): Outcome<FrameKind<P>>
    requires |p| == h.payloadLength
  {
    if |p| != 4 then Err(FRAME_SIZE_ERROR)
    else if Nat31(p) == 0 then Err(StreamError(h.streamId, ProtocolError))
    else Ok(CompleteFrame(h, WindowUpdate(Nat31(p))))
  }

  function DecodeReset<P>(h: FrameHeader, p: seq<byte>): Outcome<FrameKind<P>>
    requires |p| == h.payloadLength
  {
    if h.streamId == 0 then Err(PROTOCOL_ERROR)
    else if |p| != 4 then Err(FRAME_SIZE_ERROR)
    else Ok(CompleteFrame(h, RstStream(Nat32(p))))
  }

  /** An unknown identifier is skipped. */
  function GetSetting(id: nat, value: nat): Outcome<Option<Setting>> {
    match id
    case 1 => Ok(Some(HeaderTableSize(value)))
    case 2 => if value > 1 then Err(PROTOCOL_ERROR) else Ok(Some(EnablePush(value == 1)))
    case 3 => Ok(Some(MaxConcurrentStreams(value)))
    case 4 =>
      if value > MAX_INITIAL_WINDOW_SIZE then Err(ConnectionError(FlowControlError))
      else Ok(Some(InitialWindowSize(value)))
    case 5 =>
      if DEFAULT_MAX_FRAME_SIZE <= value <= MAX_ALLOWED_MAX_FRAME_SIZE then Ok(Some(MaxFrameSize(value)))
      else Err(PROTOCOL_ERROR)
    case 6 => Ok(Some(MaxHeaderListSize(value)))
    case _ => Ok(None)
  }

  function ParseSetting(token: seq<byte>): Outcome<Option<Setting>>
    requires |token| == 6
  {
    GetSetting((token[0] as int) * 256 + token[1], Nat32(token[2..6]))
  }

  function ParseSettings(p: seq<byte>): Outcome<seq<Setting>>
    requires |p| % 6 == 0
  {
    if p == [] then Ok([]) else
    var setting :- ParseSetting(p[..6]);
    var rest :- ParseSettings(p[6..]);
    Ok((if setting.Some? then [setting.value] else []) + rest)
  }

  /** Settings in front of those that are still to be parsed. */
  function Behind(settings: seq<Setting>, r: Outcome<seq<Setting>>): Outcome<seq<Setting>> {
    if r.Ok? then Ok(settings + r.value) else r
  }

  lemma BehindNothing(r: Outcome<seq<Setting>>)
    ensures Behind([], r) == r
  {
    if r.Ok? {
      assert [] + r.value == r.value;
    }
  }

  lemma BehindTwice(settings: seq<Setting>, setting: Outcome<Option<Setting>>, r: Outcome<seq<Setting>>)
    ensures setting.Ok? ==>
              var one := if setting.value.Some? then [setting.value.value] else [];
              Behind(settings, Behind(one, r)) == Behind(settings + one, r)
    ensures Behind(settings + [], r) == Behind(settings, r)
  {
    assert settings + [] == settings;
    if r.Ok? && setting.Ok? && setting.value.Some? {
      assert settings + ([setting.value.value] + r.value) == settings + [setting.value.value] + r.value;
    }
    if r.Ok? {
      assert [] + r.value == r.value;
    }
  }

  /** One setting, and those behind it. */
  function InFront(setting: Outcome<Option<Setting>>, rest: Outcome<seq<Setting>>): Outcome<seq<Setting>> {
    if !setting.Ok? then setting.PropagateFailure()
    else Behind(if setting.value.Some? then [setting.value.value] else [], rest)
  }

  /** The setting at octet `i`. */
  lemma NextToken(p: seq<byte>, i: nat)
    requires i < |p| && |p[i..]| % 6 == 0
    ensures i + 6 <= |p| && |p[i + 6..]| % 6 == 0
    ensures ParseSettings(p[i..]) == InFront(ParseSetting(p[i..i + 6]), ParseSettings(p[i + 6..]))
  {
    var n := |p[i..]|;
    assert 6 <= n && (n - 6) % 6 == 0;
    assert p[i..][..6] == p[i..i + 6] && p[i..][6..] == p[i + 6..];
  }

  function DecodeSettings<P>(h: FrameHeader, p: seq<byte>): Outcome<FrameKind<P>>
    requires |p| == h.payloadLength
  {
    if h.streamId != 0 then Err(PROTOCOL_ERROR)
    else if |p| % 6 != 0 then Err(FRAME_SIZE_ERROR)
    else if IsAck(h.flags) then
      if |p| != 0 then Err(FRAME_SIZE_ERROR) else Ok(CompleteFrame(h, Settings([])))
    else
      var settings :- ParseSettings(p);
      Ok(CompleteFrame(h, Settings(settings)))
  }

  function DecodeData<P>(h: FrameHeader, p: seq<byte>): Outcome<FrameKind<P>>
    requires |p| == h.payloadLength
  {
    if h.streamId == 0 then Err(PROTOCOL_ERROR)
    else if |p| == 0 then Ok(CompleteFrame(h, Data([])))
    else if IsPadded(h.flags) then
      if |p| <= p[0] then Err(PROTOCOL_ERROR)
      else Ok(CompleteFrame(h, Data(p[1..|p| - p[0]])))
    else Ok(CompleteFrame(h, Data(p)))
  }

  /** The bounds of the field block fragment behind `prefix` octets and optional padding. */
  function FragmentBounds(h: FrameHeader, prefix: nat, p: seq<byte>): (r: Outcome<(nat, nat)>)
    requires |p| == h.payloadLength
    ensures r.Ok? ==> prefix <= r.value.0 <= r.value.1 <= |p|
    ensures r.Ok? && IsPadded(h.flags) ==> prefix + 1 <= r.value.0
  {
    if IsPadded(h.flags) && |p| == 0 then Panic
    else if IsPadded(h.flags) && |p| <= p[0] then Err(PROTOCOL_ERROR)
    else
      var start := prefix + if IsPadded(h.flags) then 1 else 0;
      var end := |p| - if IsPadded(h.flags) then p[0] else 0;
      if start > end then Err(PROTOCOL_ERROR) else Ok((start, end))
  }

  /** What HEADERS, PUSH_PROMISE and CONTINUATION change besides reporting a frame. */
  datatype Decoded<H, P> = Decoded(kind: FrameKind<P>, hpack: H, continuations: Continuations)

  function DecodeHeaders<H, P>(hp: Hpack<H, P>, h: FrameHeader, c: Continuations, hpack: H, p: seq<byte>)
    : Outcome<Decoded<H, P>>
    requires |p| == h.payloadLength
  {
    if h.streamId == 0 then Err(PROTOCOL_ERROR) else
    var (start, end) :- FragmentBounds(h, if IsHeadersPriority(h.flags) then 5 else 0, p);
    var fed :- hp.decode(hpack, p[start..end]);
    if IsEndHeaders(h.flags) then
      var (finished, parts) :- hp.finish(fed);
      Ok(Decoded(CompleteFrame(h, Headers(parts)), finished, c))
    else
      Ok(Decoded(Partial, fed, Continuations(h.flags, IsEndStream(h.flags), h.streamId, false, c.promisedStreamId)))
  }

  /** HPACK is given the whole payload, not the fragment. */
  function DecodePushPromise<H, P>(hp: Hpack<H, P>, h: FrameHeader, c: Continuations, hpack: H, p: seq<byte>)
    : Outcome<Decoded<H, P>>
    requires |p| == h.payloadLength
  {
    if h.streamId == 0 then Err(PROTOCOL_ERROR) else
    var bounds :- FragmentBounds(h, 4, p);
    var fed :- hp.decode(hpack, p);
    var promised := PromisedId(h, p);
    if promised == 0 then Err(PROTOCOL_ERROR)
    else if IsEndHeaders(h.flags) then
      var (finished, parts) :- hp.finish(fed);
      Ok(Decoded(CompleteFrame(h, PushPromise(promised, parts)), finished, c))
    else
      Ok(Decoded(Partial, fed, Continuations(h.flags, c.isEndStream, h.streamId, false, promised)))
  }

  function PromisedId(h: FrameHeader, p: seq<byte>): nat {
    if IsPadded(h.flags) then
      if |p| < 5 then 0 else Nat31(p[1..5])
    else
      if |p| < 4 then 0 else Nat31(p[..4])
  }

  function DecodeContinuation<H, P>(hp: Hpack<H, P>, h: FrameHeader, c: Continuations, hpack: H, p: seq<byte>)
    : Outcome<Decoded<H, P>>
  {
    if h.streamId == 0 then Err(PROTOCOL_ERROR) else
    var fed :- hp.decode(hpack, p);
    if IsEndHeaders(h.flags) then
      var (finished, parts) :- hp.finish(fed);
      var payload := if c.promisedStreamId != 0 then PushPromise(c.promisedStreamId, parts) else Headers(parts);
      Ok(Decoded(Complete(Frame(c.streamId, c.flags, payload)), finished, NO_CONTINUATION))
    else
      Ok(Decoded(Partial, fed, c))
  }

  /** One complete frame, by type. */
  function DecodeFrame<H, P>(
    hp: Hpack<H, P>, h: FrameHeader, c: Continuations, hpack: H, fragmentLength: nat, p: seq<byte>)
    : Outcome<Decoded<H, P>>
    requires |p| == h.payloadLength
  {
    match h.frameType
    case 1 => DecodeHeaders(hp, h, c, hpack, p)
    case 5 => DecodePushPromise(hp, h, c, hpack, p)
    case 9 => DecodeContinuation(hp, h, c, hpack, p)
    case _ =>
      var kind :- DecodeStateless(h, fragmentLength, p);
      Ok(Decoded(kind, hpack, c))
  }

  function DecodeStateless<P>(h: FrameHeader, fragmentLength: nat, p: seq<byte>): Outcome<FrameKind<P>>
    requires |p| == h.payloadLength
  {
    match h.frameType
    case 0 => DecodeData(h, p)
    case 2 => DecodePriority(h, fragmentLength, p)
    case 3 => DecodeReset(h, p)
    case 4 => DecodeSettings(h, p)
    case 6 => DecodePing(h, p)
    case 7 => DecodeGoaway(h, p)
    case 8 => DecodeWindowUpdate(h, p)
    case _ => Err(PROTOCOL_ERROR)
  }

  // ---------------------------------------------------------------------------
  // One call of `decode`.
  // ---------------------------------------------------------------------------

  datatype HeaderProgress<H> = HeaderMore(state: DecoderState<H>) | HeaderDone(state: DecoderState<H>, rest: seq<byte>)

  datatype PayloadProgress<H, P> =
    | PayloadMore(state: DecoderState<H>)
    | PayloadDone(state: DecoderState<H>, rest: seq<byte>, item: Received<P>)

  function Keep<H>(s: DecoderState<H>, buf: seq<byte>): DecoderState<H> {
    s.(offset := s.offset + |buf|, buffer := s.buffer + buf)
  }

  function HeaderStep<H>(s: DecoderState<H>, buf: seq<byte>): Outcome<HeaderProgress<H>>
    requires Inv(s) && s.stage.HeaderStage?
  {
    var payloadPos := FRAME_HEADER_LENGTH - s.offset;
    if |buf| < payloadPos then Ok(HeaderMore(Keep(s, buf)))
    else
      var h := ParseHeader(s.buffer + buf[..payloadPos]);
      if h.payloadLength > s.maxFrameSize then Err(FRAME_SIZE_ERROR)
      else Ok(HeaderDone(s.(offset := 0, buffer := [], header := h, stage := PayloadStage), buf[payloadPos..]))
  }

  /** A field block is open and this frame may not continue it. */
  predicate LockViolated(c: Continuations, h: FrameHeader) {
    !c.isEndHeaders && (h.streamId != c.streamId || h.frameType != CONTINUATION)
  }

  function PayloadStep<H, P>(hp: Hpack<H, P>, s: DecoderState<H>, buf: seq<byte>): Outcome<PayloadProgress<H, P>>
    requires Inv(s) && s.stage.PayloadStage?
  {
    if LockViolated(s.continuations, s.header) then Err(PROTOCOL_ERROR) else
    var end := s.header.payloadLength - s.offset;
    if |buf| < end then Ok(PayloadMore(Keep(s, buf)))
    else
      var p := s.buffer + buf[..end];
      var d :- DecodeFrame(hp, s.header, s.continuations, s.hpack, end, p);
      Ok(PayloadDone(
           s.(offset := 0, buffer := [], header := NO_HEADER, stage := HeaderStage,
              hpack := d.hpack, continuations := d.continuations),
           buf[end..],
           Received(s.header, p, d.kind)))
  }

  ghost function Measure<H>(s: DecoderState<H>, buf: seq<byte>): nat {
    2 * |buf| + if s.stage.PayloadStage? then 1 else 0
  }

  /** A step that needs more input leaves a settled state; one that does not leaves less to do. */
  lemma HeaderSettles<H>(s: DecoderState<H>, buf: seq<byte>)
    requires Inv(s) && s.stage.HeaderStage? && HeaderStep(s, buf).Ok?
    ensures var step := HeaderStep(s, buf).value;
            if step.HeaderMore? then Settled(step.state)
            else Inv(step.state) && Measure(step.state, step.rest) < Measure(s, buf)
  {
  }

  lemma PayloadSettles<H, P>(hp: Hpack<H, P>, s: DecoderState<H>, buf: seq<byte>)
    requires Inv(s) && s.stage.PayloadStage? && PayloadStep(hp, s, buf).Ok?
    ensures var step := PayloadStep(hp, s, buf).value;
            if step.PayloadMore? then Settled(step.state)
            else Inv(step.state) && Measure(step.state, step.rest) < Measure(s, buf)
  {
  }

  /** The frames found in `buf`, and the state the decoder is left in. */
  ghost function Run<H, P>(hp: Hpack<H, P>, s: DecoderState<H>, buf: seq<byte>)
    : (r: Outcome<(seq<Received<P>>, DecoderState<H>)>)
    requires Inv(s)
    ensures r.Ok? ==> Settled(r.value.1)
    decreases Measure(s, buf)
  {
    match s.stage
    case HeaderStage =>
      var step :- HeaderStep(s, buf);
      HeaderSettles(s, buf);
      if step.HeaderMore? then Ok(([], step.state)) else Run(hp, step.state, step.rest)
    case PayloadStage =>
      var step :- PayloadStep(hp, s, buf);
      PayloadSettles(hp, s, buf);
      if step.PayloadMore? then Ok(([], step.state))
      else Prepend([step.item], Run(hp, step.state, step.rest))
  }

  ghost function Prepend<H, P>(items: seq<Received<P>>, r: Outcome<(seq<Received<P>>, DecoderState<H>)>)
    : Outcome<(seq<Received<P>>, DecoderState<H>)>
  {
    if r.Ok? then Ok((items + r.value.0, r.value.1)) else r
  }

  lemma PrependTwice<H, P>(
    a: seq<Received<P>>, b: seq<Received<P>>, r: Outcome<(seq<Received<P>>, DecoderState<H>)>)
    ensures Prepend([], r) == r
    ensures Prepend(a, Prepend(b, r)) == Prepend(a + b, r)
  {
    if r.Ok? {
      assert [] + r.value.0 == r.value.0;
      assert a + (b + r.value.0) == (a + b) + r.value.0;
    }
  }

  // ---------------------------------------------------------------------------
  // The decoder itself.
  // ---------------------------------------------------------------------------

  class FrameDecoder<H, P> {
    const hp: Hpack<H, P>
    var buffer: seq<byte>
    var offset: nat
    var maxFrameSize: nat
    var stage: Stage
    var header: FrameHeader
    var hpack: H
    var continuations: Continuations

    ghost function State(): DecoderState<H>
      reads this
    {
      DecoderState(buffer, offset, maxFrameSize, stage, header, hpack, continuations)
    }

    constructor (hp: Hpack<H, P>, hpack: H)
      ensures this.hp == hp && State() == Initial(hpack) && Inv(State())
    {
      this.hp := hp;
      buffer, offset, maxFrameSize, stage := [], 0, DEFAULT_MAX_FRAME_SIZE, HeaderStage;
      header, this.hpack, continuations := NO_HEADER, hpack, NO_CONTINUATION;
    }

    method SetMaxFrameSize(size: nat) returns (r: Outcome<()>)
      modifies this
      ensures r == if DEFAULT_MAX_FRAME_SIZE <= size <= MAX_ALLOWED_MAX_FRAME_SIZE then Ok(()) else Err(PROTOCOL_ERROR)
      ensures State() == if r.Ok? then old(State()).(maxFrameSize := size) else old(State())
    {
      if !(DEFAULT_MAX_FRAME_SIZE <= size <= MAX_ALLOWED_MAX_FRAME_SIZE) {
        return Err(PROTOCOL_ERROR);
      }
      maxFrameSize := size;
      return Ok(());
    }

    /** After an error or a panic nothing is promised about the fields. */
    method Decode(buf: seq<byte>) returns (r: Outcome<seq<FrameKind<P>>>)
      requires Inv(State())
      modifies this
      ensures match Run(hp, old(State()), buf)
              case Ok((items, s)) => r == Ok(Kinds(items)) && State() == s
              case Err(e) => r == Err(e)
              case Panic => r == Panic
    {
      ghost var whole := Run(hp, State(), buf);
      ghost var items: seq<Received<P>> := [];
      var frames: seq<FrameKind<P>> := [];
      var rest := buf;
      PrependTwice([], [], whole);
      while true
        invariant Inv(State()) && frames == Kinds(items)
        invariant whole == Prepend(items, Run(hp, State(), rest))
        decreases Measure(State(), rest)
      {
        if stage.HeaderStage? {
          var h := DecodeFrameHeader(rest);
          if h.IsFailure() { return h.PropagateFailure(); }
          if h.value.None? { break; }
          rest := h.value.value;
          stage := PayloadStage;
        } else {
          ghost var item := if PayloadStep(hp, State(), rest).Ok? && PayloadStep(hp, State(), rest).value.PayloadDone?
                            then [PayloadStep(hp, State(), rest).value.item] else [];
          var p := DecodeFramePayload(rest);
          if p.IsFailure() { return p.PropagateFailure(); }
          if p.value.None? { break; }
          frames := frames + [p.value.value.1];
          rest := p.value.value.0;
          stage := HeaderStage;
          PrependTwice(items, item, Run(hp, State(), rest));
          KindsMore(items, item[0]);
          items := items + item;
        }
      }
      assert items + [] == items;
      return Ok(frames);
    }

    method DecodeFrameHeader(buf: seq<byte>) returns (r: Outcome<Option<seq<byte>>>)
      requires Inv(State()) && stage.HeaderStage?
      modifies this
      ensures match HeaderStep(old(State()), buf)
              case Ok(HeaderMore(s)) => r == Ok(None) && State() == s
              case Ok(HeaderDone(s, rest)) => r == Ok(Some(rest)) && State() == s.(stage := HeaderStage)
              case Err(e) => r == Err(e)
              case Panic => r == Panic
    {
      var payloadPos := FRAME_HEADER_LENGTH - offset;
      if |buf| < payloadPos {
        offset := offset + |buf|;
        buffer := buffer + buf;
        return Ok(None);
      }
      ghost var whole := buffer + buf[..payloadPos];
      var headerBuffer := buf;
      if offset != 0 {
        buffer := buffer + buf[..payloadPos];
        headerBuffer := buffer;
      }
      assert headerBuffer[..9] == whole[..9];
      assert headerBuffer[5..9] == whole[5..9] && headerBuffer[0..3] == whole[0..3];
      var payloadLength := Nat24(headerBuffer[0..3]);
      if payloadLength > maxFrameSize {
        return Err(FRAME_SIZE_ERROR);
      }
      if offset != 0 {
        offset := 0;
        buffer := [];
      }
      header := FrameHeader(Nat31(headerBuffer[5..9]), headerBuffer[4], headerBuffer[3], payloadLength);
      return Ok(Some(buf[payloadPos..]));
    }

    method DecodeFramePayload(buf: seq<byte>) returns (r: Outcome<Option<(seq<byte>, FrameKind<P>)>>)
      requires Inv(State()) && stage.PayloadStage?
      modifies this
      ensures match PayloadStep(hp, old(State()), buf)
              case Ok(PayloadMore(s)) => r == Ok(None) && State() == s
              case Ok(PayloadDone(s, rest, item)) =>
                r == Ok(Some((rest, item.kind))) && State() == s.(stage := PayloadStage)
              case Err(e) => r == Err(e)
              case Panic => r == Panic
    {
      if !continuations.isEndHeaders
         && (header.streamId != continuations.streamId || header.frameType != CONTINUATION) {
        return Err(PROTOCOL_ERROR);
      }
      var end := header.payloadLength - offset;
      if |buf| < end {
        offset := offset + |buf|;
        buffer := buffer + buf;
        return Ok(None);
      }
      var payload := JoinFragment(buf[..end]);
      var frame := DecodeByType(end, payload);
      if frame.IsFailure() { return frame.PropagateFailure(); }
      header := NO_HEADER;
      if offset != 0 {
        offset := 0;
        buffer := [];
      }
      return Ok(Some((buf[end..], frame.value)));
    }

    /** A whole payload, whose last fragment had `fragmentLength` octets. */
    method DecodeByType(fragmentLength: nat, payload: seq<byte>) returns (r: Outcome<FrameKind<P>>)
      requires |payload| == header.payloadLength
      modifies this`hpack, this`continuations
      ensures match DecodeFrame(hp, header, old(continuations), old(hpack), fragmentLength, payload)
              case Ok(d) => r == Ok(d.kind) && hpack == d.hpack && continuations == d.continuations
              case Err(e) => r == Err(e)
              case Panic => r == Panic
    {
      match header.frameType {
        case 1 => r := DecodeHeadersPayload(payload);
        case 5 => r := DecodePushPromisePayload(payload);
        case 9 => r := DecodeContinuationPayload(payload);
        case 4 => r := DecodeSettingsPayload(payload);
        case _ => r := DecodeStateless(header, fragmentLength, payload);
      }
    }

    /** The last fragment of a payload joins the fragments kept from earlier calls. */
    method JoinFragment(fragment: seq<byte>) returns (payload: seq<byte>)
      requires Inv(State()) && stage.PayloadStage?
      modifies this`buffer, this`offset
      ensures payload == old(buffer) + fragment
      ensures old(offset) == 0 ==> buffer == [] && offset == 0
      ensures old(offset) != 0 ==> buffer == payload && offset == |payload|
    {
      if offset != 0 {
        buffer := buffer + fragment;
        offset := offset + |fragment|;
        payload := buffer;
      } else {
        payload := fragment;
      }
    }

    method DecodeHeadersPayload(payload: seq<byte>) returns (r: Outcome<FrameKind<P>>)
      requires |payload| == header.payloadLength
      modifies this`hpack, this`continuations
      ensures match DecodeHeaders(hp, header, old(continuations), old(hpack), payload)
              case Ok(d) => r == Ok(d.kind) && hpack == d.hpack && continuations == d.continuations
              case Err(e) => r == Err(e)
              case Panic => r == Panic
    {
      if header.streamId == 0 { return Err(PROTOCOL_ERROR); }
      var start: int, end: int := 0, header.payloadLength;
      if IsPadded(header.flags) {
        if |payload| == 0 { return Panic; }
        var paddedLength: int := payload[0];
        if header.payloadLength <= paddedLength { return Err(PROTOCOL_ERROR); }
        start := start + 1;
        end := end - paddedLength;
      }
      if IsHeadersPriority(header.flags) {
        start := start + 5;
      }
      if start > end { return Err(PROTOCOL_ERROR); }
      if IsEndHeaders(header.flags) {
        hpack :- hp.decode(hpack, payload[start..end]);
        var parts :- HpackFinish();
        return Ok(CompleteFrame(header, Headers(parts)));
      }
      continuations := continuations.(
        flags := header.flags,
        isEndStream := IsEndStream(header.flags),
        isEndHeaders := false,
        streamId := header.streamId);
      hpack :- hp.decode(hpack, payload[start..end]);
      return Ok(Partial);
    }

    method HpackFinish() returns (r: Outcome<P>)
      modifies this`hpack
      ensures match hp.finish(old(hpack))
              case Ok((h, parts)) => r == Ok(parts) && hpack == h
              case Err(e) => r == Err(e)
              case Panic => r == Panic
    {
      var finished :- hp.finish(hpack);
      hpack := finished.0;
      return Ok(finished.1);
    }

    method DecodePushPromisePayload(payload: seq<byte>) returns (r: Outcome<FrameKind<P>>)
      requires |payload| == header.payloadLength
      modifies this`hpack, this`continuations
      ensures match DecodePushPromise(hp, header, old(continuations), old(hpack), payload)
              case Ok(d) => r == Ok(d.kind) && hpack == d.hpack && continuations == d.continuations
              case Err(e) => r == Err(e)
              case Panic => r == Panic
    {
      if header.streamId == 0 { return Err(PROTOCOL_ERROR); }
      var start: int, end: int := 4, header.payloadLength;
      if IsPadded(header.flags) {
        if |payload| == 0 { return Panic; }
        var paddedLength: int := payload[0];
        if header.payloadLength <= paddedLength { return Err(PROTOCOL_ERROR); }
        start := start + 1;
        end := end - paddedLength;
      }
      if start > end { return Err(PROTOCOL_ERROR); }
      hpack :- hp.decode(hpack, payload);
      var promisedStreamId := if IsPadded(header.flags) then Nat31(payload[1..5]) else Nat31(payload[..4]);
      if promisedStreamId == 0 { return Err(PROTOCOL_ERROR); }
      if IsEndHeaders(header.flags) {
        var parts :- HpackFinish();
        return Ok(CompleteFrame(header, PushPromise(promisedStreamId, parts)));
      }
      continuations := continuations.(
        flags := header.flags,
        isEndHeaders := false,
        streamId := header.streamId,
        promisedStreamId := promisedStreamId);
      return Ok(Partial);
    }

    method DecodeContinuationPayload(payload: seq<byte>) returns (r: Outcome<FrameKind<P>>)
      modifies this`hpack, this`continuations
      ensures match DecodeContinuation(hp, header, old(continuations), old(hpack), payload)
              case Ok(d) => r == Ok(d.kind) && hpack == d.hpack && continuations == d.continuations
              case Err(e) => r == Err(e)
              case Panic => r == Panic
    {
      if header.streamId == 0 { return Err(PROTOCOL_ERROR); }
      hpack :- hp.decode(hpack, payload);
      if !IsEndHeaders(header.flags) {
        return Ok(Partial);
      }
      var parts :- HpackFinish();
      var frame := Frame(
        continuations.streamId,
        continuations.flags,
        if continuations.promisedStreamId != 0 then PushPromise(continuations.promisedStreamId, parts) else Headers(parts));
      continuations := NO_CONTINUATION;
      return Ok(Complete(frame));
    }

    method DecodeSettingsPayload(payload: seq<byte>) returns (r: Outcome<FrameKind<P>>)
      requires |payload| == header.payloadLength
      ensures r == DecodeSettings(header, payload)
    {
      if header.streamId != 0 { return Err(PROTOCOL_ERROR); }
      if header.payloadLength % 6 != 0 { return Err(FRAME_SIZE_ERROR); }
      if IsAck(header.flags) {
        if header.payloadLength != 0 { return Err(FRAME_SIZE_ERROR); }
        return Ok(CompleteFrame(header, Settings([])));
      }
      var settings :- DecodeTokens(payload);
      return Ok(CompleteFrame(header, Settings(settings)));
    }

    /** The settings, six octets each. */
    static method DecodeTokens(payload: seq<byte>) returns (r: Outcome<seq<Setting>>)
      requires |payload| % 6 == 0
      ensures r == ParseSettings(payload)
    {
      var settings: seq<Setting> := [];
      var i := 0;
      assert payload[0..] == payload;
      BehindNothing(ParseSettings(payload));
      while i < |payload|
        invariant 0 <= i <= |payload| && |payload[i..]| % 6 == 0
        invariant ParseSettings(payload) == Behind(settings, ParseSettings(payload[i..]))
      {
        NextToken(payload, i);
        BehindTwice(settings, ParseSetting(payload[i..i + 6]), ParseSettings(payload[i + 6..]));
        var setting :- ParseSetting(payload[i..i + 6]);
        if setting.Some? {
          settings := settings + [setting.value];
        }
        i := i + 6;
      }
      assert payload[i..] == [] && settings + [] == settings;
      return Ok(settings);
    }
  }
}
