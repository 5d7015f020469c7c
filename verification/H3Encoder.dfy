/** The HTTP/3 frame encoder of ylong_http/src/h3/encoder.rs, for all frames but HEADERS. */
module H3Encoder {
  import opened Octets
  import opened Buffers
  import opened Varint
  import opened H3Frame
  import opened H3Stream
  import opened H3Streams
  import opened H3Settings

  const MIN_BUFFER := 1024
  const MAX_ADDITIONAL := 50

  datatype State =
    | Idle
    | FrameComplete
    | EncodingDataFrame
    | EncodingDataPayload
    | EncodingSettingsFrame
    | EncodingSettingsPayload
    | EncodingVariableFrame

  datatype EncodedStream = EncodedStream(frame: Option<Frame>, state: State, payloadOffset: nat)

  const NEW_STREAM := EncodedStream(None, Idle, 0)

  datatype SetResult = Accepted | RepeatSetFrame

  datatype EncodeResult = Written(size: nat) | BufferTooShort | InternalError | TooManySettings

  /** CANCEL_PUSH, GOAWAY and MAX_PUSH_ID, whose payload is one integer. */
  predicate IsVariable(f: Frame) {
    f.CancelPushFrame? || f.GoawayFrame? || f.MaxPushIdFrame?
  }

  function VariableType(f: Frame): nat
    requires IsVariable(f)
  {
    if f.CancelPushFrame? then CANCEL_PUSH else if f.GoawayFrame? then GOAWAY else MAX_PUSH_ID
  }

  /** Type, length and identifier. */
  function VariableBytes(f: Frame): (r: seq<byte>)
    requires IsVariable(f) && f.id < VARINT_LIMIT
    ensures |r| == 2 + VarintLen(f.id)
  {
    VarintBytes(VariableType(f)) + (VarintBytes(VarintLen(f.id)) + VarintBytes(f.id))
  }

  /** Values that have an encoding; anything else makes the source panic. */
  ghost predicate Sendable(f: Frame) {
    match f
    case DataFrame(data) => |data| < VARINT_LIMIT
    case SettingsFrame(s) => Encodable(Pairs(s))
    case _ => f.id < VARINT_LIMIT
  }

  ghost predicate Valid(e: EncodedStream) {
    match e.state
    case Idle => e.payloadOffset == 0
    case FrameComplete => e.payloadOffset == 0
    case EncodingDataFrame => e.frame.Some? && e.frame.value.DataFrame? && Sendable(e.frame.value) && e.payloadOffset == 0
    case EncodingDataPayload =>
      && e.frame.Some? && e.frame.value.DataFrame? && Sendable(e.frame.value)
      && e.payloadOffset <= |e.frame.value.data|
    case EncodingSettingsFrame =>
      e.frame.Some? && e.frame.value.SettingsFrame? && Sendable(e.frame.value) && e.payloadOffset == 0
    case EncodingSettingsPayload => false
    case EncodingVariableFrame =>
      e.frame.Some? && IsVariable(e.frame.value) && Sendable(e.frame.value) && e.payloadOffset == 0
  }

  function DataBytes(data: seq<byte>): seq<byte>
    requires |data| < VARINT_LIMIT
  {
    VarintBytes(DATA) + (VarintBytes(|data|) + data)
  }

  predicate TooMany(s: Settings) {
    |AdditionalPairs(s)| > MAX_ADDITIONAL
  }

  // ---------------------------------------------------------------------------
  // SETTINGS always fit into one call.
  // ---------------------------------------------------------------------------

  lemma {:induction false} PairsSize(pairs: seq<Pair>)
    requires Encodable(pairs)
    ensures |PairsBytes(pairs)| <= 16 * |pairs|
  {
    if pairs != [] {
      PairsSize(pairs[1..]);
    }
  }

  /** With at most fifty additional settings the frame is never too long for the smallest buffer. */
  lemma SettingsFit(s: Settings)
    requires Encodable(Pairs(s)) && |AdditionalPairs(s)| <= 50
    ensures |PairsBytes(Pairs(s))| <= 880 && |SettingsBytes(s)| <= 1024
  {
    PairsSize(Pairs(s));
    assert |KnownPairs(s)| <= 5;
  }

  /** What is still to be written. */
  ghost function Pending(e: EncodedStream): seq<byte>
    requires Valid(e)
  {
    match e.state
    case EncodingDataFrame => DataBytes(e.frame.value.data)
    case EncodingDataPayload => e.frame.value.data[e.payloadOffset..]
    case EncodingSettingsFrame =>
      if TooMany(e.frame.value.settings) then []
      else
        SettingsFit(e.frame.value.settings);
        SettingsBytes(e.frame.value.settings)
    case EncodingVariableFrame => VariableBytes(e.frame.value)
    case _ => []
  }

  /** The frame that is refused for having too many settings. */
  predicate Refused(e: EncodedStream) {
    e.state.EncodingSettingsFrame? && e.frame.Some? && e.frame.value.SettingsFrame? && TooMany(e.frame.value.settings)
  }

  // ---------------------------------------------------------------------------
  // Writing.
  // ---------------------------------------------------------------------------

  /** Type and length of a frame. */
  method EncodeFront(buf: array<byte>, frameType: nat, length: nat) returns (n: nat)
    requires MIN_BUFFER <= buf.Length && frameType < VARINT_LIMIT && length < VARINT_LIMIT
    modifies buf
    ensures n == |VarintBytes(frameType) + VarintBytes(length)|
    ensures buf[..] == Splice(old(buf[..]), 0, VarintBytes(frameType) + VarintBytes(length))
  {
    var a := WriteVarint(buf, 0, frameType);
    var b := WriteVarint(buf, a.value, length);
    SpliceTwice(old(buf[..]), 0, VarintBytes(frameType), VarintBytes(length));
    n := a.value + b.value;
  }

  method EncodeDataPayload(e: EncodedStream, buf: array<byte>, at: nat) returns (next: EncodedStream, size: nat)
    requires Valid(e) && e.state.EncodingDataPayload? && at <= buf.Length
    modifies buf
    ensures Valid(next) && next.frame == e.frame && !Refused(next) && !next.state.EncodingVariableFrame?
    ensures size == Min(buf.Length - at, |Pending(e)|)
    ensures buf[..] == Splice(old(buf[..]), at, Pending(e)[..size]) && Pending(next) == Pending(e)[size..]
  {
    var data := e.frame.value.data;
    var remaining := |data| - e.payloadOffset;
    if buf.Length - at >= remaining {
      Copy(buf, at, data[e.payloadOffset..]);
      assert Pending(e)[..remaining] == data[e.payloadOffset..];
      return e.(payloadOffset := 0, state := FrameComplete), remaining;
    } else {
      size := buf.Length - at;
      Copy(buf, at, data[e.payloadOffset..e.payloadOffset + size]);
      assert Pending(e)[..size] == data[e.payloadOffset..e.payloadOffset + size];
      next := e.(payloadOffset := e.payloadOffset + size);
      assert Pending(next) == Pending(e)[size..];
    }
  }

  method EncodeData(e: EncodedStream, buf: array<byte>) returns (next: EncodedStream, size: nat)
    requires Valid(e) && e.state.EncodingDataFrame? && MIN_BUFFER <= buf.Length
    modifies buf
    ensures Valid(next) && next.frame == e.frame && !Refused(next) && !next.state.EncodingVariableFrame?
    ensures size == Min(buf.Length, |Pending(e)|)
    ensures buf[..] == Splice(old(buf[..]), 0, Pending(e)[..size]) && Pending(next) == Pending(e)[size..]
  {
    ghost var data := e.frame.value.data;
    ghost var head := DataFront(data);
    var n := EncodeFront(buf, DATA, |e.frame.value.data|);
    var body := e.(state := EncodingDataPayload);
    next, size := EncodeDataPayload(body, buf, n);
    SpliceTwice(old(buf[..]), 0, head, data[..size]);
    JoinCut(head, data, size);
    size := n + size;
  }

  /** What is written in front of the data. */
  lemma DataFront(data: seq<byte>) returns (head: seq<byte>)
    requires |data| < VARINT_LIMIT
    ensures head == VarintBytes(DATA) + VarintBytes(|data|) && DataBytes(data) == head + data && data[0..] == data
  {
    head := VarintBytes(DATA) + VarintBytes(|data|);
    Associate(VarintBytes(DATA), VarintBytes(|data|), data);
  }

  lemma JoinCut(a: seq<byte>, b: seq<byte>, n: nat)
    requires n <= |b|
    ensures (a + b)[..|a| + n] == a + b[..n] && (a + b)[|a| + n..] == b[n..]
  {
  }

  /** The length field: the lengths of all integers, added up. */
  method SettingsLength(pairs: seq<Pair>) returns (sum: nat)
    requires Encodable(pairs)
    ensures sum == |PairsBytes(pairs)|
  {
    sum := 0;
    for i := 0 to |pairs|
      invariant |PairsBytes(pairs)| == sum + |PairsBytes(pairs[i..])|
    {
      assert pairs[i..][0] == pairs[i] && pairs[i..][1..] == pairs[i + 1..];
      sum := sum + VarintLen(pairs[i].0);
      sum := sum + VarintLen(pairs[i].1);
    }
  }

  lemma NextPair(pairs: seq<Pair>, i: nat, done: seq<byte>)
    requires Encodable(pairs) && i < |pairs| && PairsBytes(pairs) == done + PairsBytes(pairs[i..])
    ensures PairsBytes(pairs) == (done + PairBytes(pairs[i])) + PairsBytes(pairs[i + 1..])
    ensures |done| + |PairBytes(pairs[i])| <= |PairsBytes(pairs)|
  {
    assert pairs[i..][0] == pairs[i] && pairs[i..][1..] == pairs[i + 1..];
    Turn(PairsBytes(pairs), done, PairBytes(pairs[i]), PairsBytes(pairs[i + 1..]));
  }

  /** The integers, one behind the other. */
  method WritePairs(buf: array<byte>, at: nat, pairs: seq<Pair>) returns (n: nat)
    requires Encodable(pairs) && at + |PairsBytes(pairs)| <= buf.Length
    modifies buf
    ensures n == |PairsBytes(pairs)| && buf[..] == Splice(old(buf[..]), at, PairsBytes(pairs))
  {
    n := 0;
    ghost var done, all := [], PairsBytes(pairs);
    assert all == [] + PairsBytes(pairs[0..]) && pairs[0..] == pairs;
    for i := 0 to |pairs|
      invariant n == |done| && all == done + PairsBytes(pairs[i..])
      invariant buf[..] == Splice(old(buf[..]), at, done)
    {
      NextPair(pairs, i, done);
      n := WritePair(buf, at, n, pairs[i], old(buf[..]), done);
      done := done + PairBytes(pairs[i]);
    }
    assert pairs[|pairs|..] == [] && done + [] == done;
  }

  /** One integer behind the `n` octets in `done`. */
  method WriteNext(buf: array<byte>, at: nat, n: nat, v: nat, ghost before: seq<byte>, ghost done: seq<byte>)
    returns (m: nat)
    requires v < VARINT_LIMIT && n == |done| && at + n + VarintLen(v) <= buf.Length
    requires |before| == buf.Length && buf[..] == Splice(before, at, done)
    modifies buf
    ensures m == |done + VarintBytes(v)| && buf[..] == Splice(before, at, done + VarintBytes(v))
  {
    var size := WriteVarint(buf, at + n, v);
    SpliceTwice(before, at, done, VarintBytes(v));
    m := n + size.value;
  }

  /** One pair behind the `n` octets in `done`. */
  method WritePair(buf: array<byte>, at: nat, n: nat, p: Pair, ghost before: seq<byte>, ghost done: seq<byte>)
    returns (m: nat)
    requires Small(p) && n == |done| && at + n + |PairBytes(p)| <= buf.Length
    requires |before| == buf.Length && buf[..] == Splice(before, at, done)
    modifies buf
    ensures m == |done + PairBytes(p)| && buf[..] == Splice(before, at, done + PairBytes(p))
  {
    ghost var x, y := VarintBytes(p.0), VarintBytes(p.1);
    m := WriteNext(buf, at, n, p.0, before, done);
    m := WriteNext(buf, at, m, p.1, before, done + x);
    Associate(done, x, y);
  }

  /** A whole SETTINGS frame. */
  method EncodeSettings(s: Settings, buf: array<byte>) returns (size: nat)
    requires Encodable(Pairs(s)) && !TooMany(s) && MIN_BUFFER <= buf.Length
    modifies buf
    ensures |PairsBytes(Pairs(s))| < VARINT_LIMIT && size == |SettingsBytes(s)| <= buf.Length
    ensures buf[..] == Splice(old(buf[..]), 0, SettingsBytes(s))
  {
    SettingsFit(s);
    ghost var payload := PairsBytes(Pairs(s));
    var length := SettingsLength(Pairs(s));
    ghost var x, y := VarintBytes(SETTINGS), VarintBytes(length);
    var n := EncodeFront(buf, SETTINGS, length);
    Associate(x, y, payload);
    var m := WritePairs(buf, n, Pairs(s));
    SpliceTwice(old(buf[..]), 0, x + y, payload);
    size := n + m;
  }

  /** The frame is written whole; the octet that holds the length is missing from the count. */
  method EncodeVariable(f: Frame, buf: array<byte>) returns (size: nat)
    requires IsVariable(f) && f.id < VARINT_LIMIT && MIN_BUFFER <= buf.Length
    modifies buf
    ensures buf[..] == Splice(old(buf[..]), 0, VariableBytes(f)) && size == |VariableBytes(f)| - 1
  {
    ghost var x, y, z := VarintBytes(VariableType(f)), VarintBytes(VarintLen(f.id)), VarintBytes(f.id);
    var n := EncodeFront(buf, VariableType(f), VarintLen(f.id));
    var c := WriteVarint(buf, n, f.id);
    SpliceTwice(old(buf[..]), 0, x + y, z);
    Associate(x, y, z);
    size := VarintLen(VariableType(f)) + c.value;
  }

  /**
   * The buffer was filled from the front of what the stream had pending. Of CANCEL_PUSH, GOAWAY and MAX_PUSH_ID one
   * octet less is reported than was written.
   */
  ghost predicate Encodes(e: EncodedStream, next: EncodedStream, before: seq<byte>, buf: seq<byte>, size: nat) {
    && Valid(e) && Valid(next) && !Refused(next) && !next.state.EncodingVariableFrame?
    && if e.state.EncodingVariableFrame? then
         && size == |Pending(e)| - 1 && |Pending(e)| <= |before|
         && buf == Splice(before, 0, Pending(e)) && Pending(next) == []
       else size == Min(|before|, |Pending(e)|) && Moves(Pending(e), before, buf, size, Pending(next))
  }

  /** The loop in `encode`, by state. */
  method EncodeStream(e: EncodedStream, buf: array<byte>) returns (r: EncodeResult, next: EncodedStream)
    requires Valid(e) && MIN_BUFFER <= buf.Length
    modifies buf
    ensures if Refused(e) then r.TooManySettings?
            else r.Written? && Encodes(e, next, old(buf[..]), buf[..], r.size)
  {
    ghost var pending := Pending(e);
    var size := 0;
    next := e;
    match e.state {
      case EncodingDataFrame =>
        next, size := EncodeData(e, buf);
      case EncodingDataPayload =>
        next, size := EncodeDataPayload(e, buf, 0);
      case EncodingSettingsFrame =>
        if TooMany(e.frame.value.settings) {
          return TooManySettings, next;
        }
        size := EncodeSettings(e.frame.value.settings, buf);
        next := e.(state := FrameComplete);
        assert pending[..size] == pending;
      case EncodingVariableFrame =>
        size := EncodeVariable(e.frame.value, buf);
        next := e.(state := FrameComplete);
      case _ =>
    }
    return Written(size), next;
  }

  class FrameEncoder {
    var streams: map<nat, EncodedStream>

    ghost predicate AllValid()
      reads this
    {
      forall id :: id in streams ==> Valid(streams[id])
    }

    constructor ()
      ensures streams == map[] && AllValid()
    {
      streams := map[];
    }

    /** A stream takes a frame only when it has none under way. */
    method SetFrame(id: nat, frame: Frame) returns (r: SetResult)
      requires AllValid() && Sendable(frame)
      modifies this
      ensures AllValid() && id in streams
      ensures forall i :: i != id ==> (i in streams <==> i in old(streams)) && (i in streams ==> streams[i] == old(streams)[i])
      ensures var before := if id in old(streams) then old(streams)[id] else NEW_STREAM;
              if before.state.Idle? || before.state.FrameComplete? then
                && r == Accepted
                && streams[id].frame == Some(frame)
                && Refused(streams[id]) == (frame.SettingsFrame? && |AdditionalPairs(frame.settings)| > 50)
                && (streams[id].state.EncodingVariableFrame? <==> IsVariable(frame))
                && (IsVariable(frame) ==> Pending(streams[id]) == VariableBytes(frame))
                && (frame.DataFrame? ==> Pending(streams[id]) == DataBytes(frame.data))
                && (frame.SettingsFrame? && |AdditionalPairs(frame.settings)| <= 50 ==>
                      && |PairsBytes(Pairs(frame.settings))| < VARINT_LIMIT
                      && Pending(streams[id]) == SettingsBytes(frame.settings))
              else r == RepeatSetFrame && streams[id] == before
    {
      var stream := if id in streams then streams[id] else NEW_STREAM;
      if !stream.state.Idle? && !stream.state.FrameComplete? {
        return RepeatSetFrame;
      }
      stream := stream.(frame := Some(frame),
                        state := if frame.DataFrame? then EncodingDataFrame
                                 else if frame.SettingsFrame? then EncodingSettingsFrame
                                 else EncodingVariableFrame);
      streams := streams[id := stream];
      if frame.SettingsFrame? && !TooMany(frame.settings) {
        SettingsFit(frame.settings);
      }
      return Accepted;
    }

    /** One call of `encode`, for the stream with this identifier. */
    method Encode(id: nat, buf: array<byte>) returns (r: EncodeResult)
      requires AllValid()
      modifies this, buf
      ensures AllValid()
      ensures forall i :: i != id ==> (i in streams <==> i in old(streams)) && (i in streams ==> streams[i] == old(streams)[i])
      ensures r.BufferTooShort? <==> buf.Length < 1024
      ensures r.InternalError? <==> 1024 <= buf.Length && id !in old(streams)
      ensures r.TooManySettings? <==> 1024 <= buf.Length && id in old(streams) && Refused(old(streams)[id])
      ensures !r.Written? ==> streams == old(streams)
      ensures r.Written? ==> id in streams && Encodes(old(streams)[id], streams[id], old(buf[..]), buf[..], r.size)
    {
      if buf.Length < MIN_BUFFER {
        return BufferTooShort;
      }
      if id !in streams {
        return InternalError;
      }
      var stream;
      r, stream := EncodeStream(streams[id], buf);
      if r.Written? {
        streams := streams[id := stream];
      }
    }
  }

  // ---------------------------------------------------------------------------
  // End to end.
  // ---------------------------------------------------------------------------

  /** A stream of which DATA or SETTINGS may be under way. */
  ghost predicate Flows(streams: map<nat, EncodedStream>, id: nat) {
    && (forall i :: i in streams ==> Valid(streams[i]))
    && id in streams && !Refused(streams[id]) && !streams[id].state.EncodingVariableFrame?
  }

  /** One buffer. */
  method Offer(encoder: FrameEncoder, id: nat, size: nat) returns (part: seq<byte>)
    requires Flows(encoder.streams, id) && MIN_BUFFER <= size
    modifies encoder
    ensures Flows(encoder.streams, id) && |part| == Min(size, |Pending(old(encoder.streams[id]))|)
    ensures Pending(old(encoder.streams[id])) == part + Pending(encoder.streams[id])
  {
    var buf := new byte[size](_ => 0);
    ghost var left, zeros := Pending(encoder.streams[id]), buf[..];
    var r := encoder.Encode(id, buf);
    MovedPart(left, zeros, buf[..], r.size, Pending(encoder.streams[id]));
    part := buf[..][..r.size];
  }

  /** A caller that offers one buffer after the other for a stream: as much as there is room for. */
  method EncodeAll(encoder: FrameEncoder, id: nat, sizes: seq<nat>) returns (out: seq<byte>)
    requires Flows(encoder.streams, id) && forall i :: 0 <= i < |sizes| ==> 1024 <= sizes[i]
    modifies encoder
    ensures Flows(encoder.streams, id)
    ensures Pending(old(encoder.streams[id])) == out + Pending(encoder.streams[id])
    ensures |out| == Min(Room(sizes, |sizes|), |Pending(old(encoder.streams[id]))|)
  {
    ghost var pending := Pending(encoder.streams[id]);
    out := [];
    assert pending == [] + pending;
    for i := 0 to |sizes|
      invariant Flows(encoder.streams, id) && pending == out + Pending(encoder.streams[id])
      invariant |out| == Min(Room(sizes, i), |pending|)
    {
      out := OfferNext(encoder, id, sizes, i, pending, out);
    }
  }

  /** Buffer number `i`, for a stream that had `pending` before the first one. */
  method OfferNext(
    encoder: FrameEncoder, id: nat, sizes: seq<nat>, i: nat, ghost pending: seq<byte>, out: seq<byte>)
    returns (all: seq<byte>)
    requires Flows(encoder.streams, id) && i < |sizes| && MIN_BUFFER <= sizes[i]
    requires pending == out + Pending(encoder.streams[id]) && |out| == Min(Room(sizes, i), |pending|)
    modifies encoder
    ensures Flows(encoder.streams, id)
    ensures pending == all + Pending(encoder.streams[id]) && |all| == Min(Room(sizes, i + 1), |pending|)
  {
    var part := Offer(encoder, id, sizes[i]);
    Turn(pending, out, part, Pending(encoder.streams[id]));
    all := out + part;
  }

  /** The data of a DATA frame arrives, however the octets are cut on their way. */
  lemma DataArrives(data: seq<byte>, segments: seq<seq<byte>>)
    requires |data| < VARINT_LIMIT && Flatten(segments) == DataBytes(data)
    ensures RunSegments(REQUEST, [], segments) == Waiting(REQUEST, [], DataEvents(data))
  {
    var frames := [RawFrame(DATA, data)];
    assert frames[1..] == [] && data + [] == data;
    StreamRuns(frames);
    NoneAheadAnyCuts(REQUEST, [], segments);
    SegmentsAreInvisible(REQUEST, [], segments);
    assert [] + DataBytes(data) == DataBytes(data);
  }

  /** A stream that takes a frame: a new one, or one whose last frame is finished. */
  predicate Takes(streams: map<nat, EncodedStream>, id: nat) {
    id in streams ==> streams[id].state.Idle? || streams[id].state.FrameComplete?
  }

  /** The data of a request or response body, through any buffers of the size asked for, and any segments. */
  method SendData(encoder: FrameEncoder, id: nat, data: seq<byte>, sizes: seq<nat>) returns (out: seq<byte>)
    requires encoder.AllValid() && Takes(encoder.streams, id) && |data| < VARINT_LIMIT
    requires forall i :: 0 <= i < |sizes| ==> 1024 <= sizes[i]
    requires |DataBytes(data)| <= Room(sizes, |sizes|)
    modifies encoder
    ensures out == DataBytes(data)
    ensures forall segments :: Flatten(segments) == out ==>
              RunSegments(REQUEST, [], segments) == Waiting(REQUEST, [], DataEvents(data))
  {
    var accepted := encoder.SetFrame(id, DataFrame(data));
    out := EncodeAll(encoder, id, sizes);
    forall segments | Flatten(segments) == out
      ensures RunSegments(REQUEST, [], segments) == Waiting(REQUEST, [], DataEvents(data))
    {
      DataArrives(data, segments);
    }
  }

  /** Settings in one buffer; behind the type of the stream they are reported, however the octets are cut. */
  method SendSettings(encoder: FrameEncoder, id: nat, s: Settings, size: nat) returns (out: seq<byte>)
    requires encoder.AllValid() && Takes(encoder.streams, id) && !IsBidirectional(id)
    requires Encodable(Pairs(s)) && |AdditionalPairs(s)| <= 50 && Canonical(s) && 1024 <= size
    modifies encoder
    ensures forall segments :: Flatten(segments) == VarintBytes(0) + out ==>
              RunSegments(NewStream(id), [], segments) == Waiting(ControlStream(true), [], [Received(SettingsFrame(s))])
  {
    SettingsFit(s);
    var accepted := encoder.SetFrame(id, SettingsFrame(s));
    out := EncodeAll(encoder, id, [size]);
    assert Room([size], 1) == size;
    forall segments | Flatten(segments) == VarintBytes(0) + out
      ensures RunSegments(NewStream(id), [], segments) == Waiting(ControlStream(true), [], [Received(SettingsFrame(s))])
    {
      SettingsArriveInSegments(id, s, segments);
    }
  }

  // ---------------------------------------------------------------------------
  // CANCEL_PUSH, GOAWAY and MAX_PUSH_ID.
  // ---------------------------------------------------------------------------

  /** The control stream in front of the identifier. */
  function BeforeId(streamSet: bool, f: Frame): Stream
    requires IsVariable(f) && f.id < VARINT_LIMIT
  {
    Stream(Control, VariablePhase, None, Some(VariableType(f)), Some(VarintLen(f.id)), streamSet)
  }

  lemma VariableHeaderRuns(streamSet: bool, f: Frame, tail: seq<byte>)
    requires IsVariable(f) && !f.MaxPushIdFrame? && f.id < VARINT_LIMIT
    ensures Run(ControlStream(streamSet), VarintBytes(VariableType(f)) + (VarintBytes(VarintLen(f.id)) + tail))
            == Run(BeforeId(streamSet, f), tail)
  {
    var n := VarintLen(f.id);
    RoundTrip(VariableType(f), VarintBytes(n) + tail);
    RoundTrip(n, tail);
    var named := ControlStream(streamSet).(frameType := Some(VariableType(f)), phase := PayloadLenPhase);
    PrependTwice([], [], Run(named, VarintBytes(n) + tail));
    PrependTwice([], [], Run(BeforeId(streamSet, f), tail));
  }

  lemma IdIsRead(streamSet: bool, f: Frame)
    requires IsVariable(f) && !f.MaxPushIdFrame? && f.id < VARINT_LIMIT
    ensures Step(BeforeId(streamSet, f), VarintBytes(f.id)) == Go(ControlStream(streamSet), [], [Received(f)])
  {
    RoundTrip(f.id, []);
    assert VarintBytes(f.id) + [] == VarintBytes(f.id);
  }

  /** All the octets: the frame is reported. */
  lemma VariableRuns(streamSet: bool, f: Frame)
    requires IsVariable(f) && !f.MaxPushIdFrame? && f.id < VARINT_LIMIT
    ensures Run(ControlStream(streamSet), VariableBytes(f)) == Waiting(ControlStream(streamSet), [], [Received(f)])
  {
    VariableHeaderRuns(streamSet, f, VarintBytes(f.id));
    IdIsRead(streamSet, f);
    RunGo(BeforeId(streamSet, f), VarintBytes(f.id));
  }

  /** There is no SETTINGS frame in these octets. */
  lemma VariableSurplus(streamSet: bool, f: Frame, tail: seq<byte>)
    requires IsVariable(f) && f.id < VARINT_LIMIT
    ensures var octets := VarintBytes(VariableType(f)) + (VarintBytes(VarintLen(f.id)) + tail);
            && octets != []
            && Surplus(ControlStream(streamSet), octets)
               == if f.MaxPushIdFrame? then -1 else Surplus(BeforeId(streamSet, f), tail)
  {
    var n := VarintLen(f.id);
    RoundTrip(VariableType(f), VarintBytes(n) + tail);
    RoundTrip(n, tail);
    if !f.MaxPushIdFrame? {
      var named := ControlStream(streamSet).(frameType := Some(VariableType(f)), phase := PayloadLenPhase);
      assert Surplus(named, VarintBytes(n) + tail) == Surplus(BeforeId(streamSet, f), tail);
    }
  }

  /** So they may be cut anywhere. */
  lemma VariableAnyCuts(streamSet: bool, f: Frame, tail: seq<byte>, segments: seq<seq<byte>>)
    requires IsVariable(f) && f.id < VARINT_LIMIT && (f.MaxPushIdFrame? || Surplus(BeforeId(streamSet, f), tail) == -1)
    requires Flatten(segments) == VarintBytes(VariableType(f)) + (VarintBytes(VarintLen(f.id)) + tail)
    ensures RunSegments(ControlStream(streamSet), [], segments) == Run(ControlStream(streamSet), Flatten(segments))
  {
    VariableSurplus(streamSet, f, tail);
    assert [] + Flatten(segments) == Flatten(segments);
    LastMayBeCut(ControlStream(streamSet), [], segments);
    SegmentsAreInvisible(ControlStream(streamSet), [], segments);
  }

  /** CANCEL_PUSH and GOAWAY are reported, however all their octets are cut. */
  lemma VariableArrives(streamSet: bool, f: Frame, segments: seq<seq<byte>>)
    requires IsVariable(f) && !f.MaxPushIdFrame? && f.id < VARINT_LIMIT && Flatten(segments) == VariableBytes(f)
    ensures RunSegments(ControlStream(streamSet), [], segments)
            == Waiting(ControlStream(streamSet), [], [Received(f)])
  {
    IdIsRead(streamSet, f);
    assert Surplus(ControlStream(streamSet), []) == -1;
    VariableAnyCuts(streamSet, f, VarintBytes(f.id), segments);
    VariableRuns(streamSet, f);
  }

  lemma IdIsCutShort(streamSet: bool, f: Frame, n: nat)
    requires IsVariable(f) && !f.MaxPushIdFrame? && f.id < VARINT_LIMIT && n < VarintLen(f.id)
    ensures Run(BeforeId(streamSet, f), VarintBytes(f.id)[..n])
            == Waiting(BeforeId(streamSet, f), VarintBytes(f.id)[..n], [])
  {
    CutShort(f.id, n);
  }

  lemma Shorter(x: seq<byte>, y: seq<byte>, z: seq<byte>, n: nat)
    requires n + 1 == |z|
    ensures (x + (y + z))[..|x + (y + z)| - 1] == x + (y + z[..n])
  {
  }

  /** The octets that are counted, in front of the identifier and in it. */
  lemma CountedOctets(f: Frame)
    requires IsVariable(f) && f.id < VARINT_LIMIT
    ensures VariableBytes(f)[..|VariableBytes(f)| - 1]
            == VarintBytes(VariableType(f)) + (VarintBytes(VarintLen(f.id)) + VarintBytes(f.id)[..VarintLen(f.id) - 1])
  {
    Shorter(VarintBytes(VariableType(f)), VarintBytes(VarintLen(f.id)), VarintBytes(f.id), VarintLen(f.id) - 1);
  }

  /** The octets that are counted: nothing is reported, and the next octet will be taken for the missing one. */
  lemma VariableCutShort(streamSet: bool, f: Frame)
    requires IsVariable(f) && !f.MaxPushIdFrame? && f.id < VARINT_LIMIT
    ensures Run(ControlStream(streamSet), VariableBytes(f)[..|VariableBytes(f)| - 1])
            == Waiting(BeforeId(streamSet, f), VarintBytes(f.id)[..VarintLen(f.id) - 1], [])
  {
    var n := VarintLen(f.id) - 1;
    CountedOctets(f);
    VariableHeaderRuns(streamSet, f, VarintBytes(f.id)[..n]);
    IdIsCutShort(streamSet, f, n);
  }

  /** The decoder accepts no MAX_PUSH_ID frame, on any stream. */
  lemma MaxPushIdIsRefused(s: Stream, tail: seq<byte>)
    requires s.phase.FrameTypePhase?
    ensures Run(s, VarintBytes(MAX_PUSH_ID) + tail) == Failed(UnexpectedFrame(MAX_PUSH_ID))
  {
    RoundTrip(MAX_PUSH_ID, tail);
  }

  /** What the decoder makes of the octets that are counted. */
  function Unfinished(streamSet: bool, f: Frame): RunResult
    requires IsVariable(f) && f.id < VARINT_LIMIT
  {
    if f.MaxPushIdFrame? then Failed(UnexpectedFrame(MAX_PUSH_ID))
    else Waiting(BeforeId(streamSet, f), VarintBytes(f.id)[..VarintLen(f.id) - 1], [])
  }

  lemma CountedRuns(streamSet: bool, f: Frame)
    requires IsVariable(f) && f.id < VARINT_LIMIT
    ensures Run(ControlStream(streamSet), VariableBytes(f)[..|VariableBytes(f)| - 1]) == Unfinished(streamSet, f)
  {
    if f.MaxPushIdFrame? {
      var n := VarintLen(f.id);
      CountedOctets(f);
      MaxPushIdIsRefused(ControlStream(streamSet), VarintBytes(n) + VarintBytes(f.id)[..n - 1]);
    } else {
      VariableCutShort(streamSet, f);
    }
  }

  lemma CountedAnyCuts(streamSet: bool, f: Frame, segments: seq<seq<byte>>)
    requires IsVariable(f) && f.id < VARINT_LIMIT && Flatten(segments) == VariableBytes(f)[..|VariableBytes(f)| - 1]
    ensures RunSegments(ControlStream(streamSet), [], segments) == Run(ControlStream(streamSet), Flatten(segments))
  {
    var n := VarintLen(f.id) - 1;
    CountedOctets(f);
    if !f.MaxPushIdFrame? {
      CutShort(f.id, n);
    }
    VariableAnyCuts(streamSet, f, VarintBytes(f.id)[..n], segments);
  }

  /**
   * The octets that are counted are never reported as a frame, however they are cut: of CANCEL_PUSH and GOAWAY the
   * decoder waits for one octet more, and MAX_PUSH_ID is refused.
   */
  lemma NeverReported(streamSet: bool, f: Frame, segments: seq<seq<byte>>)
    requires IsVariable(f) && f.id < VARINT_LIMIT && Flatten(segments) == VariableBytes(f)[..|VariableBytes(f)| - 1]
    ensures RunSegments(ControlStream(streamSet), [], segments) == Unfinished(streamSet, f)
  {
    CountedAnyCuts(streamSet, f, segments);
    CountedRuns(streamSet, f);
  }

  /** What a caller passes on of such a frame is always one octet short, and never reported. */
  method SendVariable(encoder: FrameEncoder, id: nat, f: Frame, size: nat) returns (out: seq<byte>)
    requires encoder.AllValid() && Takes(encoder.streams, id) && 1024 <= size
    requires IsVariable(f) && f.id < VARINT_LIMIT
    modifies encoder
    ensures out == VariableBytes(f)[..|VariableBytes(f)| - 1]
    ensures forall streamSet, segments | Flatten(segments) == out ::
              Unreported(RunSegments(ControlStream(streamSet), [], segments))
  {
    var accepted := encoder.SetFrame(id, f);
    var buf := new byte[size](_ => 0);
    ghost var zeros := buf[..];
    var r := encoder.Encode(id, buf);
    FrontPart(buf[..], zeros, VariableBytes(f), r.size);
    out := buf[..][..r.size];
    forall streamSet, segments | Flatten(segments) == out
      ensures Unreported(RunSegments(ControlStream(streamSet), [], segments))
    {
      NeverReported(streamSet, f, segments);
    }
  }

  predicate Unreported(r: RunResult) {
    r.Waiting? ==> r.events == []
  }
}
