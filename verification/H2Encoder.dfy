/**
 * The states and steps of the HTTP/2 frame encoder of ylong_http/src/h2/encoder.rs.
 *
 * `Pending` is everything the encoder still has to emit for the current frame. Every step for HEADERS and
 * DATA emits a prefix of it; what becomes of control frames is in `H2Control`.
 *
 * HPACK is a queue of octets: `encode` fills the 16384-octet buffer or drains the queue.
 */
module H2Encoder {
  import opened Octets
  import opened Buffers
  import opened H2Frame
  import opened H2Wire
  import opened H2Control

  /** The source has one pair of states for each kind of control frame; the payload tells them apart here. */
  datatype State =
    | Idle
    | EncodingHeadersFrame
    | EncodingHeadersPayload
    | EncodingContinuationFrames
    | HeadersComplete
    | EncodingDataHeader
    | EncodingDataPayload
    | EncodingControlFrame
    | EncodingControlPayload
    | DataComplete

  datatype Encoder = Encoder(
    currentFrame: Option<OutFrame>,
    maxFrameSize: nat,
    hpackQueue: seq<byte>,  // what HPACK has not produced yet
    state: State,
    encodedBytes: nat,
    dataOffset: nat,
    remainingHeaderPayload: nat,
    remainingPayloadBytes: nat,
    isEndStream: bool,
    isEndHeaders: bool,
    headerPayloadBuffer: seq<byte>,
    headerPayloadIndex: nat)

  /** What a step emits, and the state behind it. */
  datatype Step = Step(out: seq<byte>, next: Encoder)

  /** Two steps, one behind the other. */
  function AndThen(a: Step, b: Step): Step {
    Step(a.out + b.out, b.next)
  }

  // ---------------------------------------------------------------------------
  // Reachable states, and what they still have to emit.
  // ---------------------------------------------------------------------------

  predicate Complete(s: Encoder) {
    s.state.Idle? || s.state.HeadersComplete? || s.state.DataComplete?
  }

  predicate Common(s: Encoder) {
    0 < s.maxFrameSize && |s.headerPayloadBuffer| == DEFAULT_MAX_FRAME_SIZE
  }

  predicate HeadersReady(s: Encoder) {
    && Common(s)
    && s.currentFrame.Some? && s.currentFrame.value.payload.Headers?
    && s.isEndHeaders && DEFAULT_MAX_FRAME_SIZE <= s.maxFrameSize
    && s.headerPayloadIndex <= s.remainingHeaderPayload <= DEFAULT_MAX_FRAME_SIZE
  }

  predicate DataReady(s: Encoder) {
    && Common(s)
    && s.currentFrame.Some? && s.currentFrame.value.payload.Data?
    && s.dataOffset < s.maxFrameSize
    && s.dataOffset + s.remainingPayloadBytes <= |s.currentFrame.value.payload.data|
  }

  predicate ControlReady(s: Encoder) {
    Common(s) && s.currentFrame.Some? && IsControl(s.currentFrame.value.payload)
  }

  /** A control frame is under way. */
  predicate Controls(s: Encoder) {
    s.state.EncodingControlFrame? || s.state.EncodingControlPayload?
  }

  function ProgressOf(s: Encoder): Progress {
    if s.state.EncodingControlFrame? then InHeader(s.encodedBytes)
    else if s.state.EncodingControlPayload? then InPayload(s.encodedBytes)
    else Sent
  }

  /** The rest of the fragment in the buffer, and the frames for what HPACK still holds. */
  function HeadersRest(frame: OutFrame, buffer: seq<byte>, from: nat, to: nat, queue: seq<byte>): seq<byte>
    requires from <= to <= |buffer|
  {
    buffer[from..to] + ContinuationWire(frame, queue)
  }

  /** The rest of a DATA frame's payload, and the DATA frames behind it. */
  function DataPending(frame: OutFrame, max: nat, offset: nat, remaining: nat): seq<byte>
    requires frame.payload.Data? && offset < max && offset + remaining <= |frame.payload.data|
  {
    frame.payload.data[offset..offset + DataLeft(max, offset, remaining)]
    + DataRest(frame, max, DataBehind(max, offset, remaining))
  }

  /** What the encoder still has to emit for the current frame; `None` if the fields do not fit together. */
  function Remaining(s: Encoder): Option<seq<byte>> {
    match s.state
    case EncodingHeadersFrame =>
      if HeadersReady(s) && s.encodedBytes < 9 && s.headerPayloadIndex == 0 then
        Some(HeadersHeader(s.currentFrame.value, s.remainingHeaderPayload, s.hpackQueue)[s.encodedBytes..]
             + HeadersPending(s))
      else None
    case EncodingHeadersPayload =>
      if HeadersReady(s) && s.headerPayloadIndex < s.remainingHeaderPayload then Some(HeadersPending(s)) else None
    case EncodingContinuationFrames =>
      if HeadersReady(s) && s.headerPayloadIndex == 0 then
        Some(ContinuationHeader(s.currentFrame.value, s.remainingHeaderPayload, s.hpackQueue) + HeadersPending(s))
      else None
    case EncodingDataHeader =>
      if DataReady(s) && s.encodedBytes < 9 && s.dataOffset == 0 then
        Some(DataHeader(s.currentFrame.value, s.maxFrameSize, s.remainingPayloadBytes)[s.encodedBytes..]
             + DataPending(s.currentFrame.value, s.maxFrameSize, 0, s.remainingPayloadBytes))
      else None
    case EncodingDataPayload =>
      if DataReady(s) && s.encodedBytes == 0 then
        Some(DataPending(s.currentFrame.value, s.maxFrameSize, s.dataOffset, s.remainingPayloadBytes))
      else None
    case EncodingControlFrame => ControlRemaining(s)
    case EncodingControlPayload => ControlRemaining(s)
    case _ => if Common(s) then Some([]) else None
  }

  function ControlRemaining(s: Encoder): Option<seq<byte>> {
    if ControlReady(s) && Running(s.currentFrame.value, ProgressOf(s)) then
      Some(ControlPending(s.currentFrame.value, ProgressOf(s)))
    else None
  }

  predicate Valid(s: Encoder) {
    Remaining(s).Some?
  }

  function Pending(s: Encoder): seq<byte>
    requires Valid(s)
  {
    Remaining(s).value
  }

  lemma ControlRemains(s: Encoder)
    requires ControlReady(s) && (Controls(s) || s.state.DataComplete?)
    requires Running(s.currentFrame.value, ProgressOf(s))
    ensures Remaining(s) == Some(ControlPending(s.currentFrame.value, ProgressOf(s)))
  {
    NothingBehind(ControlWire(s.currentFrame.value));
  }

  /** How many octets of the control frame under way were sent, as long as calls resume. */
  function SentOf(s: Encoder): nat
    requires ControlReady(s)
  {
    Position(s.currentFrame.value, ProgressOf(s))
  }

  /** A call for a control frame that resumes moves what is pending. */
  lemma ControlCallMoves(s: Encoder, before: seq<byte>)
    requires ControlReady(s) && Controls(s) && Valid(s) && Resumes(s)
    ensures var call := CallOn(s.currentFrame.value, ProgressOf(s), before);
            && call.Some? && call.value.n == Min(|before|, |Pending(s)|)
            && Position(s.currentFrame.value, call.value.progress) == SentOf(s) + call.value.n
            && Moves(Pending(s), before, call.value.buf, call.value.n,
                     ControlPending(s.currentFrame.value, call.value.progress))
  {
    ControlRemains(s);
    var call := ControlMoves(s.currentFrame.value, ProgressOf(s), before);
  }

  /** What is sent and what is pending are the frame. */
  lemma SentAndPending(s: Encoder)
    requires ControlReady(s) && (Controls(s) || s.state.DataComplete?) && Valid(s)
    requires SentOf(s) <= |ControlWire(s.currentFrame.value)|
    ensures SentOf(s) + |Pending(s)| == |ControlWire(s.currentFrame.value)|
    ensures Resumes(s) <==> !Forbidden(s.currentFrame.value.payload, SentOf(s))
  {
    ControlRemains(s);
  }

  lemma NothingBehind(a: seq<byte>)
    ensures a[|a|..] == []
  {
  }

  function HeadersPending(s: Encoder): seq<byte>
    requires HeadersReady(s)
  {
    HeadersRest(s.currentFrame.value, s.headerPayloadBuffer, s.headerPayloadIndex, s.remainingHeaderPayload, s.hpackQueue)
  }

  // ---------------------------------------------------------------------------
  // Steps.
  // ---------------------------------------------------------------------------

  /** HPACK fills the buffer or drains its queue; it is finished when the queue is empty. */
  function HpackEncode(s: Encoder): Encoder
    requires |s.headerPayloadBuffer| == DEFAULT_MAX_FRAME_SIZE
  {
    var n := FragmentSize(s.hpackQueue);
    s.(headerPayloadIndex := 0,
       remainingHeaderPayload := n,
       headerPayloadBuffer := s.hpackQueue[..n] + s.headerPayloadBuffer[n..],
       hpackQueue := s.hpackQueue[n..])
  }

  function Start(s: Encoder, frame: OutFrame): Encoder
    requires Common(s)
  {
    var t := s.(isEndStream := IsEndStream(frame.flags), isEndHeaders := IsEndHeaders(frame.flags),
                currentFrame := Some(frame), encodedBytes := 0);
    match frame.payload
    case Headers(block) =>
      if !IsEndHeaders(frame.flags) then t else HpackEncode(t.(hpackQueue := block, state := EncodingHeadersFrame))
    case Data(data) => t.(dataOffset := 0, remainingPayloadBytes := |data|, state := EncodingDataHeader)
    case PushPromise(_, _) => t
    case _ => t.(state := EncodingControlFrame)
  }

  /** What comes after a fragment, or a part of one. */
  function HeadersStatus(s: Encoder): Encoder
    requires HeadersReady(s)
  {
    if s.headerPayloadIndex < s.remainingHeaderPayload then s.(state := EncodingHeadersPayload)
    else if s.hpackQueue == [] then
      s.(state := HeadersComplete, headerPayloadIndex := 0, isEndStream := false, currentFrame := None,
         isEndHeaders := false, remainingHeaderPayload := 0, encodedBytes := 0)
    else HpackEncode(s).(state := EncodingContinuationFrames)
  }

  /** Emits `n` octets of the fragment in the buffer. */
  function EmitFragment(s: Encoder, n: nat): Step
    requires HeadersReady(s) && n <= s.remainingHeaderPayload - s.headerPayloadIndex
  {
    var i := s.headerPayloadIndex;
    Step(s.headerPayloadBuffer[i..i + n],
         HeadersStatus(s.(headerPayloadIndex := i + n, encodedBytes := s.encodedBytes + n)))
  }

  function FragmentStep(s: Encoder, cap: nat): Step
    requires HeadersReady(s)
  {
    EmitFragment(s, Min(cap, s.remainingHeaderPayload - s.headerPayloadIndex))
  }

  function HeadersHeaderStep(s: Encoder, cap: nat): Step
    requires HeadersReady(s) && s.encodedBytes < 9
  {
    var e := HeaderEnd(s, cap);
    Step(HeadersHeader(s.currentFrame.value, s.remainingHeaderPayload, s.hpackQueue)[s.encodedBytes..e],
         s.(encodedBytes := e))
  }

  function HeadersFrameStep(s: Encoder, cap: nat): Step
    requires HeadersReady(s) && s.encodedBytes < 9
  {
    var a := HeadersHeaderStep(s, cap);
    if a.next.encodedBytes < 9 then a else AndThen(a, FragmentStep(a.next, cap - |a.out|))
  }

  /** A CONTINUATION header is written whole or not at all. */
  function ContinuationStep(s: Encoder, cap: nat): Step
    requires HeadersReady(s)
  {
    if cap < 9 then Step([], s)
    else
      AndThen(Step(ContinuationHeader(s.currentFrame.value, s.remainingHeaderPayload, s.hpackQueue), s),
              FragmentStep(s, cap - 9))
  }

  lemma HeadersFrameIs(s: Encoder, cap: nat, a: Step)
    requires HeadersReady(s) && s.encodedBytes < 9 && a == HeadersHeaderStep(s, cap) && a.next.encodedBytes == 9
    ensures |a.out| <= cap && HeadersFrameStep(s, cap) == AndThen(a, FragmentStep(a.next, cap - |a.out|))
  {
  }

  lemma ContinuationIs(s: Encoder, cap: nat, h: seq<byte>)
    requires HeadersReady(s) && 9 <= cap
    requires h == ContinuationHeader(s.currentFrame.value, s.remainingHeaderPayload, s.hpackQueue)
    ensures ContinuationStep(s, cap) == AndThen(Step(h, s), FragmentStep(s, cap - 9))
  {
  }

  /** How far into the nine octets of a header a step gets. */
  function HeaderEnd(s: Encoder, cap: nat): (e: nat)
    requires s.encodedBytes < 9
    ensures s.encodedBytes <= e <= 9 && e - s.encodedBytes <= cap
  {
    s.encodedBytes + Min(9 - s.encodedBytes, cap)
  }

  function DataHeaderStep(s: Encoder, cap: nat): Step
    requires DataReady(s) && s.encodedBytes < 9
  {
    var e := HeaderEnd(s, cap);
    Step(DataHeader(s.currentFrame.value, s.maxFrameSize, s.remainingPayloadBytes)[s.encodedBytes..e],
         if e == 9 then s.(encodedBytes := 0, state := EncodingDataPayload) else s.(encodedBytes := e))
  }

  /** Emits `n` octets of a DATA payload. */
  function EmitData(s: Encoder, n: nat): Step
    requires DataReady(s) && n <= DataLeft(s.maxFrameSize, s.dataOffset, s.remainingPayloadBytes)
  {
    var t := s.(dataOffset := s.dataOffset + n, remainingPayloadBytes := s.remainingPayloadBytes - n);
    Step(s.currentFrame.value.payload.data[s.dataOffset..s.dataOffset + n],
         if t.remainingPayloadBytes == 0 then t.(dataOffset := 0, state := DataComplete)
         else if t.dataOffset == t.maxFrameSize then t.(dataOffset := 0, state := EncodingDataHeader)
         else t)
  }

  function DataPayloadStep(s: Encoder, cap: nat): Step
    requires DataReady(s)
  {
    EmitData(s, Min(cap, DataLeft(s.maxFrameSize, s.dataOffset, s.remainingPayloadBytes)))
  }

  function StepOf(s: Encoder, cap: nat): Step
    requires Valid(s) && !Complete(s) && !Controls(s)
  {
    match s.state
    case EncodingHeadersFrame => HeadersFrameStep(s, cap)
    case EncodingHeadersPayload => FragmentStep(s, cap)
    case EncodingContinuationFrames => ContinuationStep(s, cap)
    case EncodingDataHeader => DataHeaderStep(s, cap)
    case EncodingDataPayload => DataPayloadStep(s, cap)
  }

  // ---------------------------------------------------------------------------
  // Every step emits a prefix of what is pending.
  // ---------------------------------------------------------------------------

  /** Emitting the first `n` octets of the slice `a[i..k]` in front of `rest`. */
  lemma Cut(a: seq<byte>, i: nat, n: nat, k: nat, rest: seq<byte>)
    requires i + n <= k <= |a|
    ensures a[i..k] + rest == a[i..i + n] + (a[i + n..k] + rest)
    ensures |a[i..i + n]| == n
    ensures i + n == k ==> a[i + n..k] + rest == rest
    ensures k == |a| ==> a[i..] == a[i..k] && a[i + n..] == a[i + n..k]
  {
  }

  lemma Assoc(a: seq<byte>, b: seq<byte>, c: seq<byte>)
    ensures a + (b + c) == (a + b) + c && |a + b| == |a| + |b|
  {
  }

  /** A step keeps the encoder reachable, and what it emits is no longer pending. */
  predicate Conserves(before: seq<byte>, cap: nat, step: Step) {
    && |step.out| <= cap
    && Valid(step.next)
    && before == step.out + Pending(step.next)
  }

  lemma ConservesBy(before: seq<byte>, cap: nat, step: Step, rest: seq<byte>)
    requires |step.out| <= cap && Remaining(step.next) == Some(rest) && before == step.out + rest
    ensures Conserves(before, cap, step)
  {
  }

  /** What is left of `h + rest` behind octet `e` of `h`. */
  function Behind(h: seq<byte>, e: nat, rest: seq<byte>): seq<byte>
    requires e <= |h|
  {
    if e == |h| then rest else h[e..] + rest
  }

  lemma BehindCut(h: seq<byte>, i: nat, e: nat, rest: seq<byte>)
    requires i <= e <= |h|
    ensures h[i..] + rest == h[i..e] + Behind(h, e, rest)
  {
    Cut(h, i, e - i, |h|, rest);
  }

  /** Emitting octets `i .. e` of a header `h` in front of `rest`. */
  lemma HeaderConserves(h: seq<byte>, i: nat, e: nat, rest: seq<byte>, cap: nat, next: Encoder)
    requires i <= e <= |h| && e - i <= cap
    requires Remaining(next) == Some(Behind(h, e, rest))
    ensures Conserves(h[i..] + rest, cap, Step(h[i..e], next))
  {
    BehindCut(h, i, e, rest);
    ConservesBy(h[i..] + rest, cap, Step(h[i..e], next), Behind(h, e, rest));
  }

  lemma StatusConserves(s: Encoder)
    requires HeadersReady(s)
    ensures Remaining(HeadersStatus(s)) == Some(HeadersPending(s))
  {
    if s.headerPayloadIndex == s.remainingHeaderPayload {
      Cut(s.headerPayloadBuffer, s.headerPayloadIndex, 0, s.remainingHeaderPayload,
          ContinuationWire(s.currentFrame.value, s.hpackQueue));
      HpackBuffer(s);
    }
  }

  lemma HpackBuffer(s: Encoder)
    requires |s.headerPayloadBuffer| == DEFAULT_MAX_FRAME_SIZE
    ensures var t := HpackEncode(s);
            && |t.headerPayloadBuffer| == DEFAULT_MAX_FRAME_SIZE
            && t.headerPayloadBuffer[0..t.remainingHeaderPayload] == s.hpackQueue[..t.remainingHeaderPayload]
  {
  }

  /** Emitting `n` octets of a fragment. */
  lemma FragmentCut(s: Encoder, n: nat, t: Encoder)
    requires HeadersReady(s) && n <= s.remainingHeaderPayload - s.headerPayloadIndex
    requires t == s.(headerPayloadIndex := s.headerPayloadIndex + n, encodedBytes := s.encodedBytes + n)
    ensures var out := s.headerPayloadBuffer[s.headerPayloadIndex..s.headerPayloadIndex + n];
            |out| == n && HeadersPending(s) == out + HeadersPending(t)
  {
    Cut(s.headerPayloadBuffer, s.headerPayloadIndex, n, s.remainingHeaderPayload,
        ContinuationWire(s.currentFrame.value, s.hpackQueue));
  }

  lemma EmitFragmentConserves(s: Encoder, n: nat)
    requires HeadersReady(s) && n <= s.remainingHeaderPayload - s.headerPayloadIndex
    ensures Conserves(HeadersPending(s), n, EmitFragment(s, n))
  {
    var t := s.(headerPayloadIndex := s.headerPayloadIndex + n, encodedBytes := s.encodedBytes + n);
    StatusConserves(t);
    FragmentCut(s, n, t);
    ConservesBy(HeadersPending(s), n, EmitFragment(s, n), HeadersPending(t));
  }

  lemma FragmentConserves(s: Encoder, cap: nat)
    requires HeadersReady(s)
    ensures Conserves(HeadersPending(s), cap, FragmentStep(s, cap))
  {
    EmitFragmentConserves(s, Min(cap, s.remainingHeaderPayload - s.headerPayloadIndex));
  }

  /** Emitting `a`, and then what conserves the rest. */
  lemma ConservesBehind(before: seq<byte>, a: seq<byte>, rest: seq<byte>, cap: nat, capLeft: nat, s: Encoder, b: Step)
    requires before == a + rest && |a| + capLeft == cap && Conserves(rest, capLeft, b)
    ensures Conserves(before, cap, AndThen(Step(a, s), b))
  {
    Assoc(a, b.out, Pending(b.next));
  }

  /** A step that does not finish the header of HEADERS. */
  lemma HeadersHeaderPart(s: Encoder, cap: nat, e: nat)
    requires Valid(s) && s.state.EncodingHeadersFrame? && e == HeaderEnd(s, cap) < 9
    ensures Conserves(Pending(s), cap, HeadersFrameStep(s, cap))
  {
    var h := HeadersHeader(s.currentFrame.value, s.remainingHeaderPayload, s.hpackQueue);
    assert Remaining(s.(encodedBytes := e)) == Some(h[e..] + HeadersPending(s));
    HeaderConserves(h, s.encodedBytes, e, HeadersPending(s), cap, s.(encodedBytes := e));
  }

  /** The rest of the header of HEADERS, in front of the fragment. */
  lemma HeadersHeaderRest(s: Encoder, cap: nat, a: Step)
    requires Valid(s) && s.state.EncodingHeadersFrame? && HeaderEnd(s, cap) == 9 && a == HeadersHeaderStep(s, cap)
    ensures Pending(s) == a.out + HeadersPending(s) && |a.out| <= cap
    ensures HeadersReady(a.next) && HeadersPending(a.next) == HeadersPending(s) && a.next.encodedBytes == 9
  {
    var h := HeadersHeader(s.currentFrame.value, s.remainingHeaderPayload, s.hpackQueue);
    assert h[s.encodedBytes..9] == h[s.encodedBytes..];
  }

  lemma HeadersFrameConserves(s: Encoder, cap: nat)
    requires Valid(s) && s.state.EncodingHeadersFrame?
    ensures Conserves(Pending(s), cap, HeadersFrameStep(s, cap))
  {
    if HeaderEnd(s, cap) < 9 {
      HeadersHeaderPart(s, cap, HeaderEnd(s, cap));
    } else {
      var a := HeadersHeaderStep(s, cap);
      HeadersHeaderRest(s, cap, a);
      HeadersFrameIs(s, cap, a);
      var left := cap - |a.out|;
      FragmentConserves(a.next, left);
      ConservesBehind(Pending(s), a.out, HeadersPending(s), cap, left, a.next, FragmentStep(a.next, left));
    }
  }

  lemma ContinuationConserves(s: Encoder, cap: nat)
    requires Valid(s) && s.state.EncodingContinuationFrames?
    ensures Conserves(Pending(s), cap, ContinuationStep(s, cap))
  {
    if cap >= 9 {
      var h := ContinuationHeader(s.currentFrame.value, s.remainingHeaderPayload, s.hpackQueue);
      FragmentConserves(s, cap - 9);
      ConservesBehind(Pending(s), h, HeadersPending(s), cap, cap - 9, s, FragmentStep(s, cap - 9));
    } else {
      Assoc([], [], Pending(s));
    }
  }

  /** What a step leaves pending when it does not finish the header of a DATA frame. */
  lemma DataHeaderPart(s: Encoder, cap: nat)
    requires Valid(s) && s.state.EncodingDataHeader? && HeaderEnd(s, cap) < 9
    ensures Remaining(DataHeaderStep(s, cap).next)
            == Some(DataHeader(s.currentFrame.value, s.maxFrameSize, s.remainingPayloadBytes)[HeaderEnd(s, cap)..]
                    + DataPending(s.currentFrame.value, s.maxFrameSize, 0, s.remainingPayloadBytes))
  {
  }

  lemma DataHeaderWhole(s: Encoder, cap: nat)
    requires Valid(s) && s.state.EncodingDataHeader? && HeaderEnd(s, cap) == 9
    ensures Remaining(DataHeaderStep(s, cap).next)
            == Some(DataPending(s.currentFrame.value, s.maxFrameSize, 0, s.remainingPayloadBytes))
  {
  }

  lemma DataHeaderConserves(s: Encoder, cap: nat)
    requires Valid(s) && s.state.EncodingDataHeader?
    ensures Conserves(Pending(s), cap, DataHeaderStep(s, cap))
  {
    if HeaderEnd(s, cap) < 9 {
      DataHeaderPart(s, cap);
    } else {
      DataHeaderWhole(s, cap);
    }
    HeaderConserves(DataHeader(s.currentFrame.value, s.maxFrameSize, s.remainingPayloadBytes),
                    s.encodedBytes, HeaderEnd(s, cap),
                    DataPending(s.currentFrame.value, s.maxFrameSize, 0, s.remainingPayloadBytes), cap,
                    DataHeaderStep(s, cap).next);
  }

  /** What `EmitData` leaves pending. */
  lemma EmitDataLeaves(s: Encoder, n: nat)
    requires DataReady(s) && s.state.EncodingDataPayload? && s.encodedBytes == 0
    requires n <= DataLeft(s.maxFrameSize, s.dataOffset, s.remainingPayloadBytes)
    ensures Remaining(EmitData(s, n).next)
            == Some(DataNext(s.currentFrame.value, s.maxFrameSize, s.dataOffset + n, s.remainingPayloadBytes - n))
  {
    var t := EmitData(s, n).next;
    if s.remainingPayloadBytes == n {
      assert t.state.DataComplete?;
    } else if s.dataOffset + n == s.maxFrameSize {
      assert t.state.EncodingDataHeader? && DataReady(t) && t.encodedBytes == 0 && t.dataOffset == 0;
    } else {
      assert t.state.EncodingDataPayload? && DataReady(t) && t.encodedBytes == 0;
    }
  }

  lemma EmitDataParts(s: Encoder, n: nat) returns (pending: seq<byte>, rest: seq<byte>)
    requires DataReady(s) && s.state.EncodingDataPayload? && s.encodedBytes == 0
    requires n <= DataLeft(s.maxFrameSize, s.dataOffset, s.remainingPayloadBytes)
    ensures pending == DataPending(s.currentFrame.value, s.maxFrameSize, s.dataOffset, s.remainingPayloadBytes)
    ensures |EmitData(s, n).out| == n && pending == EmitData(s, n).out + rest
    ensures Remaining(EmitData(s, n).next) == Some(rest)
  {
    var frame, max, offset, remaining := s.currentFrame.value, s.maxFrameSize, s.dataOffset, s.remainingPayloadBytes;
    EmitDataLeaves(s, n);
    DataPendingCut(frame, max, offset, remaining, n);
    pending, rest := DataPending(frame, max, offset, remaining), DataNext(frame, max, offset + n, remaining - n);
  }

  lemma EmitDataConserves(s: Encoder, n: nat)
    requires DataReady(s) && s.state.EncodingDataPayload? && s.encodedBytes == 0
    requires n <= DataLeft(s.maxFrameSize, s.dataOffset, s.remainingPayloadBytes)
    ensures Conserves(DataPending(s.currentFrame.value, s.maxFrameSize, s.dataOffset, s.remainingPayloadBytes), n,
                      EmitData(s, n))
  {
    var pending, rest := EmitDataParts(s, n);
    ConservesBy(pending, n, EmitData(s, n), rest);
  }

  lemma DataPayloadConserves(s: Encoder, cap: nat)
    requires Valid(s) && s.state.EncodingDataPayload?
    ensures Conserves(Pending(s), cap, DataPayloadStep(s, cap))
  {
    EmitDataConserves(s, Min(cap, DataLeft(s.maxFrameSize, s.dataOffset, s.remainingPayloadBytes)));
  }

  /** What a DATA frame leaves pending when all of its payload but `remaining` octets was sent. */
  function DataNext(frame: OutFrame, max: nat, offset: nat, remaining: nat): seq<byte>
    requires frame.payload.Data? && 0 < max && offset <= max && offset + remaining <= |frame.payload.data|
  {
    if remaining == 0 then []
    else if offset == max then DataHeader(frame, max, remaining)[0..] + DataPending(frame, max, 0, remaining)
    else DataPending(frame, max, offset, remaining)
  }

  /** How much is left of a frame, and behind it, when `n` octets more of its payload were sent. */
  lemma LeftBehind(max: nat, offset: nat, remaining: nat, n: nat)
    requires offset < max && n <= DataLeft(max, offset, remaining)
    ensures n <= remaining && offset + n <= max
    ensures n == remaining ==> DataLeft(max, offset, remaining) == n && DataBehind(max, offset, remaining) == 0
    ensures offset + n == max ==>
              DataLeft(max, offset, remaining) == n && DataBehind(max, offset, remaining) == remaining - n
    ensures offset + n < max ==>
              && offset + DataLeft(max, offset, remaining) == offset + n + DataLeft(max, offset + n, remaining - n)
              && DataBehind(max, offset, remaining) == DataBehind(max, offset + n, remaining - n)
  {
  }

  lemma EmptySlice(data: seq<byte>, i: nat, rest: seq<byte>)
    requires i <= |data|
    ensures data[i..i] + rest == rest && [] + rest == rest
  {
  }

  /** What is pending behind `n` octets of a DATA frame's payload. */
  lemma DataNextIs(frame: OutFrame, max: nat, offset: nat, remaining: nat, n: nat)
    requires frame.payload.Data? && offset < max && offset + remaining <= |frame.payload.data|
    requires n <= DataLeft(max, offset, remaining)
    ensures DataNext(frame, max, offset + n, remaining - n)
            == frame.payload.data[offset + n..offset + DataLeft(max, offset, remaining)]
               + DataRest(frame, max, DataBehind(max, offset, remaining))
  {
    LeftBehind(max, offset, remaining, n);
    if n == remaining || offset + n == max {
      EmptySlice(frame.payload.data, offset + n, DataRest(frame, max, remaining - n));
      Whole(DataHeader(frame, max, remaining - n));
    }
  }

  /** Sending `n` octets of a DATA frame's payload. */
  lemma DataPendingCut(frame: OutFrame, max: nat, offset: nat, remaining: nat, n: nat)
    requires frame.payload.Data? && offset < max && offset + remaining <= |frame.payload.data|
    requires n <= DataLeft(max, offset, remaining)
    ensures |frame.payload.data[offset..offset + n]| == n
    ensures DataPending(frame, max, offset, remaining)
            == frame.payload.data[offset..offset + n] + DataNext(frame, max, offset + n, remaining - n)
  {
    DataNextIs(frame, max, offset, remaining, n);
    Cut(frame.payload.data, offset, n, offset + DataLeft(max, offset, remaining),
        DataRest(frame, max, DataBehind(max, offset, remaining)));
  }

  lemma StepConserves(s: Encoder, cap: nat)
    requires Valid(s) && !Complete(s) && !Controls(s)
    ensures Conserves(Pending(s), cap, StepOf(s, cap))
  {
    match s.state
    case EncodingHeadersFrame => HeadersFrameConserves(s, cap);
    case EncodingHeadersPayload => FragmentConserves(s, cap);
    case EncodingContinuationFrames => ContinuationConserves(s, cap);
    case EncodingDataHeader => DataHeaderConserves(s, cap);
    case EncodingDataPayload => DataPayloadConserves(s, cap);
  }

  /**
   * A frame that is set when the one before is finished is pending as a whole. The frame sizes of
   * section 4.2 of RFC 9113 make 16384 the least `maxFrameSize`.
   */
  lemma StartPends(s: Encoder, frame: OutFrame)
    requires Common(s) && Complete(s)
    requires frame.payload.Headers? ==> DEFAULT_MAX_FRAME_SIZE <= s.maxFrameSize
    ensures Remaining(Start(s, frame))
            == Some(if frame.payload.Headers? && !IsEndHeaders(frame.flags) then [] else Wire(frame, s.maxFrameSize))
  {
    var t := Start(s, frame);
    if frame.payload.Headers? && IsEndHeaders(frame.flags) {
      HpackBuffer(s.(hpackQueue := frame.payload.parts));
      Cut(HeadersHeader(frame, t.remainingHeaderPayload, t.hpackQueue), 0, 0, 9, []);
      Whole(HeadersHeader(frame, t.remainingHeaderPayload, t.hpackQueue));
    } else if frame.payload.Data? {
      Whole(DataHeader(frame, s.maxFrameSize, |frame.payload.data|));
    } else if IsControl(frame.payload) {
      Whole(ControlWire(frame));
    }
  }

  /** What HPACK holds when a HEADERS frame was set. */
  lemma StartQueues(s: Encoder, frame: OutFrame)
    requires Common(s) && frame.payload.Headers? && IsEndHeaders(frame.flags)
    ensures var t, block := Start(s, frame), frame.payload.parts;
            && t.state.EncodingHeadersFrame? && t.hpackQueue == block[FragmentSize(block)..]
            && (|block| <= DEFAULT_MAX_FRAME_SIZE ==> t.hpackQueue == [])
  {
  }

  lemma Whole(a: seq<byte>)
    ensures a[0..] == a
  {
  }

  // ---------------------------------------------------------------------------
  // Calls.
  // ---------------------------------------------------------------------------

  /** A step that leaves the state as it is filled the buffer, or stopped at a CONTINUATION frame. */
  predicate Progresses(s: Encoder, cap: nat, step: Step) {
    && (step.next.state == s.state ==> |step.out| == cap || s.state.EncodingContinuationFrames?)
    && (|step.out| == 0 ==> Complete(step.next) || (step.next == s && s.state.EncodingContinuationFrames? && cap < 9))
  }

  /** The next call goes on where the last one stopped. */
  predicate Resumes(s: Encoder)
    requires Valid(s)
  {
    Controls(s) ==> Resumable(s.currentFrame.value, ProgressOf(s))
  }

  /** HEADERS and its CONTINUATION frames are under way. */
  predicate HeadersUnderWay(s: Encoder) {
    s.state.EncodingHeadersFrame? || s.state.EncodingHeadersPayload? || s.state.EncodingContinuationFrames?
  }

  /** The frame is the same until it is finished, and no other comes under way. */
  predicate Keeps(s: Encoder, t: Encoder) {
    && t.maxFrameSize == s.maxFrameSize && (t.currentFrame == s.currentFrame || t.currentFrame.None?)
    && !Controls(t) && (HeadersUnderWay(t) ==> HeadersUnderWay(s))
  }

  lemma FragmentKeeps(s: Encoder, cap: nat)
    requires HeadersReady(s) && HeadersUnderWay(s)
    ensures Keeps(s, FragmentStep(s, cap).next)
  {
  }

  lemma HeadersKeeps(s: Encoder, cap: nat)
    requires Valid(s) && HeadersUnderWay(s)
    ensures Keeps(s, StepOf(s, cap).next)
  {
    match s.state
    case EncodingHeadersFrame =>
      var a := HeadersHeaderStep(s, cap);
      if a.next.encodedBytes == 9 {
        FragmentKeeps(a.next, cap - |a.out|);
      }
    case EncodingHeadersPayload => FragmentKeeps(s, cap);
    case EncodingContinuationFrames =>
      if cap >= 9 {
        FragmentKeeps(s, cap - 9);
      }
  }

  lemma StepKeeps(s: Encoder, cap: nat)
    requires Valid(s) && !Complete(s) && !Controls(s)
    ensures Keeps(s, StepOf(s, cap).next)
  {
    if !s.state.EncodingDataHeader? && !s.state.EncodingDataPayload? {
      HeadersKeeps(s, cap);
    }
  }

  /** A call stops early only in front of a CONTINUATION frame; nine octets of room are always enough to go on. */
  predicate Fills(s: Encoder, t: Encoder, room: nat, n: nat)
    requires Valid(s) && Valid(t)
  {
    && (n == room || Pending(t) == [] || t.state.EncodingContinuationFrames?)
    && (9 <= room && Pending(s) != [] ==> 0 < n)
    && (s.state.EncodingContinuationFrames? && room < 9 ==> t == s)
  }

  /**
   * The fragment of a CONTINUATION frame that a call stopped in front of was taken from HPACK in that call, unless
   * the call found it there and had no room for its header.
   */
  predicate Takes(s: Encoder, t: Encoder, room: nat) {
    && Fragments(t.hpackQueue) <= Fragments(s.hpackQueue)
    && (t.state.EncodingContinuationFrames? && (9 <= room || !s.state.EncodingContinuationFrames?) ==>
          Fragments(t.hpackQueue) < Fragments(s.hpackQueue))
  }

  /** The frame is the same until it is finished, and no other comes under way. */
  predicate Follows(s: Encoder, t: Encoder) {
    && t.maxFrameSize == s.maxFrameSize && (t.currentFrame == s.currentFrame || t.currentFrame.None?)
    && (Controls(t) ==> Controls(s)) && (HeadersUnderWay(t) ==> HeadersUnderWay(s))
  }

  /** A control frame resumes unless the buffer ended behind a forbidden octet. */
  predicate Sends(s: Encoder, t: Encoder, n: nat)
    requires Valid(s) && Valid(t) && ControlReady(s)
  {
    && ControlReady(t) && t.currentFrame == s.currentFrame && SentOf(t) == SentOf(s) + n
    && (Resumes(t) <==> !Forbidden(s.currentFrame.value.payload, SentOf(s) + n))
  }

  /** A call with `room` octets wrote `n`. */
  predicate Advances(s: Encoder, t: Encoder, room: nat, n: nat) {
    && Valid(s) && Valid(t) && Fills(s, t, room, n) && Takes(s, t, room) && Follows(s, t)
    && (Controls(s) ==> Sends(s, t, n))
  }

  /** `t` is `s` behind a call for the control frame under way. */
  predicate Called(s: Encoder, before: seq<byte>, t: Encoder, call: Call) {
    && ControlReady(s) && Running(s.currentFrame.value, ProgressOf(s))
    && t == s.(state := t.state, encodedBytes := t.encodedBytes) && (Controls(t) || t.state.DataComplete?)
    && CallOn(s.currentFrame.value, ProgressOf(s), before) == Some(call) && ProgressOf(t) == call.progress
  }

  lemma CalledMoves(s: Encoder, before: seq<byte>, t: Encoder, call: Call)
    requires Valid(s) && Controls(s) && Resumes(s) && Called(s, before, t, call)
    ensures call.n == Min(|before|, |Pending(s)|) && SentOf(t) == SentOf(s) + call.n
    ensures Valid(t) && Moves(Pending(s), before, call.buf, call.n, Pending(t))
  {
    ControlCallMoves(s, before);
    ControlRemains(t);
  }

  lemma ControlFills(s: Encoder, t: Encoder, room: nat, n: nat)
    requires Valid(s) && Valid(t) && Controls(s) && n == Min(room, |Pending(s)|) && Pending(t) == Pending(s)[n..]
    ensures Fills(s, t, room, n)
  {
  }

  lemma ControlFollows(s: Encoder, before: seq<byte>, t: Encoder, call: Call)
    requires Controls(s) && Called(s, before, t, call)
    ensures Takes(s, t, |before|) && Follows(s, t)
  {
  }

  lemma ControlSends(s: Encoder, t: Encoder, n: nat)
    requires ControlReady(s) && Controls(s) && Valid(s) && SentOf(s) <= |ControlWire(s.currentFrame.value)|
    requires n <= |Pending(s)| && t == s.(state := t.state, encodedBytes := t.encodedBytes) && Valid(t)
    requires (Controls(t) || t.state.DataComplete?) && SentOf(t) == SentOf(s) + n
    ensures Sends(s, t, n)
  {
    SentAndPending(s);
    SentAndPending(t);
  }

  /** All about a call for a control frame that resumes. */
  lemma ControlAdvances(s: Encoder, before: seq<byte>, t: Encoder, call: Call)
    requires Valid(s) && Controls(s) && Resumes(s) && Called(s, before, t, call)
    ensures Advances(s, t, |before|, call.n) && Moves(Pending(s), before, call.buf, call.n, Pending(t))
  {
    CalledMoves(s, before, t, call);
    ControlFills(s, t, |before|, call.n);
    ControlFollows(s, before, t, call);
    ControlSends(s, t, call.n);
  }

  /** How many CONTINUATION frames the rest of a field block takes. */
  function Fragments(block: seq<byte>): nat {
    if block == [] then 0 else 1 + Fragments(block[FragmentSize(block)..])
  }

  /** A step that gets to a further CONTINUATION frame takes its fragment from HPACK. */
  predicate Draws(s: Encoder, step: Step) {
    && Fragments(step.next.hpackQueue) <= Fragments(s.hpackQueue)
    && (step.next.state.EncodingContinuationFrames? && step.out != [] ==>
          Fragments(step.next.hpackQueue) < Fragments(s.hpackQueue))
  }

  lemma StatusDraws(s: Encoder)
    requires HeadersReady(s)
    ensures var t := HeadersStatus(s);
            if t.state.EncodingContinuationFrames? then Fragments(t.hpackQueue) < Fragments(s.hpackQueue)
            else t.hpackQueue == s.hpackQueue
  {
  }

  lemma FragmentDraws(s: Encoder, cap: nat)
    requires HeadersReady(s)
    ensures var t := FragmentStep(s, cap).next;
            if t.state.EncodingContinuationFrames? then Fragments(t.hpackQueue) < Fragments(s.hpackQueue)
            else t.hpackQueue == s.hpackQueue
  {
    var n := Min(cap, s.remainingHeaderPayload - s.headerPayloadIndex);
    StatusDraws(s.(headerPayloadIndex := s.headerPayloadIndex + n, encodedBytes := s.encodedBytes + n));
  }

  lemma DrawsBehind(s: Encoder, a: Step, b: Step)
    requires a.next.hpackQueue == s.hpackQueue
    requires if b.next.state.EncodingContinuationFrames? then Fragments(b.next.hpackQueue) < Fragments(s.hpackQueue)
             else b.next.hpackQueue == s.hpackQueue
    ensures Draws(s, AndThen(a, b)) && Draws(s, b)
  {
  }

  lemma HeadersFrameDraws(s: Encoder, cap: nat)
    requires Valid(s) && s.state.EncodingHeadersFrame?
    ensures Draws(s, HeadersFrameStep(s, cap))
  {
    var a := HeadersHeaderStep(s, cap);
    if a.next.encodedBytes == 9 {
      FragmentDraws(a.next, cap - |a.out|);
      DrawsBehind(s, a, FragmentStep(a.next, cap - |a.out|));
    }
  }

  lemma ContinuationDraws(s: Encoder, cap: nat)
    requires Valid(s) && s.state.EncodingContinuationFrames?
    ensures Draws(s, ContinuationStep(s, cap))
  {
    if cap >= 9 {
      var h := ContinuationHeader(s.currentFrame.value, s.remainingHeaderPayload, s.hpackQueue);
      FragmentDraws(s, cap - 9);
      DrawsBehind(s, Step(h, s), FragmentStep(s, cap - 9));
    }
  }

  lemma StepDraws(s: Encoder, cap: nat)
    requires Valid(s) && !Complete(s) && !Controls(s)
    ensures Draws(s, StepOf(s, cap))
  {
    match s.state
    case EncodingHeadersFrame => HeadersFrameDraws(s, cap);
    case EncodingHeadersPayload =>
      FragmentDraws(s, cap);
      DrawsBehind(s, Step([], s), FragmentStep(s, cap));
    case EncodingContinuationFrames => ContinuationDraws(s, cap);
    case _ =>
  }

  lemma FragmentProgress(s: Encoder, cap: nat)
    requires HeadersReady(s)
    ensures var step := FragmentStep(s, cap);
            && (step.next.state.EncodingHeadersPayload? ==> |step.out| == cap)
            && !step.next.state.EncodingHeadersFrame?
            && (s.headerPayloadIndex < s.remainingHeaderPayload && 0 < cap ==> 0 < |step.out|)
  {
  }

  lemma HeadersProgress(s: Encoder, cap: nat)
    requires Valid(s) && HeadersUnderWay(s) && 0 < cap
    ensures Progresses(s, cap, StepOf(s, cap))
  {
    if s.state.EncodingHeadersFrame? {
      var a := HeadersHeaderStep(s, cap);
      assert |a.out| == Min(9 - s.encodedBytes, cap);
      FragmentProgress(a.next, cap - |a.out|);
    } else if s.state.EncodingHeadersPayload? {
      FragmentProgress(s, cap);
    }
  }

  lemma DataProgress(s: Encoder, cap: nat)
    requires Valid(s) && 0 < cap && (s.state.EncodingDataHeader? || s.state.EncodingDataPayload?)
    ensures Progresses(s, cap, StepOf(s, cap))
  {
  }

  lemma StepProgress(s: Encoder, cap: nat)
    requires Valid(s) && !Complete(s) && !Controls(s) && 0 < cap
    ensures Progresses(s, cap, StepOf(s, cap))
  {
    if s.state.EncodingDataHeader? || s.state.EncodingDataPayload? {
      DataProgress(s, cap);
    } else {
      HeadersProgress(s, cap);
    }
  }

  /** All about one step: it moves the front of what is pending, and stops only where it may. */
  predicate Steps(s: Encoder, cap: nat, step: Step) {
    && Valid(s) && Conserves(Pending(s), cap, step)
    && Progresses(s, cap, step) && Keeps(s, step.next) && Draws(s, step)
  }

  lemma StepFacts(s: Encoder, cap: nat)
    requires Valid(s) && !Complete(s) && !Controls(s) && 0 < cap
    ensures Steps(s, cap, StepOf(s, cap))
  {
    StepConserves(s, cap);
    StepProgress(s, cap);
    StepKeeps(s, cap);
    StepDraws(s, cap);
  }
}
