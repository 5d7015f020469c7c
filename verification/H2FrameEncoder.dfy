/** The HTTP/2 frame encoder as an object that writes into the caller's buffer. */
module H2FrameEncoder {
  import opened Octets
  import opened Buffers
  import opened H2Frame
  import opened H2Wire
  import opened H2Control
  import opened H2Encoder

  datatype SetResult = Accepted | HeadersNotEnd

  /** The number of octets written, or a panic. */
  datatype Encoded = Count(n: nat) | Panic

  class FrameEncoder {
    var currentFrame: Option<OutFrame>
    var maxFrameSize: nat
    var hpackQueue: seq<byte>
    var state: State
    var encodedBytes: nat
    var dataOffset: nat
    var remainingHeaderPayload: nat
    var remainingPayloadBytes: nat
    var isEndStream: bool
    var isEndHeaders: bool
    var headerPayloadBuffer: seq<byte>
    var headerPayloadIndex: nat

    function Fields(): Encoder
      reads this
    {
      Encoder(currentFrame, maxFrameSize, hpackQueue, state, encodedBytes, dataOffset, remainingHeaderPayload,
              remainingPayloadBytes, isEndStream, isEndHeaders, headerPayloadBuffer, headerPayloadIndex)
    }

    /** The step was done: its output is in `buf` from `at` on, and nothing else changed there. */
    twostate predicate Did(step: Step, buf: array<byte>, at: nat, n: nat)
      reads this, buf
    {
      && n == |step.out| && at + n <= buf.Length
      && buf[..] == Splice(old(buf[..]), at, step.out)
      && Fields() == step.next
    }

    constructor (maxFrameSize: nat)
      requires 0 < maxFrameSize
      ensures Remaining(Fields()) == Some([]) && Complete(Fields()) && this.maxFrameSize == maxFrameSize
    {
      currentFrame, this.maxFrameSize, hpackQueue, state := None, maxFrameSize, [], Idle;
      encodedBytes, dataOffset, remainingHeaderPayload, remainingPayloadBytes := 0, 0, 0, 0;
      isEndStream, isEndHeaders := false, false;
      headerPayloadBuffer := seq(DEFAULT_MAX_FRAME_SIZE, _ => 0);
      headerPayloadIndex := 0;
    }

    method HpackEncode() returns (size: nat)
      requires |headerPayloadBuffer| == DEFAULT_MAX_FRAME_SIZE
      modifies this`headerPayloadBuffer, this`hpackQueue
      ensures size == FragmentSize(old(hpackQueue))
      ensures headerPayloadBuffer == old(hpackQueue)[..size] + old(headerPayloadBuffer)[size..]
      ensures hpackQueue == old(hpackQueue)[size..]
    {
      size := FragmentSize(hpackQueue);
      headerPayloadBuffer := hpackQueue[..size] + headerPayloadBuffer[size..];
      hpackQueue := hpackQueue[size..];
    }

    method SetFrame(frame: OutFrame) returns (r: SetResult)
      requires Common(Fields())
      modifies this
      ensures Fields() == Start(old(Fields()), frame)
      ensures r == if frame.payload.Headers? && !IsEndHeaders(frame.flags) then HeadersNotEnd else Accepted
    {
      isEndStream := IsEndStream(frame.flags);
      isEndHeaders := IsEndHeaders(frame.flags);
      currentFrame := Some(frame);
      encodedBytes := 0;
      match frame.payload {
        case Headers(block) =>
          if !isEndHeaders { return HeadersNotEnd; }
          SetHeaders(block);
        case Data(data) => SetData(data);
        case PushPromise(_, _) =>
        case _ =>
          state := EncodingControlFrame;
      }
      return Accepted;
    }

    method SetData(data: seq<byte>)
      modifies this`dataOffset, this`remainingPayloadBytes, this`state
      ensures Fields()
              == old(Fields()).(dataOffset := 0, remainingPayloadBytes := |data|, state := EncodingDataHeader)
    {
      dataOffset := 0;
      remainingPayloadBytes := |data|;
      state := EncodingDataHeader;
    }

    method SetHeaders(block: seq<byte>)
      requires |headerPayloadBuffer| == DEFAULT_MAX_FRAME_SIZE
      modifies this
      ensures Fields() == H2Encoder.HpackEncode(old(Fields()).(hpackQueue := block, state := EncodingHeadersFrame))
    {
      hpackQueue := block;
      headerPayloadIndex := 0;
      remainingHeaderPayload := HpackEncode();
      state := EncodingHeadersFrame;
    }

    /** The first `n` octets of what was pending are in `buf`, and no longer pending. */
    twostate predicate Moved(buf: array<byte>, n: nat)
      requires old(Valid(Fields()))
      reads this, buf
    {
      Valid(Fields()) && Moves(old(Pending(Fields())), old(buf[..]), buf[..], n, Pending(Fields()))
    }

    /** A call for a control frame did what `CallOn` says. */
    twostate predicate Called(buf: array<byte>, call: Option<Call>, r: Encoded)
      reads this, buf
    {
      && call == (if r.Panic? then None else Some(Call(buf[..], r.n, ProgressOf(Fields()))))
      && (r.Count? ==> Fields() == old(Fields()).(state := state, encodedBytes := encodedBytes))
      && (Controls(Fields()) || state.DataComplete?)
    }

    /**
     * Moves the front of what is pending into `buf`, as `Advances` says; a control frame that does not resume is
     * written as `CallOn` says.
     */
    method Encode(buf: array<byte>) returns (r: Encoded)
      requires Valid(Fields())
      modifies this, buf
      ensures old(Controls(Fields())) ==>
                Called(buf, CallOn(old(currentFrame).value, old(ProgressOf(Fields())), old(buf[..])), r)
      ensures old(Resumes(Fields())) ==>
                r.Count? && Moved(buf, r.n) && Advances(old(Fields()), Fields(), buf.Length, r.n)
      ensures old(Complete(Fields())) ==> r == Count(0) && Fields() == old(Fields()) && buf[..] == old(buf[..])
      ensures Valid(Fields())
    {
      if Controls(Fields()) {
        r := EncodeControl(buf);
      } else {
        var n := EncodeMessage(buf);
        r := Count(n);
      }
    }

    /** The loop for HEADERS and DATA. */
    method EncodeMessage(buf: array<byte>) returns (n: nat)
      requires Valid(Fields()) && !Controls(Fields())
      modifies this, buf
      ensures Moved(buf, n) && Advances(old(Fields()), Fields(), buf.Length, n)
      ensures old(Complete(Fields())) ==> n == 0 && Fields() == old(Fields()) && buf[..] == old(buf[..])
    {
      ghost var pending, done, start := Pending(Fields()), [], buf[..];
      n := 0;
      Buffers.Turn(pending, [], [], pending);
      while n < buf.Length
        invariant n == |done| <= buf.Length && buf[..] == Splice(start, 0, done)
        invariant Valid(Fields()) && pending == done + Pending(Fields()) && !Controls(Fields())
        invariant n == 0 ==> Fields() == old(Fields()) || Complete(Fields())
        invariant old(Complete(Fields())) ==> n == 0 && Fields() == old(Fields()) && buf[..] == old(buf[..])
        invariant old(state).EncodingContinuationFrames? && buf.Length < 9 ==> n == 0 && Fields() == old(Fields())
        invariant maxFrameSize == old(maxFrameSize) && (currentFrame == old(currentFrame) || currentFrame.None?)
        invariant HeadersUnderWay(Fields()) ==> old(HeadersUnderWay(Fields()))
        invariant Fragments(hpackQueue) <= Fragments(old(hpackQueue))
        invariant state.EncodingContinuationFrames? && 0 < n ==> Fragments(hpackQueue) < Fragments(old(hpackQueue))
        decreases buf.Length - n, if Complete(Fields()) then 0 else 1
      {
        if state.Idle? || state.HeadersComplete? || state.DataComplete? {
          break;
        }
        var before := state;
        n, done := Turn(buf, n, start, pending, done);
        if state == before {
          break;
        }
      }
      Split(pending, done, Pending(Fields()));
    }

    /** One turn of the loop: `done` was written before, `pending` is all there was to write. */
    method Turn(buf: array<byte>, n: nat, ghost start: seq<byte>, ghost pending: seq<byte>, ghost done: seq<byte>)
      returns (m: nat, ghost all: seq<byte>)
      requires Valid(Fields()) && !Controls(Fields()) && !Complete(Fields()) && n == |done| < buf.Length == |start|
      requires pending == done + Pending(Fields()) && buf[..] == Splice(start, 0, done)
      modifies this, buf
      ensures n <= m == |all| <= buf.Length && buf[..] == Splice(start, 0, all)
      ensures Valid(Fields()) && pending == all + Pending(Fields())
      ensures state == old(state) ==> m == buf.Length || state.EncodingContinuationFrames?
      ensures m == n ==> Complete(Fields()) || (state == old(state) && state.EncodingContinuationFrames? && buf.Length - n < 9)
      ensures Keeps(old(Fields()), Fields())
      ensures old(state).EncodingContinuationFrames? && buf.Length - n < 9 ==> Fields() == old(Fields())
      ensures Fragments(hpackQueue) <= Fragments(old(hpackQueue))
      ensures state.EncodingContinuationFrames? && n < m ==> Fragments(hpackQueue) < Fragments(old(hpackQueue))
    {
      assert state.EncodingContinuationFrames? && buf.Length - n < 9 ==>
               StepOf(Fields(), buf.Length - n) == Step([], Fields());
      var count, out := EncodeStep(buf, n);
      SpliceTwice(start, 0, done, out);
      Buffers.Turn(pending, done, out, Pending(Fields()));
      m, all := n + count, done + out;
    }

    /** One turn of the loop, by state. */
    method EncodeStep(buf: array<byte>, at: nat) returns (n: nat, ghost out: seq<byte>)
      requires Valid(Fields()) && !Controls(Fields()) && !Complete(Fields()) && at < buf.Length
      modifies this, buf
      ensures n == |out| && at + n <= buf.Length && buf[..] == Splice(old(buf[..]), at, out)
      ensures Steps(old(Fields()), buf.Length - at, Step(out, Fields()))
      ensures Step(out, Fields()) == StepOf(old(Fields()), buf.Length - at)
    {
      out := StepOf(Fields(), buf.Length - at).out;
      StepFacts(Fields(), buf.Length - at);
      n := Dispatch(buf, at);
    }

    method Dispatch(buf: array<byte>, at: nat) returns (n: nat)
      requires Valid(Fields()) && !Controls(Fields()) && !Complete(Fields()) && at < buf.Length
      modifies this, buf
      ensures Did(StepOf(old(Fields()), buf.Length - at), buf, at, n)
    {
      match state {
        case EncodingHeadersFrame => n := EncodeHeadersFrame(buf, at);
        case EncodingHeadersPayload => n := EncodeHeadersPayload(buf, at);
        case EncodingContinuationFrames => n := EncodeContinuationFrames(buf, at);
        case EncodingDataHeader => n := EncodeDataHeader(buf, at);
        case EncodingDataPayload => n := EncodeDataPayload(buf, at);
      }
    }

    // HEADERS and CONTINUATION

    method EncodeHeadersFrame(buf: array<byte>, at: nat) returns (n: nat)
      requires HeadersReady(Fields()) && encodedBytes < 9 && at <= buf.Length
      modifies this, buf
      ensures Did(HeadersFrameStep(old(Fields()), buf.Length - at), buf, at, n)
    {
      ghost var s, start := Fields(), buf[..];
      ghost var a := HeadersHeaderStep(s, buf.Length - at);
      n := EncodeHeadersHeader(buf, at);
      if encodedBytes >= 9 {
        HeadersFrameIs(s, buf.Length - at, a);
        n := EncodeBehind(buf, at, n, start, a);
      }
    }

    /** The fragment behind a header that was written. */
    method EncodeBehind(buf: array<byte>, at: nat, n: nat, ghost start: seq<byte>, ghost a: Step) returns (m: nat)
      requires HeadersReady(Fields()) && n == |a.out| && at + n <= buf.Length == |start|
      requires buf[..] == Splice(start, at, a.out) && Fields() == a.next
      modifies this, buf
      ensures var step := AndThen(a, FragmentStep(a.next, buf.Length - (at + n)));
              && m == |step.out| && at + m <= buf.Length && buf[..] == Splice(start, at, step.out)
              && Fields() == step.next
    {
      ghost var b := FragmentStep(a.next, buf.Length - (at + n));
      var written := EncodeHeadersPayload(buf, at + n);
      SpliceTwice(start, at, a.out, b.out);
      m := n + written;
    }

    method EncodeHeadersHeader(buf: array<byte>, at: nat) returns (n: nat)
      requires HeadersReady(Fields()) && encodedBytes < 9 && at <= buf.Length
      modifies this`encodedBytes, buf
      ensures Did(HeadersHeaderStep(old(Fields()), buf.Length - at), buf, at, n)
    {
      n := HeaderEnd(Fields(), buf.Length - at) - encodedBytes;
      var frame := currentFrame.value;
      WriteHeader(buf, at, encodedBytes, n, remainingHeaderPayload, HEADERS, HeadersFlags(frame.flags, hpackQueue == []),
                  frame.id);
      encodedBytes := encodedBytes + n;
    }

    method EncodeHeadersPayload(buf: array<byte>, at: nat) returns (n: nat)
      requires HeadersReady(Fields()) && at <= buf.Length
      modifies this, buf
      ensures Did(FragmentStep(old(Fields()), buf.Length - at), buf, at, n)
    {
      n := Min(buf.Length - at, remainingHeaderPayload - headerPayloadIndex);
      CopyFragment(buf, at, n);
      HeadersHeaderStatus();
    }

    method CopyFragment(buf: array<byte>, at: nat, n: nat)
      requires headerPayloadIndex + n <= |headerPayloadBuffer| && at + n <= buf.Length
      modifies this`headerPayloadIndex, this`encodedBytes, buf
      ensures headerPayloadIndex == old(headerPayloadIndex) + n && encodedBytes == old(encodedBytes) + n
      ensures buf[..] == Splice(old(buf[..]), at, headerPayloadBuffer[old(headerPayloadIndex)..old(headerPayloadIndex) + n])
    {
      Copy(buf, at, headerPayloadBuffer[headerPayloadIndex..headerPayloadIndex + n]);
      headerPayloadIndex := headerPayloadIndex + n;
      encodedBytes := encodedBytes + n;
    }

    method HeadersHeaderStatus()
      requires HeadersReady(Fields())
      modifies this
      ensures Fields() == HeadersStatus(old(Fields()))
    {
      if headerPayloadIndex < remainingHeaderPayload {
        state := EncodingHeadersPayload;
      } else if hpackQueue == [] {
        headerPayloadIndex := 0;
        isEndStream := false;
        currentFrame := None;
        isEndHeaders := false;
        remainingHeaderPayload := 0;
        encodedBytes := 0;
        state := HeadersComplete;
      } else {
        headerPayloadIndex := 0;
        remainingHeaderPayload := HpackEncode();
        state := EncodingContinuationFrames;
      }
    }

    method EncodeContinuationFrames(buf: array<byte>, at: nat) returns (n: nat)
      requires HeadersReady(Fields()) && at <= buf.Length
      modifies this, buf
      ensures Did(ContinuationStep(old(Fields()), buf.Length - at), buf, at, n)
    {
      if buf.Length - at < 9 {
        return 0;
      }
      ghost var s, start := Fields(), buf[..];
      ghost var h := ContinuationHeader(currentFrame.value, remainingHeaderPayload, hpackQueue);
      var frame := currentFrame.value;
      var length := Min(remainingHeaderPayload, maxFrameSize);
      var flags := if remainingHeaderPayload <= maxFrameSize && hpackQueue == [] && isEndHeaders then 4 else 0;
      WriteHeader(buf, at, 0, 9, length, CONTINUATION, flags, frame.id);
      assert h[0..9] == h;
      ContinuationIs(s, buf.Length - at, h);
      n := EncodeBehind(buf, at, 9, start, Step(h, s));
    }

    // DATA

    method EncodeDataHeader(buf: array<byte>, at: nat) returns (n: nat)
      requires DataReady(Fields()) && encodedBytes < 9 && at <= buf.Length
      modifies this, buf
      ensures Did(DataHeaderStep(old(Fields()), buf.Length - at), buf, at, n)
    {
      n := HeaderEnd(Fields(), buf.Length - at) - encodedBytes;
      var frame := currentFrame.value;
      WriteHeader(buf, at, encodedBytes, n, DataLeft(maxFrameSize, 0, remainingPayloadBytes), DATA,
                  DataFlags(frame.flags, remainingPayloadBytes <= maxFrameSize), frame.id);
      encodedBytes := encodedBytes + n;
      if encodedBytes == 9 {
        encodedBytes := 0;
        state := EncodingDataPayload;
      }
    }

    method EncodeDataPayload(buf: array<byte>, at: nat) returns (n: nat)
      requires DataReady(Fields()) && at <= buf.Length
      modifies this, buf
      ensures Did(DataPayloadStep(old(Fields()), buf.Length - at), buf, at, n)
    {
      n := Min(buf.Length - at, DataLeft(maxFrameSize, dataOffset, remainingPayloadBytes));
      Copy(buf, at, currentFrame.value.payload.data[dataOffset..dataOffset + n]);
      DataStatus(n);
    }

    /** `n` octets of a DATA payload were written. */
    method DataStatus(n: nat)
      requires DataReady(Fields()) && n <= DataLeft(maxFrameSize, dataOffset, remainingPayloadBytes)
      modifies this`dataOffset, this`remainingPayloadBytes, this`state
      ensures Fields() == EmitData(old(Fields()), n).next
    {
      dataOffset := dataOffset + n;
      remainingPayloadBytes := remainingPayloadBytes - n;
      if remainingPayloadBytes == 0 {
        dataOffset := 0;
        state := DataComplete;
      } else if dataOffset == maxFrameSize {
        dataOffset := 0;
        state := EncodingDataHeader;
      }
    }

    // Control frames

    method EncodeControl(buf: array<byte>) returns (r: Encoded)
      requires Valid(Fields()) && Controls(Fields())
      modifies this`state, this`encodedBytes, buf
      ensures Called(buf, CallOn(old(currentFrame).value, old(ProgressOf(Fields())), old(buf[..])), r)
      ensures old(Resumes(Fields())) ==>
                r.Count? && Moved(buf, r.n) && Advances(old(Fields()), Fields(), buf.Length, r.n)
      ensures Valid(Fields())
    {
      ghost var s, before := Fields(), buf[..];
      r := ControlLoop(buf);
      ControlRemains(Fields());
      if Resumes(s) {
        ControlCallMoves(s, before);
        ControlAdvances(s, before, Fields(), Call(buf[..], r.n, ProgressOf(Fields())));
      }
    }

    /** A call that has written `n` octets ends here. */
    predicate Ends(buf: array<byte>, n: nat, call: Option<Call>)
      reads this, buf
    {
      n <= buf.Length && call == Some(Call(buf[..], n, ProgressOf(Fields())))
    }

    /** A call that has written the header goes on with the payload. */
    predicate Behind(buf: array<byte>, n: nat, call: Option<Call>)
      reads this, buf
    {
      && state.EncodingControlPayload? && ControlReady(Fields()) && n <= buf.Length
      && Running(currentFrame.value, InPayload(encodedBytes))
      && call == Some(PayloadOn(currentFrame.value, InPayload(encodedBytes), buf[..], n))
    }

    /** The loop for control frames. */
    method ControlLoop(buf: array<byte>) returns (r: Encoded)
      requires Valid(Fields()) && Controls(Fields())
      modifies this`state, this`encodedBytes, buf
      ensures Called(buf, CallOn(old(currentFrame).value, old(ProgressOf(Fields())), old(buf[..])), r)
      ensures ControlReady(Fields()) && Running(currentFrame.value, ProgressOf(Fields()))
    {
      ghost var call := CallOn(currentFrame.value, ProgressOf(Fields()), buf[..]);
      var n: nat := 0;
      while n < buf.Length
        invariant state.EncodingControlFrame? ==> n == 0 && Fields() == old(Fields()) && buf[..] == old(buf[..])
        invariant state.EncodingControlPayload? ==> Behind(buf, n, call)
        invariant !Controls(Fields()) ==> state.DataComplete? && Ends(buf, n, call)
        decreases if state.EncodingControlFrame? then 2 else if state.EncodingControlPayload? then 1 else 0
      {
        if state.DataComplete? {
          break;
        }
        if state.EncodingControlFrame? {
          var ok;
          ok, n := HeaderTurn(buf, call);
          if !ok { return Panic; }
          if state.EncodingControlFrame? { return Count(n); }
        } else {
          n := PayloadTurn(buf, n, call);
          if state.EncodingControlPayload? { return Count(n); }
        }
      }
      if state.EncodingControlPayload? {
        FullBuffer(currentFrame.value, InPayload(encodedBytes), buf[..]);
      }
      return Count(n);
    }

    method HeaderTurn(buf: array<byte>, ghost call: Option<Call>) returns (ok: bool, n: nat)
      requires ControlReady(Fields()) && state.EncodingControlFrame? && encodedBytes < 9 && 0 < buf.Length
      requires call == CallOn(currentFrame.value, InHeader(encodedBytes), buf[..])
      modifies this`state, this`encodedBytes, buf
      ensures Controls(Fields()) && (!ok ==> call.None? && Fields() == old(Fields()))
      ensures ok ==> if state.EncodingControlFrame? then Ends(buf, n, call) else Behind(buf, n, call)
    {
      CallByHeader(currentFrame.value, encodedBytes, buf[..]);
      ok, n := EncodeControlFrame(buf);
    }

    method PayloadTurn(buf: array<byte>, n: nat, ghost call: Option<Call>) returns (m: nat)
      requires Behind(buf, n, call) && n < buf.Length
      modifies this`state, this`encodedBytes, buf
      ensures Ends(buf, m, call) && (state.EncodingControlPayload? || state.DataComplete?)
    {
      var written := EncodeControlPayload(buf, n);
      m := n + written;
    }

    method EncodeControlFrame(buf: array<byte>) returns (ok: bool, n: nat)
      requires ControlReady(Fields()) && state.EncodingControlFrame? && encodedBytes < 9
      modifies this`state, this`encodedBytes, buf
      ensures HeaderOn(currentFrame.value, old(encodedBytes), old(buf[..]))
              == if ok then Some(Call(buf[..], n, ProgressOf(Fields()))) else None
      ensures Controls(Fields()) && (!ok ==> Fields() == old(Fields()))
    {
      n := Min(9 - encodedBytes, buf.Length);
      ok := WriteControlHeader(currentFrame.value, buf, encodedBytes, n);
      if ok {
        encodedBytes := encodedBytes + n;
        if encodedBytes == 9 {
          state := EncodingControlPayload;
          if currentFrame.value.payload.WindowUpdate? {
            encodedBytes := 0;
          }
        }
      }
    }

    method EncodeControlPayload(buf: array<byte>, at: nat) returns (n: nat)
      requires ControlReady(Fields()) && state.EncodingControlPayload? && at < buf.Length
      requires Running(currentFrame.value, InPayload(encodedBytes))
      modifies this`state, this`encodedBytes, buf
      ensures PayloadOn(currentFrame.value, InPayload(old(encodedBytes)), old(buf[..]), at)
              == Call(buf[..], at + n, ProgressOf(Fields()))
      ensures state.EncodingControlPayload? || state.DataComplete?
    {
      n := WritePayload(currentFrame.value, encodedBytes, buf, at);
      PayloadStatus(n);
    }

    /** `n` octets of a control payload were written. */
    method PayloadStatus(n: nat)
      requires ControlReady(Fields()) && state.EncodingControlPayload?
      modifies this`state, this`encodedBytes
      ensures ProgressOf(Fields()) == AfterPayload(currentFrame.value, old(encodedBytes) + n)
      ensures state.EncodingControlPayload? || state.DataComplete?
    {
      var p := currentFrame.value.payload;
      encodedBytes := encodedBytes + n;
      if encodedBytes == (if p.WindowUpdate? then 4 else 9 + |ControlPayload(p)|) {
        state := DataComplete;
      }
    }
  }

  lemma Split(pending: seq<byte>, done: seq<byte>, rest: seq<byte>)
    requires pending == done + rest
    ensures pending[..|done|] == done && pending[|done|..] == rest
  {
  }
}
