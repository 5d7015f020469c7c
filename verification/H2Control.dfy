/**
 * How the control frames of HTTP/2 get into one buffer after the other (ylong_http/src/h2/encoder.rs).
 *
 * A call that picks up the header of SETTINGS, PING or RST_STREAM, or the payload of WINDOW_UPDATE, does not
 * always go on where the call before it stopped. `CallOn` is what the calls do, in every case; the rest of the
 * module says for which sizes of buffers the octets are those of the frame.
 */
module H2Control {
  import opened Octets
  import opened Buffers
  import opened H2Frame
  import opened H2Wire

  /** How far a control frame is; `encoded` is the source's counter, which WINDOW_UPDATE sets back to 0. */
  datatype Progress =
    | InHeader(encoded: nat)
    | InPayload(encoded: nat)
    | Sent

  /** The buffer behind a call, how many octets of it were written, and how far the frame is. */
  datatype Call = Call(buf: seq<byte>, n: nat, progress: Progress)

  predicate Running(frame: OutFrame, progress: Progress)
    requires IsControl(frame.payload)
  {
    match progress
    case InHeader(e) => e < 9
    case InPayload(e) =>
      if frame.payload.WindowUpdate? then e <= 13 && e != 4 else 9 <= e <= 9 + |ControlPayload(frame.payload)|
    case Sent => true
  }

  // ---------------------------------------------------------------------------
  // One call.
  // ---------------------------------------------------------------------------

  /**
   * The header of SETTINGS and PING from octet `from` on: length octets are indexed from the start of this
   * call's buffer, and type and flags go to its octets 3 and 4. A buffer without them is a panic.
   */
  function StreamZeroLoop(
    buf: seq<byte>, from: nat, i: nat, n: nat, length: nat, frameType: byte, flags: byte): (r: Option<seq<byte>>)
    requires i <= n <= |buf| && from + n <= 9
    ensures r.Some? ==> |r.value| == |buf|
    decreases n - i
  {
    if i == n then Some(buf)
    else if from + i <= 2 then
      StreamZeroLoop(buf[i := Digit(length, 2 - i)], from, i + 1, n, length, frameType, flags)
    else if from + i == 3 then
      if |buf| <= 3 then None else StreamZeroLoop(buf[3 := frameType], from, i + 1, n, length, frameType, flags)
    else if from + i == 4 then
      if |buf| <= 4 then None else StreamZeroLoop(buf[4 := flags], from, i + 1, n, length, frameType, flags)
    else
      StreamZeroLoop(buf[i := 0], from, i + 1, n, length, frameType, flags)
  }

  /**
   * The header of RST_STREAM from octet `from` on: length and stream octets are indexed from the start of this
   * call's buffer. A stream octet in one of its first five places is a subtraction that overflows.
   */
  function ResetLoop(buf: seq<byte>, from: nat, i: nat, n: nat, flags: byte, id: nat): (r: Option<seq<byte>>)
    requires i <= n <= |buf| && from + n <= 9
    ensures r.Some? ==> |r.value| == |buf|
    decreases n - i
  {
    if i == n then Some(buf)
    else if from + i <= 2 then ResetLoop(buf[i := Digit(4, 2 - i)], from, i + 1, n, flags, id)
    else if from + i == 3 then ResetLoop(buf[i := RST_STREAM], from, i + 1, n, flags, id)
    else if from + i == 4 then ResetLoop(buf[i := flags], from, i + 1, n, flags, id)
    else if i < 5 then None
    else ResetLoop(buf[i := Digit(id, 3 - (i - 5))], from, i + 1, n, flags, id)
  }

  /** `n` octets of the header from octet `from` on, at the start of `buf`. */
  function HeaderWrite(frame: OutFrame, buf: seq<byte>, from: nat, n: nat): (r: Option<seq<byte>>)
    requires IsControl(frame.payload) && n <= |buf| && from + n <= 9
    ensures r.Some? ==> |r.value| == |buf|
  {
    if frame.payload.Settings? || frame.payload.Ping? then
      StreamZeroLoop(buf, from, 0, n, |ControlPayload(frame.payload)|, ControlType(frame.payload), frame.flags)
    else if frame.payload.RstStream? then ResetLoop(buf, from, 0, n, frame.flags, frame.id)
    else Some(Splice(buf, 0, ControlHeader(frame)[from..from + n]))
  }

  function AfterHeader(frame: OutFrame, e: nat): Progress {
    if e < 9 then InHeader(e) else InPayload(if frame.payload.WindowUpdate? then 0 else 9)
  }

  /** Where a payload is picked up. */
  function PayloadFrom(e: nat): nat {
    if e <= 9 then 0 else e - 9
  }

  function AfterPayload(frame: OutFrame, e: nat): Progress
    requires IsControl(frame.payload)
  {
    if e == (if frame.payload.WindowUpdate? then 4 else 9 + |ControlPayload(frame.payload)|) then Sent else InPayload(e)
  }

  /** A call that is in the payload, or behind it, and has written `n` octets of `buf`. */
  function PayloadOn(frame: OutFrame, progress: Progress, buf: seq<byte>, n: nat): (r: Call)
    requires IsControl(frame.payload) && Running(frame, progress) && !progress.InHeader? && n <= |buf|
    ensures Running(frame, r.progress) && |r.buf| == |buf| && n <= r.n <= |buf|
  {
    if n == |buf| || progress.Sent? then Call(buf, n, progress)
    else
      var p := ControlPayload(frame.payload);
      var from := PayloadFrom(progress.encoded);
      var m := Min(|buf| - n, |p| - from);
      Call(Splice(buf, n, p[from..from + m]), n + m, AfterPayload(frame, progress.encoded + m))
  }

  /** The part of a call that writes the header; `None` for a panic. */
  function HeaderOn(frame: OutFrame, e: nat, buf: seq<byte>): (r: Option<Call>)
    requires IsControl(frame.payload) && e < 9
    ensures r.Some? ==> Running(frame, r.value.progress) && |r.value.buf| == |buf| && r.value.n <= |buf|
  {
    var m := Min(9 - e, |buf|);
    var written := HeaderWrite(frame, buf, e, m);
    if written.None? then None else Some(Call(written.value, m, AfterHeader(frame, e + m)))
  }

  function CallOn(frame: OutFrame, progress: Progress, buf: seq<byte>): (r: Option<Call>)
    requires IsControl(frame.payload) && Running(frame, progress)
    ensures r.Some? ==> Running(frame, r.value.progress) && |r.value.buf| == |buf| && r.value.n <= |buf|
  {
    if buf != [] && progress.InHeader? then
      var call := HeaderOn(frame, progress.encoded, buf);
      if call.None? || call.value.progress.InHeader? then call
      else Some(PayloadOn(frame, call.value.progress, call.value.buf, call.value.n))
    else if progress.InHeader? then Some(Call(buf, 0, progress))
    else Some(PayloadOn(frame, progress, buf, 0))
  }

  /** A call goes on behind the header, or ends in it. */
  lemma CallByHeader(frame: OutFrame, e: nat, buf: seq<byte>)
    requires IsControl(frame.payload) && e < 9 && buf != []
    ensures var head, call := HeaderOn(frame, e, buf), CallOn(frame, InHeader(e), buf);
            && (head.None? ==> call.None?)
            && (head.Some? && head.value.progress.InHeader? ==> call == head)
            && (head.Some? && !head.value.progress.InHeader? ==>
                  call == Some(PayloadOn(frame, head.value.progress, head.value.buf, head.value.n)))
  {
  }

  lemma FullBuffer(frame: OutFrame, progress: Progress, buf: seq<byte>)
    requires IsControl(frame.payload) && Running(frame, progress) && !progress.InHeader?
    ensures PayloadOn(frame, progress, buf, |buf|) == Call(buf, |buf|, progress)
  {
  }

  lemma PayloadOnIs(frame: OutFrame, e: nat, buf: seq<byte>, n: nat, from: nat, m: nat)
    requires IsControl(frame.payload) && Running(frame, InPayload(e)) && n < |buf| && from == PayloadFrom(e)
    requires m == Min(|buf| - n, |ControlPayload(frame.payload)| - from)
    ensures PayloadOn(frame, InPayload(e), buf, n)
            == Call(Splice(buf, n, ControlPayload(frame.payload)[from..from + m]), n + m, AfterPayload(frame, e + m))
  {
  }

  // The loops that write headers. `ok` is false for a panic.

  method WriteStreamZeroHeader(buf: array<byte>, from: nat, n: nat, length: nat, frameType: byte, flags: byte)
    returns (ok: bool)
    requires n <= buf.Length && from + n <= 9
    modifies buf
    ensures ok <==> StreamZeroLoop(old(buf[..]), from, 0, n, length, frameType, flags).Some?
    ensures ok ==> Some(buf[..]) == StreamZeroLoop(old(buf[..]), from, 0, n, length, frameType, flags)
  {
    for i := 0 to n
      invariant StreamZeroLoop(old(buf[..]), from, 0, n, length, frameType, flags)
                == StreamZeroLoop(buf[..], from, i, n, length, frameType, flags)
    {
      var index := from + i;
      if index <= 2 {
        buf[i] := Digit(length, 2 - i);
      } else if index == 3 {
        if buf.Length <= 3 { return false; }
        buf[3] := frameType;
      } else if index == 4 {
        if buf.Length <= 4 { return false; }
        buf[4] := flags;
      } else {
        buf[i] := 0;
      }
    }
    return true;
  }

  method WriteResetHeader(buf: array<byte>, from: nat, n: nat, flags: byte, id: nat) returns (ok: bool)
    requires n <= buf.Length && from + n <= 9
    modifies buf
    ensures ok <==> ResetLoop(old(buf[..]), from, 0, n, flags, id).Some?
    ensures ok ==> Some(buf[..]) == ResetLoop(old(buf[..]), from, 0, n, flags, id)
  {
    for i := 0 to n
      invariant ResetLoop(old(buf[..]), from, 0, n, flags, id) == ResetLoop(buf[..], from, i, n, flags, id)
    {
      var index := from + i;
      if index <= 2 {
        buf[i] := Digit(4, 2 - i);
      } else if index == 3 {
        buf[i] := RST_STREAM;
      } else if index == 4 {
        buf[i] := flags;
      } else {
        if i < 5 { return false; }
        buf[i] := Digit(id, 3 - (i - 5));
      }
    }
    return true;
  }

  method WriteControlHeader(frame: OutFrame, buf: array<byte>, from: nat, n: nat) returns (ok: bool)
    requires IsControl(frame.payload) && n <= buf.Length && from + n <= 9
    modifies buf
    ensures ok <==> HeaderWrite(frame, old(buf[..]), from, n).Some?
    ensures ok ==> Some(buf[..]) == HeaderWrite(frame, old(buf[..]), from, n)
  {
    var length, code := |ControlPayload(frame.payload)|, ControlType(frame.payload);
    if frame.payload.Settings? || frame.payload.Ping? {
      ok := WriteStreamZeroHeader(buf, from, n, length, code, frame.flags);
    } else if frame.payload.RstStream? {
      ok := WriteResetHeader(buf, from, n, frame.flags, frame.id);
    } else {
      WriteHeader(buf, 0, from, n, length, code, frame.flags, frame.id);
      ok := true;
    }
  }

  /** As much of the payload as fits behind the first `at` octets. */
  method WritePayload(frame: OutFrame, e: nat, buf: array<byte>, at: nat) returns (n: nat)
    requires IsControl(frame.payload) && Running(frame, InPayload(e)) && at < buf.Length
    modifies buf
    ensures PayloadOn(frame, InPayload(e), old(buf[..]), at) == Call(buf[..], at + n, AfterPayload(frame, e + n))
  {
    var from := PayloadFrom(e);
    n := Min(buf.Length - at, |ControlPayload(frame.payload)| - from);
    PayloadOnIs(frame, e, buf[..], at, from, n);
    WriteControlPayload(buf, at, from, n, frame.payload);
  }

  /** What was written by call after call, and how far the frame is. */
  datatype Trace = Trace(out: seq<byte>, progress: Progress)

  /** A new frame behind calls with the first `k` of the buffers `rooms`, given with what they held before. */
  function Calls(frame: OutFrame, rooms: seq<seq<byte>>, k: nat): (r: Option<Trace>)
    requires IsControl(frame.payload) && k <= |rooms|
    ensures r.Some? ==> Running(frame, r.value.progress)
  {
    if k == 0 then Some(Trace([], InHeader(0)))
    else
      var before := Calls(frame, rooms, k - 1);
      if before.None? then None else NextCall(frame, before.value, rooms[k - 1])
  }

  function NextCall(frame: OutFrame, t: Trace, buf: seq<byte>): (r: Option<Trace>)
    requires IsControl(frame.payload) && Running(frame, t.progress)
    ensures r.Some? ==> Running(frame, r.value.progress)
  {
    var call := CallOn(frame, t.progress, buf);
    if call.None? then None else Some(Trace(t.out + call.value.buf[..call.value.n], call.value.progress))
  }

  lemma CallsNext(frame: OutFrame, rooms: seq<seq<byte>>, k: nat)
    requires IsControl(frame.payload) && k < |rooms|
    ensures var before := Calls(frame, rooms, k);
            Calls(frame, rooms, k + 1) == if before.None? then None else NextCall(frame, before.value, rooms[k])
  {
  }

  lemma PanicStays(frame: OutFrame, rooms: seq<seq<byte>>, i: nat, k: nat)
    requires IsControl(frame.payload) && i <= k <= |rooms| && Calls(frame, rooms, i).None?
    ensures Calls(frame, rooms, k).None?
  {
    for j := i to k
      invariant Calls(frame, rooms, j).None?
    {
      CallsNext(frame, rooms, j);
    }
  }

  // ---------------------------------------------------------------------------
  // Frames that are picked up where they were left.
  // ---------------------------------------------------------------------------

  /** Octets a buffer must not end behind. */
  predicate Forbidden(p: Payload<seq<byte>>, position: nat) {
    match p
    case Settings(_) => 1 <= position <= 4
    case Ping(_) => 1 <= position <= 4
    case RstStream(_) => 1 <= position <= 8
    case WindowUpdate(_) => 10 <= position <= 12
    case _ => false
  }

  /** How many octets of the frame were sent, if every call went on where the one before it stopped. */
  function Position(frame: OutFrame, progress: Progress): nat
    requires IsControl(frame.payload)
  {
    match progress
    case InHeader(e) => e
    case InPayload(e) => if frame.payload.WindowUpdate? then 9 + e else e
    case Sent => |ControlWire(frame)|
  }

  /** The next call goes on where the last one stopped. */
  predicate Resumable(frame: OutFrame, progress: Progress)
    requires IsControl(frame.payload)
  {
    && Running(frame, progress) && Position(frame, progress) <= |ControlWire(frame)|
    && !Forbidden(frame.payload, Position(frame, progress))
  }

  /** What is still to be sent. */
  function ControlPending(frame: OutFrame, progress: Progress): seq<byte>
    requires IsControl(frame.payload)
  {
    var k := Position(frame, progress);
    if k <= |ControlWire(frame)| then ControlWire(frame)[k..] else []
  }

  lemma {:induction false} StreamZeroGood(
    buf: seq<byte>, from: nat, i: nat, n: nat, length: nat, frameType: byte, flags: byte)
    requires i <= n <= |buf| && from + n <= 9 && (from == 0 || 5 <= from)
    ensures var h := HeaderBytes(length, frameType, flags, 0);
            StreamZeroLoop(Splice(buf, 0, h[from..from + i]), from, i, n, length, frameType, flags)
            == Some(Splice(buf, 0, h[from..from + n]))
    decreases n - i
  {
    if i < n {
      var h := HeaderBytes(length, frameType, flags, 0);
      SpliceNext(buf, 0, h, from, i);
      assert h[from + i] == HeaderByte(length, frameType, flags, 0, from + i);
      DigitOfZero(if from + i >= 5 then 3 - (from + i - 5) else 0);
      StreamZeroGood(buf, from, i + 1, n, length, frameType, flags);
    }
  }

  lemma {:induction false} ResetGood(buf: seq<byte>, i: nat, n: nat, flags: byte, id: nat)
    requires i <= n <= |buf| && n <= 9
    ensures var h := HeaderBytes(4, RST_STREAM, flags, id);
            ResetLoop(Splice(buf, 0, h[0..i]), 0, i, n, flags, id) == Some(Splice(buf, 0, h[0..n]))
    decreases n - i
  {
    if i < n {
      var h := HeaderBytes(4, RST_STREAM, flags, id);
      SpliceNext(buf, 0, h, 0, i);
      assert h[i] == HeaderByte(4, RST_STREAM, flags, id, i);
      ResetGood(buf, i + 1, n, flags, id);
    }
  }

  lemma SpliceNothing(buf: seq<byte>, h: seq<byte>, from: nat)
    requires from <= |h|
    ensures Splice(buf, 0, h[from..from + 0]) == buf
  {
  }

  lemma HeaderGood(frame: OutFrame, buf: seq<byte>, from: nat, n: nat)
    requires IsControl(frame.payload) && n <= |buf| && from + n <= 9 && !Forbidden(frame.payload, from) && from < 9
    ensures HeaderWrite(frame, buf, from, n) == Some(Splice(buf, 0, ControlHeader(frame)[from..from + n]))
  {
    var h := ControlHeader(frame);
    SpliceNothing(buf, h, from);
    if frame.payload.Settings? || frame.payload.Ping? {
      StreamZeroGood(buf, from, 0, n, |ControlPayload(frame.payload)|, ControlType(frame.payload), frame.flags);
    } else if frame.payload.RstStream? {
      ResetGood(buf, 0, n, frame.flags, frame.id);
    }
  }

  /** `n` octets of `wire` from octet `k` on were written to the start of `before`: as many as there is room for. */
  predicate Continues(wire: seq<byte>, k: nat, before: seq<byte>, buf: seq<byte>, n: nat, position: nat)
    requires k <= |wire|
  {
    && n == Min(|before|, |wire| - k)
    && buf == Splice(before, 0, wire[k..k + n])
    && position == k + n
  }

  /** A call that goes on with the frame at octet `k`. */
  predicate GoesOn(frame: OutFrame, k: nat, buf: seq<byte>, call: Option<Call>)
    requires IsControl(frame.payload) && k <= |ControlWire(frame)|
  {
    && call.Some?
    && Continues(ControlWire(frame), k, buf, call.value.buf, call.value.n, Position(frame, call.value.progress))
  }

  lemma PartOfHeader(h: seq<byte>, p: seq<byte>, k: nat, before: seq<byte>)
    requires k + |before| < |h|
    ensures Continues(h + p, k, before, Splice(before, 0, h[k..k + |before|]), |before|, k + |before|)
  {
    assert (h + p)[k..k + |before|] == h[k..k + |before|];
  }

  lemma PartOfPayload(h: seq<byte>, p: seq<byte>, k: nat, before: seq<byte>, m: nat)
    requires |h| == 9 && k <= |p| && m == Min(|before|, |p| - k)
    ensures Continues(h + p, 9 + k, before, Splice(before, 0, p[k..k + m]), m, 9 + k + m)
  {
    assert (h + p)[9 + k..9 + k + m] == p[k..k + m];
  }

  lemma PartOfBoth(h: seq<byte>, p: seq<byte>, k: nat, before: seq<byte>, m: nat)
    requires k <= |h| <= k + |before| && m == Min(|before| - (|h| - k), |p|)
    ensures Continues(h + p, k, before, Splice(before, 0, h[k..] + p[0..m]), |h| - k + m, |h| + m)
  {
    assert (h + p)[k..|h| + m] == h[k..] + p[0..m];
  }

  /** The part of the payload from octet `k` on that fits behind the first `n` octets of `buf`. */
  lemma PayloadCall(frame: OutFrame, progress: Progress, buf: seq<byte>, n: nat, k: nat, m: nat)
    requires IsControl(frame.payload) && Running(frame, progress) && progress.InPayload?
    requires k == PayloadFrom(progress.encoded) && n <= |buf| && m == Min(|buf| - n, |ControlPayload(frame.payload)| - k)
    requires Position(frame, progress) == 9 + k
    ensures var call := PayloadOn(frame, progress, buf, n);
            && call.n == n + m
            && call.buf == Splice(buf, n, ControlPayload(frame.payload)[k..k + m])
            && Position(frame, call.progress) == 9 + k + m
  {
  }

  /** Where a payload that resumes is picked up. */
  lemma PayloadPosition(frame: OutFrame, progress: Progress) returns (k: nat)
    requires IsControl(frame.payload) && Resumable(frame, progress) && progress.InPayload?
    ensures k == PayloadFrom(progress.encoded) <= |ControlPayload(frame.payload)|
    ensures Position(frame, progress) == 9 + k
  {
    k := PayloadFrom(progress.encoded);
  }

  lemma PayloadGoesOn(frame: OutFrame, progress: Progress, buf: seq<byte>, k: nat)
    requires IsControl(frame.payload) && Running(frame, progress) && progress.InPayload?
    requires k == PayloadFrom(progress.encoded) <= |ControlPayload(frame.payload)| && Position(frame, progress) == 9 + k
    ensures GoesOn(frame, 9 + k, buf, Some(PayloadOn(frame, progress, buf, 0)))
  {
    var p := ControlPayload(frame.payload);
    var m := Min(|buf|, |p| - k);
    PayloadCall(frame, progress, buf, 0, k, m);
    PartOfPayload(ControlHeader(frame), p, k, buf, m);
  }

  lemma HeaderPart(frame: OutFrame, e: nat, buf: seq<byte>)
    requires IsControl(frame.payload) && e + |buf| < 9 && !Forbidden(frame.payload, e)
    ensures GoesOn(frame, e, buf, CallOn(frame, InHeader(e), buf))
  {
    var n := |buf|;
    HeaderGood(frame, buf, e, n);
    PartOfHeader(ControlHeader(frame), ControlPayload(frame.payload), e, buf);
  }

  lemma HeaderCall(frame: OutFrame, e: nat, buf: seq<byte>)
    requires IsControl(frame.payload) && e < 9 <= e + |buf| && !Forbidden(frame.payload, e)
    ensures HeaderOn(frame, e, buf)
            == Some(Call(Splice(buf, 0, ControlHeader(frame)[e..]), 9 - e, AfterHeader(frame, 9)))
  {
    HeaderGood(frame, buf, e, 9 - e);
    assert ControlHeader(frame)[e..e + (9 - e)] == ControlHeader(frame)[e..];
  }

  /** A header and, behind it, as much of the payload as fits. */
  lemma PayloadBehind(frame: OutFrame, e: nat, buf: seq<byte>, h: seq<byte>, m: nat)
    requires IsControl(frame.payload) && e < 9 <= e + |buf| && |h| == 9 - e
    requires m == Min(|buf| - |h|, |ControlPayload(frame.payload)|)
    ensures var call := PayloadOn(frame, AfterHeader(frame, 9), Splice(buf, 0, h), |h|);
            && call.n == |h| + m
            && call.buf == Splice(buf, 0, h + ControlPayload(frame.payload)[0..m])
            && Position(frame, call.progress) == 9 + m
  {
    PayloadCall(frame, AfterHeader(frame, 9), Splice(buf, 0, h), |h|, 0, m);
    SpliceTwice(buf, 0, h, ControlPayload(frame.payload)[0..m]);
  }

  lemma HeaderWhole(frame: OutFrame, e: nat, buf: seq<byte>)
    requires IsControl(frame.payload) && e < 9 <= e + |buf| && !Forbidden(frame.payload, e)
    ensures GoesOn(frame, e, buf, CallOn(frame, InHeader(e), buf))
  {
    var h, p := ControlHeader(frame)[e..], ControlPayload(frame.payload);
    var m := Min(|buf| - |h|, |p|);
    HeaderCall(frame, e, buf);
    PayloadBehind(frame, e, buf, h, m);
    PartOfBoth(ControlHeader(frame), p, e, buf, m);
    CallByHeader(frame, e, buf);
  }

  /** From a state that resumes, a call writes what is pending, and as much of it as the buffer takes. */
  lemma CallGoesOn(frame: OutFrame, progress: Progress, buf: seq<byte>)
    requires IsControl(frame.payload) && Resumable(frame, progress)
    ensures GoesOn(frame, Position(frame, progress), buf, CallOn(frame, progress, buf))
  {
    match progress
    case InHeader(e) =>
      if e + |buf| < 9 {
        HeaderPart(frame, e, buf);
      } else {
        HeaderWhole(frame, e, buf);
      }
    case InPayload(_) =>
      var k := PayloadPosition(frame, progress);
      PayloadGoesOn(frame, progress, buf, k);
    case Sent =>
  }

  lemma ContinuesMoves(wire: seq<byte>, k: nat, before: seq<byte>, buf: seq<byte>, n: nat)
    requires k <= |wire| && Continues(wire, k, before, buf, n, k + n)
    ensures Moves(wire[k..], before, buf, n, wire[k + n..]) && n == Min(|before|, |wire[k..]|)
  {
    assert wire[k..][..n] == wire[k..k + n] && wire[k + n..] == wire[k..][n..];
  }

  /** The same in terms of what is pending. */
  lemma ControlMoves(frame: OutFrame, progress: Progress, buf: seq<byte>) returns (call: Call)
    requires IsControl(frame.payload) && Resumable(frame, progress)
    ensures CallOn(frame, progress, buf) == Some(call) && call.n == Min(|buf|, |ControlPending(frame, progress)|)
    ensures Position(frame, call.progress) == Position(frame, progress) + call.n <= |ControlWire(frame)|
    ensures Moves(ControlPending(frame, progress), buf, call.buf, call.n, ControlPending(frame, call.progress))
  {
    var k := Position(frame, progress);
    CallGoesOn(frame, progress, buf);
    call := CallOn(frame, progress, buf).value;
    ContinuesMoves(ControlWire(frame), k, buf, call.buf, call.n);
  }

  // ---------------------------------------------------------------------------
  // Call after call.
  // ---------------------------------------------------------------------------

  /** No buffer ends behind a forbidden octet. */
  predicate Clear(p: Payload<seq<byte>>, sizes: seq<nat>, k: nat)
    requires k <= |sizes|
  {
    forall j :: 0 <= j <= k ==> !Forbidden(p, Room(sizes, j))
  }

  predicate Sized(rooms: seq<seq<byte>>, sizes: seq<nat>) {
    |rooms| == |sizes| && forall i :: 0 <= i < |rooms| ==> |rooms[i]| == sizes[i]
  }

  /** `out` is as much of `wire` as there is room for. */
  predicate Tracks(wire: seq<byte>, out: seq<byte>, position: nat, room: nat) {
    position == |out| == Min(room, |wire|) && out == wire[..position]
  }

  /** Every call so far went on where the one before it stopped. */
  predicate OnTrack(frame: OutFrame, t: Option<Trace>, room: nat)
    requires IsControl(frame.payload)
  {
    && t.Some? && Running(frame, t.value.progress)
    && Tracks(ControlWire(frame), t.value.out, Position(frame, t.value.progress), room)
  }

  lemma ContinuesTracks(
    wire: seq<byte>, out: seq<byte>, k: nat, room: nat, before: seq<byte>, buf: seq<byte>, n: nat, position: nat)
    requires Tracks(wire, out, k, room) && Continues(wire, k, before, buf, n, position)
    ensures Tracks(wire, out + buf[..n], position, room + |before|)
  {
    Front(buf, before, wire[k..k + n]);
    Joined(wire, k, n);
  }

  lemma Joined(wire: seq<byte>, k: nat, n: nat)
    requires k + n <= |wire|
    ensures wire[..k] + wire[k..k + n] == wire[..k + n] && |wire[k..k + n]| == n
  {
  }

  lemma OnTrackResumes(frame: OutFrame, t: Trace, room: nat)
    requires IsControl(frame.payload) && OnTrack(frame, Some(t), room) && !Forbidden(frame.payload, room)
    ensures Resumable(frame, t.progress)
  {
  }

  lemma NextOnTrack(frame: OutFrame, t: Trace, buf: seq<byte>, room: nat)
    requires IsControl(frame.payload) && OnTrack(frame, Some(t), room) && !Forbidden(frame.payload, room)
    ensures OnTrack(frame, NextCall(frame, t, buf), room + |buf|)
  {
    OnTrackResumes(frame, t, room);
    CallGoesOn(frame, t.progress, buf);
    var call := CallOn(frame, t.progress, buf).value;
    ContinuesTracks(ControlWire(frame), t.out, |t.out|, room, buf, call.buf, call.n, Position(frame, call.progress));
  }

  lemma NewIsOnTrack(frame: OutFrame)
    requires IsControl(frame.payload)
    ensures OnTrack(frame, Some(Trace([], InHeader(0))), 0)
  {
  }

  /** If no buffer ends behind a forbidden octet, the calls write the frame, and as much of it as there is room. */
  lemma {:induction false} ClearIsOnTrack(frame: OutFrame, rooms: seq<seq<byte>>, sizes: seq<nat>, k: nat)
    requires IsControl(frame.payload) && Sized(rooms, sizes) && k <= |sizes|
    requires k == 0 || Clear(frame.payload, sizes, k - 1)
    ensures OnTrack(frame, Calls(frame, rooms, k), Room(sizes, k))
  {
    if k == 0 {
      NewIsOnTrack(frame);
    } else {
      ClearIsOnTrack(frame, rooms, sizes, k - 1);
      assert !Forbidden(frame.payload, Room(sizes, k - 1));
      var before := Calls(frame, rooms, k - 1).value;
      NextOnTrack(frame, before, rooms[k - 1], Room(sizes, k - 1));
      CallsNext(frame, rooms, k - 1);
      assert |rooms[k - 1]| == sizes[k - 1];
    }
  }

  // ---------------------------------------------------------------------------
  // Frames that are not.
  // ---------------------------------------------------------------------------

  predicate Differs(wire: seq<byte>, out: seq<byte>) {
    exists i :: 0 <= i < |out| && i < |wire| && out[i] != wire[i]
  }

  /** A buffer ended behind a forbidden octet, and nothing was written since; or the octets are wrong; or a panic. */
  predicate Astray(frame: OutFrame, t: Option<Trace>)
    requires IsControl(frame.payload)
  {
    || t.None?
    || (Position(frame, t.value.progress) == |t.value.out| && Forbidden(frame.payload, |t.value.out|))
    || Differs(ControlWire(frame), t.value.out)
  }

  lemma DiffersForEver(wire: seq<byte>, out: seq<byte>, more: seq<byte>)
    requires Differs(wire, out)
    ensures Differs(wire, out + more)
  {
    var i :| 0 <= i < |out| && i < |wire| && out[i] != wire[i];
    assert (out + more)[i] != wire[i];
  }

  /** Octet `d` of what is written behind `out` is wrong. */
  lemma DiffersAt(wire: seq<byte>, out: seq<byte>, more: seq<byte>, d: nat)
    requires d < |more| && |out| + d < |wire| && more[d] != wire[|out| + d]
    ensures Differs(wire, out + more)
  {
    assert (out + more)[|out| + d] != wire[|out| + d];
  }

  /** Where the octet goes that a header picked up at `from` fails to write: that of the type, or that of the flags. */
  function Hole(from: nat): nat {
    if from <= 3 then 3 - from else 0
  }

  lemma {:induction false} StreamZeroHole(
    buf: seq<byte>, from: nat, i: nat, n: nat, length: nat, frameType: byte, flags: byte)
    requires 1 <= from <= 4 && i <= n <= |buf| && from + n <= 9 && Hole(from) < |buf|
    ensures var r := StreamZeroLoop(buf, from, i, n, length, frameType, flags);
            r.Some? ==> r.value[Hole(from)] == buf[Hole(from)]
    decreases n - i
  {
    if i < n {
      if from + i <= 2 {
        StreamZeroHole(buf[i := Digit(length, 2 - i)], from, i + 1, n, length, frameType, flags);
      } else if from + i == 3 {
        if 3 < |buf| {
          StreamZeroHole(buf[3 := frameType], from, i + 1, n, length, frameType, flags);
        }
      } else if from + i == 4 {
        if 4 < |buf| {
          StreamZeroHole(buf[4 := flags], from, i + 1, n, length, frameType, flags);
        }
      } else {
        StreamZeroHole(buf[i := 0], from, i + 1, n, length, frameType, flags);
      }
    }
  }

  /** Where the first stream octet of an RST_STREAM header that is picked up at `from` goes. */
  function FirstStreamOctet(from: nat): nat {
    if from <= 5 then 5 - from else 0
  }

  lemma {:induction false} ResetPanics(buf: seq<byte>, from: nat, i: nat, n: nat, flags: byte, id: nat)
    requires 1 <= from && i <= FirstStreamOctet(from) < n <= |buf| && from + n <= 9
    ensures ResetLoop(buf, from, i, n, flags, id).None?
    decreases n - i
  {
    if i < FirstStreamOctet(from) {
      if from + i <= 2 {
        ResetPanics(buf[i := Digit(4, 2 - i)], from, i + 1, n, flags, id);
      } else if from + i == 3 {
        ResetPanics(buf[i := RST_STREAM], from, i + 1, n, flags, id);
      } else {
        ResetPanics(buf[i := flags], from, i + 1, n, flags, id);
      }
    }
  }

  /** The payload is written behind what was written before. */
  lemma PayloadKeeps(frame: OutFrame, progress: Progress, buf: seq<byte>, n: nat)
    requires IsControl(frame.payload) && Running(frame, progress) && !progress.InHeader? && n <= |buf|
    ensures PayloadOn(frame, progress, buf, n).buf[..n] == buf[..n]
  {
  }

  lemma CallKeepsHeader(frame: OutFrame, e: nat, buf: seq<byte>)
    requires IsControl(frame.payload) && e < 9 && buf != [] && HeaderOn(frame, e, buf).Some?
    ensures var head, call := HeaderOn(frame, e, buf).value, CallOn(frame, InHeader(e), buf);
            call.Some? && head.n <= call.value.n && call.value.buf[..head.n] == head.buf[..head.n]
  {
    var head := HeaderOn(frame, e, buf).value;
    if !head.progress.InHeader? {
      PayloadKeeps(frame, head.progress, head.buf, head.n);
    }
  }

  /** The wire has the type at octet 3 and the flags at octet 4. */
  lemma WireAt(frame: OutFrame)
    requires IsControl(frame.payload)
    ensures |ControlWire(frame)| == 9 + |ControlPayload(frame.payload)|
    ensures ControlWire(frame)[3] == ControlType(frame.payload) && ControlWire(frame)[4] == frame.flags
  {
  }

  predicate Filled(buf: seq<byte>, x: byte) {
    forall i :: 0 <= i < |buf| ==> buf[i] == x
  }

  /** The octet that is not written is found as it was. */
  lemma StreamZeroUnwritten(frame: OutFrame, e: nat, buf: seq<byte>)
    requires (frame.payload.Settings? || frame.payload.Ping?) && 1 <= e <= 4 && Hole(e) < Min(9 - e, |buf|)
    requires HeaderOn(frame, e, buf).Some?
    ensures var call := CallOn(frame, InHeader(e), buf);
            call.Some? && Hole(e) < call.value.n && call.value.buf[..call.value.n][Hole(e)] == buf[Hole(e)]
  {
    var head, d := HeaderOn(frame, e, buf).value, Hole(e);
    CallKeepsHeader(frame, e, buf);
    var call := CallOn(frame, InHeader(e), buf).value;
    StreamZeroHole(buf, e, 0, head.n, |ControlPayload(frame.payload)|, ControlType(frame.payload), frame.flags);
    assert call.buf[d] == call.buf[..head.n][d] == head.buf[..head.n][d] == head.buf[d];
  }

  lemma StreamZeroAstray(frame: OutFrame, e: nat, out: seq<byte>, buf: seq<byte>, x: byte)
    requires (frame.payload.Settings? || frame.payload.Ping?) && 1 <= e == |out| <= 4 && buf != []
    requires Filled(buf, x) && x != ControlType(frame.payload) && x != frame.flags
    ensures Astray(frame, NextCall(frame, Trace(out, InHeader(e)), buf))
  {
    CallByHeader(frame, e, buf);
    if HeaderOn(frame, e, buf).Some? && Hole(e) < Min(9 - e, |buf|) {
      StreamZeroUnwritten(frame, e, buf);
      var call := CallOn(frame, InHeader(e), buf).value;
      WireAt(frame);
      DiffersAt(ControlWire(frame), out, call.buf[..call.n], Hole(e));
    }
  }

  lemma ResetAstray(frame: OutFrame, e: nat, out: seq<byte>, buf: seq<byte>)
    requires frame.payload.RstStream? && 1 <= e == |out| <= 8 && buf != []
    ensures Astray(frame, NextCall(frame, Trace(out, InHeader(e)), buf))
  {
    var m := Min(9 - e, |buf|);
    if FirstStreamOctet(e) < m {
      ResetPanics(buf, e, 0, m, frame.flags, frame.id);
    }
  }

  /** Increments whose first octet is found at no other place. */
  predicate Telling(increment: nat) {
    var b := Be(increment, 4);
    b[0] != b[1] && b[0] != b[2] && b[0] != b[3]
  }

  lemma WindowUpdateAstray(frame: OutFrame, e: nat, out: seq<byte>, buf: seq<byte>)
    requires frame.payload.WindowUpdate? && Telling(frame.payload.increment)
    requires 1 <= e <= 3 && |out| == 9 + e && buf != []
    ensures Astray(frame, NextCall(frame, Trace(out, InPayload(e)), buf))
  {
    var call := PayloadOn(frame, InPayload(e), buf, 0);
    var b := Be(frame.payload.increment, 4);
    assert call.buf[..call.n][0] == b[0];
    assert ControlWire(frame)[9 + e] == b[e];
    DiffersAt(ControlWire(frame), out, call.buf[..call.n], 0);
  }

  /** Once a buffer ended behind a forbidden octet, the frame stays astray. */
  lemma NextAstray(frame: OutFrame, t: Trace, buf: seq<byte>, x: byte)
    requires IsControl(frame.payload) && Running(frame, t.progress) && Astray(frame, Some(t))
    requires Filled(buf, x) && x != ControlType(frame.payload) && x != frame.flags
    requires frame.payload.WindowUpdate? ==> Telling(frame.payload.increment)
    ensures Astray(frame, NextCall(frame, t, buf))
  {
    if Differs(ControlWire(frame), t.out) {
      if NextCall(frame, t, buf).Some? {
        var call := CallOn(frame, t.progress, buf).value;
        DiffersForEver(ControlWire(frame), t.out, call.buf[..call.n]);
      }
    } else if buf == [] {
      assert NextCall(frame, t, buf) == Some(Trace(t.out + [], t.progress));
      assert t.out + [] == t.out;
    } else if frame.payload.WindowUpdate? {
      WindowUpdateAstray(frame, t.progress.encoded, t.out, buf);
    } else if frame.payload.RstStream? {
      ResetAstray(frame, t.progress.encoded, t.out, buf);
    } else {
      StreamZeroAstray(frame, t.progress.encoded, t.out, buf, x);
    }
  }

  lemma CutIsAstray(frame: OutFrame, t: Option<Trace>, room: nat)
    requires IsControl(frame.payload) && OnTrack(frame, t, room) && Forbidden(frame.payload, room)
    ensures Astray(frame, t)
  {
    WireAt(frame);
  }

  lemma {:induction false} UnclearStrays(frame: OutFrame, rooms: seq<seq<byte>>, sizes: seq<nat>, k: nat, x: byte)
    requires IsControl(frame.payload) && Sized(rooms, sizes) && k <= |sizes| && !Clear(frame.payload, sizes, k)
    requires forall i :: 0 <= i < |rooms| ==> Filled(rooms[i], x)
    requires x != ControlType(frame.payload) && x != frame.flags
    requires frame.payload.WindowUpdate? ==> Telling(frame.payload.increment)
    ensures Astray(frame, Calls(frame, rooms, k))
  {
    if k > 0 && Clear(frame.payload, sizes, k - 1) {
      ClearIsOnTrack(frame, rooms, sizes, k);
      assert Forbidden(frame.payload, Room(sizes, k));
      CutIsAstray(frame, Calls(frame, rooms, k), Room(sizes, k));
    } else if k > 0 {
      UnclearStrays(frame, rooms, sizes, k - 1, x);
      if Calls(frame, rooms, k - 1).Some? {
        NextAstray(frame, Calls(frame, rooms, k - 1).value, rooms[k - 1], x);
      }
    }
  }

  lemma AstrayIsNotWhole(frame: OutFrame, t: Trace)
    requires IsControl(frame.payload) && Astray(frame, Some(t))
    ensures t.out != ControlWire(frame)
  {
    WireAt(frame);
  }

  /** The calls write the whole frame. */
  predicate Delivered(frame: OutFrame, rooms: seq<seq<byte>>)
    requires IsControl(frame.payload)
  {
    var t := Calls(frame, rooms, |rooms|);
    t.Some? && t.value.out == ControlWire(frame)
  }

  lemma ClearDelivers(frame: OutFrame, rooms: seq<seq<byte>>, sizes: seq<nat>)
    requires IsControl(frame.payload) && Sized(rooms, sizes) && Clear(frame.payload, sizes, |sizes|)
    requires |ControlWire(frame)| <= Room(sizes, |sizes|)
    ensures Delivered(frame, rooms)
  {
    ClearIsOnTrack(frame, rooms, sizes, |sizes|);
  }

  lemma UnclearFails(frame: OutFrame, sizes: seq<nat>) returns (rooms: seq<seq<byte>>)
    requires IsControl(frame.payload) && !Clear(frame.payload, sizes, |sizes|)
    requires frame.payload.WindowUpdate? ==> Telling(frame.payload.increment)
    ensures Sized(rooms, sizes) && !Delivered(frame, rooms)
  {
    var x: byte :| x != ControlType(frame.payload) && x != frame.flags && x <= 2;
    rooms := seq(|sizes|, i requires 0 <= i < |sizes| => seq(sizes[i], _ => x));
    UnclearStrays(frame, rooms, sizes, |sizes|, x);
    if Calls(frame, rooms, |rooms|).Some? {
      AstrayIsNotWhole(frame, Calls(frame, rooms, |rooms|).value);
    }
  }

  /**
   * A control frame other than WINDOW_UPDATE gets whole into buffers of these sizes, whatever they held before, if
   * and only if no buffer ends behind octets 1 to 4 of SETTINGS or PING, or behind octets 1 to 8 of RST_STREAM.
   */
  lemma DeliveredIff(frame: OutFrame, sizes: seq<nat>)
    requires IsControl(frame.payload) && !frame.payload.WindowUpdate?
    requires |ControlWire(frame)| <= Room(sizes, |sizes|)
    ensures Clear(frame.payload, sizes, |sizes|) <==> forall rooms | Sized(rooms, sizes) :: Delivered(frame, rooms)
  {
    if Clear(frame.payload, sizes, |sizes|) {
      forall rooms | Sized(rooms, sizes)
        ensures Delivered(frame, rooms)
      {
        ClearDelivers(frame, rooms, sizes);
      }
    } else {
      var rooms := UnclearFails(frame, sizes);
    }
  }

  /**
   * WINDOW_UPDATE frames get whole into buffers of these sizes, whatever the increment, if and only if no buffer
   * ends behind octets 10 to 12. (Four equal octets survive being started over.)
   */
  lemma WindowUpdateDeliveredIff(id: nat, flags: byte, sizes: seq<nat>)
    requires 13 <= Room(sizes, |sizes|)
    ensures Clear(WindowUpdate(0), sizes, |sizes|) <==>
            forall increment: nat, rooms | 0 < increment < 0x8000_0000 && Sized(rooms, sizes) ::
              Delivered(Frame(id, flags, WindowUpdate(increment)), rooms)
  {
    if Clear(WindowUpdate(0), sizes, |sizes|) {
      forall increment: nat, rooms | 0 < increment < 0x8000_0000 && Sized(rooms, sizes)
        ensures Delivered(Frame(id, flags, WindowUpdate(increment)), rooms)
      {
        var frame := Frame(id, flags, WindowUpdate(increment));
        assert forall j :: 0 <= j <= |sizes| ==> !Forbidden(WindowUpdate(0), Room(sizes, j));
        ClearDelivers(frame, rooms, sizes);
      }
    } else {
      var increment := 0x100_0000;
      SomeTell(increment);
      var j :| 0 <= j <= |sizes| && Forbidden(WindowUpdate(0), Room(sizes, j));
      assert Forbidden(WindowUpdate(increment), Room(sizes, j));
      var rooms := UnclearFails(Frame(id, flags, WindowUpdate(increment)), sizes);
    }
  }

  lemma SomeTell(increment: nat)
    requires increment == 0x100_0000
    ensures Telling(increment)
  {
    assert increment / 256 == 0x1_0000 && 0x1_0000 / 256 == 0x100 && 0x100 / 256 == 1;
    assert Digit(1, 0) == 1 && Digit(0x100, 1) == 1 && Digit(0x1_0000, 2) == 1;
    assert Digit(0x100, 0) == 0 && Digit(0x1_0000, 1) == 0 && Digit(0x1_0000, 0) == 0 && Digit(increment, 0) == 0;
    assert Digit(increment, 3) == 1 && Digit(increment, 2) == 0 && Digit(increment, 1) == 0;
  }
}
