/**
 * What the HTTP/2 frame encoder of ylong_http/src/h2/encoder.rs puts on the wire
 * for a whole frame, and how octets get into the caller's buffer.
 */
module H2Wire {
  import opened Octets
  import opened Buffers
  import opened H2Frame

  /** The header list of a HEADERS frame is given by the field block HPACK makes of it. */
  type OutFrame = Frame<seq<byte>>

  // ---------------------------------------------------------------------------
  // What goes on the wire.
  // ---------------------------------------------------------------------------

  function ContinuationFlags(last: bool): byte {
    if last then 4 else 0
  }

  function HeadersFlags(flags: byte, last: bool): byte {
    if last then flags else ClearEndHeaders(flags)
  }

  /** `queue` is what remains of the field block behind this frame. */
  function HeadersHeader(frame: OutFrame, length: nat, queue: seq<byte>): (r: seq<byte>)
    ensures |r| == 9
  {
    HeaderBytes(length, HEADERS, HeadersFlags(frame.flags, queue == []), frame.id)
  }

  function ContinuationHeader(frame: OutFrame, length: nat, queue: seq<byte>): (r: seq<byte>)
    ensures |r| == 9
  {
    HeaderBytes(length, CONTINUATION, ContinuationFlags(queue == []), frame.id)
  }

  /** The size of the next fragment of a field block. */
  function FragmentSize(block: seq<byte>): nat {
    Min(|block|, DEFAULT_MAX_FRAME_SIZE)
  }

  /** CONTINUATION frames for the rest of a field block. */
  function ContinuationWire(frame: OutFrame, block: seq<byte>): seq<byte> {
    if block == [] then [] else
    var n := FragmentSize(block);
    ContinuationHeader(frame, n, block[n..]) + (block[..n] + ContinuationWire(frame, block[n..]))
  }

  /** HEADERS and the CONTINUATION frames behind it. */
  function HeadersWire(frame: OutFrame, block: seq<byte>): seq<byte> {
    var n := FragmentSize(block);
    HeadersHeader(frame, n, block[n..]) + (block[..n] + ContinuationWire(frame, block[n..]))
  }

  function DataFlags(flags: byte, last: bool): byte {
    if last then flags else ClearEndStream(flags)
  }

  /** How much of a DATA frame's payload is left when `offset` octets of it were sent. */
  function DataLeft(max: nat, offset: nat, remaining: nat): nat
    requires offset <= max
  {
    Min(max - offset, remaining)
  }

  /** How much is left for the DATA frames behind it. */
  function DataBehind(max: nat, offset: nat, remaining: nat): nat
    requires offset <= max
  {
    remaining - DataLeft(max, offset, remaining)
  }

  function DataHeader(frame: OutFrame, max: nat, remaining: nat): (r: seq<byte>)
    ensures |r| == 9
  {
    HeaderBytes(DataLeft(max, 0, remaining), DATA, DataFlags(frame.flags, remaining <= max), frame.id)
  }

  /** The DATA frames for the last `remaining` octets. Each starts over at the first octet of the data. */
  function DataRest(frame: OutFrame, max: nat, remaining: nat): seq<byte>
    requires frame.payload.Data? && 0 < max && remaining <= |frame.payload.data|
    decreases remaining
  {
    if remaining == 0 then []
    else
      DataHeader(frame, max, remaining)
      + (frame.payload.data[0..DataLeft(max, 0, remaining)] + DataRest(frame, max, DataBehind(max, 0, remaining)))
  }

  /** All the DATA frames; at least one, for empty data too. */
  function DataWire(frame: OutFrame, max: nat): seq<byte>
    requires frame.payload.Data? && 0 < max
  {
    var n := |frame.payload.data|;
    DataHeader(frame, max, n)
    + (frame.payload.data[0..DataLeft(max, 0, n)] + DataRest(frame, max, DataBehind(max, 0, n)))
  }

  predicate IsControl(p: Payload<seq<byte>>) {
    p.Priority? || p.RstStream? || p.Ping? || p.Settings? || p.Goaway? || p.WindowUpdate?
  }

  function ControlType(p: Payload<seq<byte>>): byte
    requires IsControl(p)
  {
    match p
    case Priority(_, _, _) => PRIORITY
    case RstStream(_) => RST_STREAM
    case Ping(_) => PING
    case Settings(_) => SETTINGS
    case Goaway(_, _, _) => GOAWAY
    case WindowUpdate(_) => WINDOW_UPDATE
  }

  function SettingId(s: Setting): nat {
    match s
    case HeaderTableSize(_) => 1
    case EnablePush(_) => 2
    case MaxConcurrentStreams(_) => 3
    case InitialWindowSize(_) => 4
    case MaxFrameSize(_) => 5
    case MaxHeaderListSize(_) => 6
  }

  function SettingValue(s: Setting): nat {
    match s
    case HeaderTableSize(v) => v
    case EnablePush(v) => if v then 1 else 0
    case MaxConcurrentStreams(v) => v
    case InitialWindowSize(v) => v
    case MaxFrameSize(v) => v
    case MaxHeaderListSize(v) => v
  }

  function SettingBytes(s: Setting): (r: seq<byte>)
    ensures |r| == 6
  {
    Be(SettingId(s), 2) + Be(SettingValue(s), 4)
  }

  function SettingsBytes(settings: seq<Setting>): (r: seq<byte>)
    ensures |r| == 6 * |settings|
  {
    if settings == [] then [] else SettingBytes(settings[0]) + SettingsBytes(settings[1..])
  }

  /** The exclusive bit in front of the top seven bits of the dependency. */
  function PriorityByte(exclusive: bool, dependency: nat): byte {
    (if exclusive then 128 else 0) + Digit(dependency, 3) % 128
  }

  function ControlPayload(p: Payload<seq<byte>>): seq<byte>
    requires IsControl(p)
  {
    match p
    case Priority(exclusive, dependency, weight) =>
      [PriorityByte(exclusive, dependency)] + Be(dependency, 3) + [weight]
    case RstStream(code) => Be(code, 4)
    case Ping(data) => data
    case Settings(settings) => SettingsBytes(settings)
    case Goaway(code, last, debug) => Be(last, 4) + Be(code, 4) + debug
    case WindowUpdate(increment) => Be(increment, 4)
  }

  /** SETTINGS and PING are sent on stream 0, whatever the frame says. */
  function ControlId(frame: OutFrame): nat {
    if frame.payload.Settings? || frame.payload.Ping? then 0 else frame.id
  }

  function ControlHeader(frame: OutFrame): (r: seq<byte>)
    requires IsControl(frame.payload)
    ensures |r| == 9
  {
    HeaderBytes(|ControlPayload(frame.payload)|, ControlType(frame.payload), frame.flags, ControlId(frame))
  }

  function ControlWire(frame: OutFrame): seq<byte>
    requires IsControl(frame.payload)
  {
    ControlHeader(frame) + ControlPayload(frame.payload)
  }

  /** The whole frame as the encoder puts it on the wire. A PUSH_PROMISE frame is accepted and never sent. */
  function Wire(frame: OutFrame, max: nat): seq<byte>
    requires 0 < max
  {
    match frame.payload
    case Headers(block) => HeadersWire(frame, block)
    case Data(_) => DataWire(frame, max)
    case PushPromise(_, _) => []
    case _ => ControlWire(frame)
  }

  // ---------------------------------------------------------------------------
  // Octets by index, as the source computes them.
  // ---------------------------------------------------------------------------

  /** One octet of a SETTINGS payload: which setting, and which octet of it. */
  function SettingsByte(settings: seq<Setting>, index: nat): byte
    requires index < 6 * |settings|
  {
    var setting := settings[index / 6];
    var i := index % 6;
    if i <= 1 then Digit(SettingId(setting), 1 - i)
    else Digit(SettingValue(setting), 5 - i)
  }

  lemma {:induction false} SettingsByteCorrect(settings: seq<Setting>, index: nat)
    requires index < 6 * |settings|
    ensures SettingsByte(settings, index) == SettingsBytes(settings)[index]
  {
    if index >= 6 {
      SettingsByteCorrect(settings[1..], index - 6);
      assert (index - 6) / 6 == index / 6 - 1 && (index - 6) % 6 == index % 6;
      assert settings[1..][index / 6 - 1] == settings[index / 6];
    }
  }

  /** One octet of a control payload. */
  function ControlByte(p: Payload<seq<byte>>, index: nat): byte
    requires IsControl(p) && index < |ControlPayload(p)|
  {
    match p
    case Priority(exclusive, dependency, weight) =>
      if index == 0 then PriorityByte(exclusive, dependency)
      else if index < 4 then Digit(dependency, 3 - index)
      else weight
    case RstStream(code) => Digit(code, 3 - index)
    case Ping(data) => data[index]
    case Settings(settings) => SettingsByte(settings, index)
    case Goaway(code, last, debug) =>
      if index < 4 then Digit(last, 3 - index)
      else if index < 8 then Digit(code, 7 - index)
      else debug[index - 8]
    case WindowUpdate(increment) => Digit(increment, 3 - index)
  }

  lemma ControlByteCorrect(p: Payload<seq<byte>>, index: nat)
    requires IsControl(p) && index < |ControlPayload(p)|
    ensures ControlByte(p, index) == ControlPayload(p)[index]
  {
    if p.Settings? {
      SettingsByteCorrect(p.settings, index);
    }
  }

  // ---------------------------------------------------------------------------
  // Writing into the caller's buffer.
  // ---------------------------------------------------------------------------

  /** Octets `from .. from + n` of a frame header. */
  method WriteHeader(
    buf: array<byte>, at: nat, from: nat, n: nat, length: nat, frameType: byte, flags: byte, id: nat)
    requires at + n <= buf.Length && from + n <= 9
    modifies buf
    ensures buf[..] == Splice(old(buf[..]), at, HeaderBytes(length, frameType, flags, id)[from..from + n])
  {
    ghost var h := HeaderBytes(length, frameType, flags, id);
    for i := 0 to n
      invariant buf[..] == Splice(old(buf[..]), at, h[from..from + i])
    {
      SpliceNext(old(buf[..]), at, h, from, i);
      buf[at + i] := HeaderByte(length, frameType, flags, id, from + i);
    }
  }

  /** Octets `from .. from + n` of a control payload. */
  method WriteControlPayload(buf: array<byte>, at: nat, from: nat, n: nat, p: Payload<seq<byte>>)
    requires at + n <= buf.Length && IsControl(p) && from + n <= |ControlPayload(p)|
    modifies buf
    ensures buf[..] == Splice(old(buf[..]), at, ControlPayload(p)[from..from + n])
  {
    ghost var w := ControlPayload(p);
    for i := 0 to n
      invariant buf[..] == Splice(old(buf[..]), at, w[from..from + i])
    {
      SpliceNext(old(buf[..]), at, w, from, i);
      var b := ControlOctet(p, from + i);
      buf[at + i] := b;
    }
  }

  method ControlOctet(p: Payload<seq<byte>>, index: nat) returns (b: byte)
    requires IsControl(p) && index < |ControlPayload(p)|
    ensures b == ControlPayload(p)[index]
  {
    ControlByteCorrect(p, index);
    b := ControlByte(p, index);
  }
}
