/** HTTP/2 frames (sections 4.1 and 6 of RFC 9113). */
module H2Frame {
  import opened Octets

  datatype Setting =
    | HeaderTableSize(size: nat)
    | EnablePush(enabled: bool)
    | MaxConcurrentStreams(count: nat)
    | InitialWindowSize(size: nat)
    | MaxFrameSize(size: nat)
    | MaxHeaderListSize(size: nat)

  /** `P` stands for a decoded header list. */
  datatype Payload<+P> =
    | Headers(parts: P)
    | Data(data: seq<byte>)
    | Priority(exclusive: bool, streamDependency: nat, weight: byte)
    | RstStream(errorCode: nat)
    | Ping(opaqueData: seq<byte>)
    | Settings(settings: seq<Setting>)
    | Goaway(errorCode: nat, lastStreamId: nat, debugData: seq<byte>)
    | WindowUpdate(increment: nat)
    | PushPromise(promisedStreamId: nat, parts: P)

  datatype Frame<+P> = Frame(id: nat, flags: byte, payload: Payload<P>)

  const FRAME_HEADER_LENGTH := 9
  const DEFAULT_MAX_FRAME_SIZE := 16384
  const MAX_ALLOWED_MAX_FRAME_SIZE := 0xFF_FFFF
  const MAX_INITIAL_WINDOW_SIZE := 0x7FFF_FFFF

  // Frame type codes.
  const DATA: byte := 0
  const HEADERS: byte := 1
  const PRIORITY: byte := 2
  const RST_STREAM: byte := 3
  const SETTINGS: byte := 4
  const PUSH_PROMISE: byte := 5
  const PING: byte := 6
  const GOAWAY: byte := 7
  const WINDOW_UPDATE: byte := 8
  const CONTINUATION: byte := 9

  // The flag bits 0x01, 0x04, 0x08 and 0x20. Bit 0x01 is END_STREAM or ACK.
  predicate IsEndStream(flags: byte) { flags % 2 == 1 }
  predicate IsAck(flags: byte) { flags % 2 == 1 }
  predicate IsEndHeaders(flags: byte) { flags / 4 % 2 == 1 }
  predicate IsPadded(flags: byte) { flags / 8 % 2 == 1 }
  predicate IsHeadersPriority(flags: byte) { flags / 32 % 2 == 1 }

  /** flags & 0xFE */
  function ClearEndStream(flags: byte): byte {
    flags - flags % 2
  }

  /** flags & 0xFB */
  function ClearEndHeaders(flags: byte): byte {
    if IsEndHeaders(flags) then flags - 4 else flags
  }

  lemma ClearEndStreamOnly(flags: byte)
    ensures var r := ClearEndStream(flags);
            && !IsEndStream(r) && IsEndHeaders(r) == IsEndHeaders(flags)
            && IsPadded(r) == IsPadded(flags) && IsHeadersPriority(r) == IsHeadersPriority(flags)
  {
    var r := ClearEndStream(flags);
    assert r == flags / 2 * 2;
    assert r / 4 == flags / 4;
    assert r / 8 == flags / 8;
    assert r / 32 == flags / 32;
  }

  lemma ClearEndHeadersOnly(flags: byte)
    ensures var r := ClearEndHeaders(flags);
            && !IsEndHeaders(r) && IsEndStream(r) == IsEndStream(flags)
            && IsPadded(r) == IsPadded(flags) && IsHeadersPriority(r) == IsHeadersPriority(flags)
  {
    if IsEndHeaders(flags) {
      var r := ClearEndHeaders(flags);
      assert r / 4 == flags / 4 - 1;
      assert r / 8 == flags / 8;
      assert r / 32 == flags / 32;
    }
  }

  /** The nine octets in front of every frame. */
  function HeaderBytes(length: nat, frameType: byte, flags: byte, id: nat): (r: seq<byte>)
    ensures |r| == FRAME_HEADER_LENGTH
  {
    Be(length, 3) + [frameType, flags] + Be(id, 4)
  }

  /** Octet `index` of a frame header. */
  function HeaderByte(length: nat, frameType: byte, flags: byte, id: nat, index: nat): (b: byte)
    requires index < FRAME_HEADER_LENGTH
    ensures b == HeaderBytes(length, frameType, flags, id)[index]
  {
    if index <= 2 then Digit(length, 2 - index)
    else if index == 3 then frameType
    else if index == 4 then flags
    else Digit(id, 3 - (index - 5))
  }

  /** A whole frame on the wire. */
  function FrameBytes(frameType: byte, flags: byte, id: nat, payload: seq<byte>): seq<byte> {
    HeaderBytes(|payload|, frameType, flags, id) + payload
  }
}
