/** HTTP/3 frames (section 7 of RFC 9114). */
module H3Frame {
  import opened Octets

  const DATA := 0x0
  const HEADERS := 0x1
  const CANCEL_PUSH := 0x3
  const SETTINGS := 0x4
  const PUSH_PROMISE := 0x5
  const GOAWAY := 0x7
  const MAX_PUSH_ID := 0xD

  const QPACK_MAX_TABLE_CAPACITY := 0x1
  const MAX_FIELD_SECTION_SIZE := 0x6
  const QPACK_BLOCKED_STREAMS := 0x7
  const ENABLE_CONNECT_PROTOCOL := 0x8
  const H3_DATAGRAM := 0x33

  type Pair = (nat, nat)

  datatype Settings = Settings(
    maxFieldSectionSize: Option<nat>,
    qpackMaxTableCapacity: Option<nat>,
    qpackBlockedStreams: Option<nat>,
    connectProtocolEnabled: Option<nat>,
    h3Datagram: Option<nat>,
    additional: Option<seq<Pair>>)

  const NO_SETTINGS := Settings(None, None, None, None, None, None)

  /** Keys that HTTP/2 used and HTTP/3 forbids, among them 0x0. */
  predicate IsReserved(key: nat) {
    key == 0x0 || 0x2 <= key <= 0x5
  }

  predicate IsKnown(key: nat) {
    key in {QPACK_MAX_TABLE_CAPACITY, MAX_FIELD_SECTION_SIZE, QPACK_BLOCKED_STREAMS, ENABLE_CONNECT_PROTOCOL,
            H3_DATAGRAM}
  }

  datatype Frame =
    | DataFrame(data: seq<byte>)
    | SettingsFrame(settings: Settings)
    | CancelPushFrame(id: nat)
    | GoawayFrame(id: nat)
    | MaxPushIdFrame(id: nat)

  datatype FrameKind = Complete(frame: Frame) | Partial

  /** `OpaqueQpack` marks the point where QPACK takes over. */
  datatype H3Error =
    | UnexpectedFrame(frameType: nat)
    | FrameSizeError(length: nat)
    | UnsupportedSetting(key: nat)
    | OpaqueQpack
}
