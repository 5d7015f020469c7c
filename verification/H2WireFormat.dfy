/** What the HTTP/2 encoder puts on the wire, octet by octet, where the decoder does not look closely. */
module H2WireFormat {
  import opened Octets
  import opened H2Frame
  import opened H2Wire
  import opened H2Format

  /** Nine octets that announce a frame of `length` octets. */
  predicate Announces(w: seq<byte>, length: nat, frameType: byte, flags: byte, id: nat) {
    && 9 <= |w|
    && (w[0] as int) * 0x1_0000 + (w[1] as int) * 0x100 + w[2] == length
    && w[3] == frameType && w[4] == flags
    && (w[5] as int) * 0x100_0000 + (w[6] as int) * 0x1_0000 + (w[7] as int) * 0x100 + w[8] == id
  }

  lemma HeaderAnnounces(length: nat, frameType: byte, flags: byte, id: nat, rest: seq<byte>)
    requires length < 0x100_0000 && id < 0x8000_0000
    ensures Announces(HeaderBytes(length, frameType, flags, id) + rest, length, frameType, flags, id)
    ensures (HeaderBytes(length, frameType, flags, id) + rest)[9..] == rest
  {
    HeaderOctets(length, frameType, flags, id);
    Be24RoundTrip(length);
    Be32RoundTrip(id);
    var w := HeaderBytes(length, frameType, flags, id) + rest;
    assert Be(length, 3) == [w[0], w[1], w[2]] && Be(id, 4) == [w[5], w[6], w[7], w[8]];
  }

  /** The flags without END_HEADERS, which is 0x04. */
  function WithoutEndHeaders(flags: byte): byte {
    if flags / 4 % 2 == 1 then flags - 4 else flags
  }

  /** A field block goes out in one HEADERS frame, if 16384 octets hold it; END_HEADERS is set only then. */
  lemma HeadersWireFormat(frame: OutFrame, block: seq<byte>)
    requires frame.id < 0x8000_0000
    ensures var w, n := HeadersWire(frame, block), if |block| <= 16384 then |block| else 16384;
            && Announces(w, n, 1, if |block| <= 16384 then frame.flags else WithoutEndHeaders(frame.flags), frame.id)
            && w[9..] == block[..n] + ContinuationWire(frame, block[n..])
  {
    var n := FragmentSize(block);
    HeaderAnnounces(n, HEADERS, HeadersFlags(frame.flags, block[n..] == []), frame.id,
                    block[..n] + ContinuationWire(frame, block[n..]));
  }

  /** What is left of it goes out in CONTINUATION frames of 16384 octets; all but the last have no flags at all. */
  lemma ContinuationWireFormat(frame: OutFrame, block: seq<byte>)
    requires frame.id < 0x8000_0000 && block != []
    ensures var w, n := ContinuationWire(frame, block), if |block| <= 16384 then |block| else 16384;
            && Announces(w, n, 9, if |block| <= 16384 then 4 else 0, frame.id)
            && w[9..] == block[..n] + ContinuationWire(frame, block[n..])
  {
    var n := FragmentSize(block);
    HeaderAnnounces(n, CONTINUATION, ContinuationFlags(block[n..] == []), frame.id,
                    block[..n] + ContinuationWire(frame, block[n..]));
  }

  /** SETTINGS and PING go out on stream 0, whatever stream was asked for, and all other control frames on theirs. */
  lemma ControlWireFormat(frame: OutFrame)
    requires IsControl(frame.payload) && frame.id < 0x8000_0000 && |ControlPayload(frame.payload)| < 0x100_0000
    ensures var w, p := ControlWire(frame), frame.payload;
            && w[9..] == ControlPayload(p)
            && Announces(w, |ControlPayload(p)|,
                         if p.Priority? then 2 else if p.RstStream? then 3 else if p.Settings? then 4
                         else if p.Ping? then 6 else if p.Goaway? then 7 else 8,
                         frame.flags, if p.Settings? || p.Ping? then 0 else frame.id)
  {
    HeaderAnnounces(|ControlPayload(frame.payload)|, ControlType(frame.payload), frame.flags, ControlId(frame),
                    ControlPayload(frame.payload));
  }
}
