/** What the HTTP/3 encoder puts on the wire: every frame announces its type and the length of its payload. */
module H3WireFormat {
  import opened Octets
  import opened Varint
  import opened H3Frame
  import opened H3Settings
  import opened H3Encoder

  /** Type, length and a payload of that length, with nothing behind it. */
  ghost predicate Announces(w: seq<byte>, frameType: nat, payload: seq<byte>) {
    var first := ReadVarint(w);
    && first.Some? && first.value.0 == frameType
    && var second := ReadVarint(w[first.value.1..]);
       && second.Some? && second.value.0 == |payload|
       && w[first.value.1..][second.value.1..] == payload
  }

  lemma HeaderAnnounces(frameType: nat, payload: seq<byte>)
    requires frameType < VARINT_LIMIT && |payload| < VARINT_LIMIT
    ensures Announces(VarintBytes(frameType) + (VarintBytes(|payload|) + payload), frameType, payload)
  {
    RoundTrip(frameType, VarintBytes(|payload|) + payload);
    RoundTrip(|payload|, payload);
  }

  lemma DataWireFormat(data: seq<byte>)
    requires |data| < VARINT_LIMIT
    ensures Announces(DataBytes(data), 0x0, data)
  {
    HeaderAnnounces(0, data);
  }

  lemma SettingsWireFormat(s: Settings)
    requires Encodable(Pairs(s)) && |PairsBytes(Pairs(s))| < VARINT_LIMIT
    ensures Announces(SettingsBytes(s), 0x4, PairsBytes(Pairs(s)))
  {
    HeaderAnnounces(4, PairsBytes(Pairs(s)));
  }

  /** CANCEL_PUSH, GOAWAY and MAX_PUSH_ID have types 3, 7 and 13. */
  lemma VariableWireFormat(f: Frame)
    requires IsVariable(f) && f.id < VARINT_LIMIT
    ensures Announces(VariableBytes(f), if f.CancelPushFrame? then 0x3 else if f.GoawayFrame? then 0x7 else 0xD,
                      VarintBytes(f.id))
  {
    HeaderAnnounces(VariableType(f), VarintBytes(f.id));
  }
}
