/** HTTP/3 SETTINGS: what the encoder writes, and what the decoder makes of it. */
module H3Settings {
  import opened Octets
  import opened Buffers
  import opened Varint
  import opened H3Frame
  import opened H3Stream

  // ---------------------------------------------------------------------------
  // What is written.
  // ---------------------------------------------------------------------------

  function Given(key: nat, value: Option<nat>): seq<Pair> {
    if value.Some? then [(key, value.value)] else []
  }

  function KnownPairs(s: Settings): seq<Pair> {
    Given(MAX_FIELD_SECTION_SIZE, s.maxFieldSectionSize)
    + (Given(ENABLE_CONNECT_PROTOCOL, s.connectProtocolEnabled)
       + (Given(QPACK_MAX_TABLE_CAPACITY, s.qpackMaxTableCapacity)
          + (Given(QPACK_BLOCKED_STREAMS, s.qpackBlockedStreams)
             + Given(H3_DATAGRAM, s.h3Datagram))))
  }

  function AdditionalPairs(s: Settings): seq<Pair> {
    if s.additional.Some? then s.additional.value else []
  }

  /** The pairs in the order in which they are written. */
  function Pairs(s: Settings): seq<Pair> {
    KnownPairs(s) + AdditionalPairs(s)
  }

  predicate Small(p: Pair) {
    p.0 < VARINT_LIMIT && p.1 < VARINT_LIMIT
  }

  ghost predicate Encodable(pairs: seq<Pair>) {
    forall i :: 0 <= i < |pairs| ==> Small(pairs[i])
  }

  function PairBytes(p: Pair): seq<byte>
    requires Small(p)
  {
    VarintBytes(p.0) + VarintBytes(p.1)
  }

  function PairsBytes(pairs: seq<Pair>): seq<byte>
    requires Encodable(pairs)
  {
    if pairs == [] then [] else PairBytes(pairs[0]) + PairsBytes(pairs[1..])
  }

  // ---------------------------------------------------------------------------
  // What is read.
  // ---------------------------------------------------------------------------

  function Fold(s: Settings, pairs: seq<Pair>): Settings
    decreases |pairs|
  {
    if pairs == [] then s else Fold(SetSetting(s, pairs[0].0, pairs[0].1), pairs[1..])
  }

  ghost predicate NoReserved(pairs: seq<Pair>) {
    forall i :: 0 <= i < |pairs| ==> !IsReserved(pairs[i].0)
  }

  lemma NoReservedJoin(a: seq<Pair>, b: seq<Pair>)
    ensures NoReserved(a + b) <==> NoReserved(a) && NoReserved(b)
  {
    if NoReserved(a + b) {
      assert forall i :: 0 <= i < |a| ==> (a + b)[i] == a[i];
      assert forall i :: 0 <= i < |b| ==> (a + b)[|a| + i] == b[i];
    }
  }

  lemma PairReads(p: Pair, rest: seq<byte>)
    requires Small(p)
    ensures var b := PairBytes(p) + rest;
            && ReadVarint(b) == Some((p.0, VarintLen(p.0)))
            && ReadVarint(b[VarintLen(p.0)..]) == Some((p.1, VarintLen(p.1)))
            && |PairBytes(p)| == VarintLen(p.0) + VarintLen(p.1)
  {
    var x, y := VarintBytes(p.0), VarintBytes(p.1);
    Associate(x, y, rest);
    RoundTrip(p.0, y + rest);
    RoundTrip(p.1, rest);
  }

  lemma Dropped(b: seq<byte>, i: nat, n: nat)
    requires i + n <= |b|
    ensures b[i + n..] == b[i..][n..]
  {
  }

  /** One pair that was written, at octet `i`. */
  lemma OnePair(b: seq<byte>, i: nat, p: Pair, tail: seq<byte>, length: nat, s: Settings)
    requires Small(p) && i <= |b| && b[i..] == PairBytes(p) + tail && i < length
    ensures var next := i + |PairBytes(p)|;
            && next <= |b| && b[next..] == tail
            && ParseSettings(b, i, length, s)
               == if IsReserved(p.0) then Malformed(UnsupportedSetting(p.0))
                  else ParseSettings(b, next, length, SetSetting(s, p.0, p.1))
  {
    PairReads(p, tail);
    var n, m := VarintLen(p.0), VarintLen(p.1);
    Dropped(b, i, n);
    Dropped(b, i, n + m);
    assert PairAt(b, i) == Some((p.0, p.1, i + n + m));
  }

  /** `r` is what applying the pairs to `s` gives, unless one has a reserved key. */
  ghost predicate Applies(r: SettingsResult, pairs: seq<Pair>, s: Settings, length: nat) {
    if NoReserved(pairs) then r == Parsed(Fold(s, pairs), length) else r.Malformed?
  }

  lemma AppliesMore(r: SettingsResult, p: Pair, pairs: seq<Pair>, s: Settings, length: nat)
    requires if IsReserved(p.0) then r.Malformed? else Applies(r, pairs, SetSetting(s, p.0, p.1), length)
    ensures Applies(r, [p] + pairs, s, length)
  {
    NoReservedJoin([p], pairs);
    assert [p][0] == p && ([p] + pairs)[1..] == pairs;
  }

  lemma FirstPair(pairs: seq<Pair>, p: Pair, more: seq<Pair>, rest: seq<byte>)
    requires Encodable(pairs) && pairs != [] && p == pairs[0] && more == pairs[1..]
    ensures pairs == [p] + more && Small(p) && Encodable(more)
    ensures PairsBytes(pairs) + rest == PairBytes(p) + (PairsBytes(more) + rest)
    ensures |PairsBytes(pairs)| == |PairBytes(p)| + |PairsBytes(more)| && PairBytes(p) != []
  {
    Associate(PairBytes(p), PairsBytes(more), rest);
  }

  /** Reading what was written applies the pairs one by one. */
  lemma {:induction false} PairsParse(b: seq<byte>, i: nat, pairs: seq<Pair>, rest: seq<byte>, length: nat, s: Settings)
    requires Encodable(pairs) && i <= |b| && b[i..] == PairsBytes(pairs) + rest
    requires length == i + |PairsBytes(pairs)|
    ensures Applies(ParseSettings(b, i, length, s), pairs, s, length)
    decreases |pairs|
  {
    if pairs != [] {
      var p, more := pairs[0], pairs[1..];
      FirstPair(pairs, p, more, rest);
      OnePair(b, i, p, PairsBytes(more) + rest, length, s);
      if IsReserved(p.0) {
        AppliesMore(Malformed(UnsupportedSetting(p.0)), p, more, s, length);
      } else {
        var next, t := i + |PairBytes(p)|, SetSetting(s, p.0, p.1);
        PairsParse(b, next, more, rest, length, t);
        AppliesMore(ParseSettings(b, next, length, t), p, more, s, length);
      }
    }
  }

  lemma {:induction false} FoldJoin(s: Settings, a: seq<Pair>, b: seq<Pair>)
    ensures Fold(s, a + b) == Fold(Fold(s, a), b)
    decreases |a|
  {
    if a == [] {
      assert a + b == b;
    } else {
      assert (a + b)[1..] == a[1..] + b;
      FoldJoin(SetSetting(s, a[0].0, a[0].1), a[1..], b);
    }
  }

  lemma FoldGiven(s: Settings, key: nat, value: Option<nat>)
    ensures Fold(s, Given(key, value)) == if value.Some? then SetSetting(s, key, value.value) else s
  {
  }

  /** The known settings come back. */
  lemma KnownFold(s: Settings)
    ensures Fold(NO_SETTINGS, KnownPairs(s)) == s.(additional := None)
  {
    var a, b := Given(MAX_FIELD_SECTION_SIZE, s.maxFieldSectionSize), Given(ENABLE_CONNECT_PROTOCOL, s.connectProtocolEnabled);
    var c, d := Given(QPACK_MAX_TABLE_CAPACITY, s.qpackMaxTableCapacity), Given(QPACK_BLOCKED_STREAMS, s.qpackBlockedStreams);
    var e := Given(H3_DATAGRAM, s.h3Datagram);
    var s1 := NO_SETTINGS.(maxFieldSectionSize := s.maxFieldSectionSize);
    var s2 := s1.(connectProtocolEnabled := s.connectProtocolEnabled);
    var s3 := s2.(qpackMaxTableCapacity := s.qpackMaxTableCapacity);
    var s4 := s3.(qpackBlockedStreams := s.qpackBlockedStreams);
    FoldJoin(NO_SETTINGS, a, b + (c + (d + e)));
    FoldGiven(NO_SETTINGS, MAX_FIELD_SECTION_SIZE, s.maxFieldSectionSize);
    FoldJoin(s1, b, c + (d + e));
    FoldGiven(s1, ENABLE_CONNECT_PROTOCOL, s.connectProtocolEnabled);
    FoldJoin(s2, c, d + e);
    FoldGiven(s2, QPACK_MAX_TABLE_CAPACITY, s.qpackMaxTableCapacity);
    FoldJoin(s3, d, e);
    FoldGiven(s3, QPACK_BLOCKED_STREAMS, s.qpackBlockedStreams);
    FoldGiven(s4, H3_DATAGRAM, s.h3Datagram);
  }

  ghost predicate NoneKnown(pairs: seq<Pair>) {
    forall i :: 0 <= i < |pairs| ==> !IsKnown(pairs[i].0)
  }

  lemma NoneKnownJoin(p: Pair, pairs: seq<Pair>)
    ensures NoneKnown([p] + pairs) <==> !IsKnown(p.0) && NoneKnown(pairs)
  {
    assert ([p] + pairs)[1..] == pairs;
    if NoneKnown([p] + pairs) {
      assert ([p] + pairs)[0] == p;
      assert forall i :: 0 <= i < |pairs| ==> ([p] + pairs)[i + 1] == pairs[i];
    }
  }

  /** What one pair does to the additional settings. */
  lemma SetAdditional(s: Settings, p: Pair)
    ensures var t := SetSetting(s, p.0, p.1);
            if IsKnown(p.0) then t.additional == s.additional
            else t == s.(additional := Some(AdditionalPairs(s) + [p]))
  {
  }

  /** Pairs whose keys mean nothing else pile up. */
  lemma {:induction false} AdditionalFold(s: Settings, pairs: seq<Pair>)
    requires NoneKnown(pairs) && pairs != []
    ensures Fold(s, pairs) == s.(additional := Some(AdditionalPairs(s) + pairs))
    decreases |pairs|
  {
    var p, rest := pairs[0], pairs[1..];
    assert pairs == [p] + rest;
    NoneKnownJoin(p, rest);
    SetAdditional(s, p);
    if rest == [] {
      assert pairs == [p];
    } else {
      AdditionalFold(SetSetting(s, p.0, p.1), rest);
      assert AdditionalPairs(s) + [p] + rest == AdditionalPairs(s) + pairs;
    }
  }

  /** A pair with a known key does not join them. */
  lemma {:induction false} AdditionalCount(s: Settings, pairs: seq<Pair>)
    ensures |AdditionalPairs(Fold(s, pairs))| <= |AdditionalPairs(s)| + |pairs|
    ensures !NoneKnown(pairs) ==> |AdditionalPairs(Fold(s, pairs))| < |AdditionalPairs(s)| + |pairs|
    decreases |pairs|
  {
    if pairs != [] {
      var p, rest := pairs[0], pairs[1..];
      assert pairs == [p] + rest;
      NoneKnownJoin(p, rest);
      SetAdditional(s, p);
      AdditionalCount(SetSetting(s, p.0, p.1), rest);
    }
  }

  /** Additional settings are there or absent, and none has a key that means something else. */
  ghost predicate Canonical(s: Settings) {
    s.additional.Some? ==> s.additional.value != [] && NoneKnown(s.additional.value) && NoReserved(s.additional.value)
  }

  lemma FoldPairsIff(s: Settings)
    ensures Fold(NO_SETTINGS, Pairs(s)) == s
            <==> (s.additional.Some? ==> s.additional.value != [] && NoneKnown(s.additional.value))
  {
    FoldJoin(NO_SETTINGS, KnownPairs(s), AdditionalPairs(s));
    KnownFold(s);
    AdditionalCount(s.(additional := None), AdditionalPairs(s));
    if NoneKnown(AdditionalPairs(s)) && AdditionalPairs(s) != [] {
      AdditionalFold(s.(additional := None), AdditionalPairs(s));
    }
    assert [] + AdditionalPairs(s) == AdditionalPairs(s);
  }

  lemma ReservedAreAdditional(s: Settings)
    ensures NoReserved(Pairs(s)) <==> NoReserved(AdditionalPairs(s))
  {
    var a, b := Given(MAX_FIELD_SECTION_SIZE, s.maxFieldSectionSize), Given(ENABLE_CONNECT_PROTOCOL, s.connectProtocolEnabled);
    var c, d := Given(QPACK_MAX_TABLE_CAPACITY, s.qpackMaxTableCapacity), Given(QPACK_BLOCKED_STREAMS, s.qpackBlockedStreams);
    var e := Given(H3_DATAGRAM, s.h3Datagram);
    NoReservedJoin(d, e);
    NoReservedJoin(c, d + e);
    NoReservedJoin(b, c + (d + e));
    NoReservedJoin(a, b + (c + (d + e)));
    NoReservedJoin(KnownPairs(s), AdditionalPairs(s));
  }

  /** The settings come back if and only if they are canonical. */
  lemma SettingsRoundTrip(s: Settings, rest: seq<byte>)
    requires Encodable(Pairs(s))
    ensures var payload := PairsBytes(Pairs(s));
            ParseSettings(payload + rest, 0, |payload|, NO_SETTINGS) == Parsed(s, |payload|) <==> Canonical(s)
  {
    var payload := PairsBytes(Pairs(s));
    assert (payload + rest)[0..] == payload + rest;
    PairsParse(payload + rest, 0, Pairs(s), rest, |payload|, NO_SETTINGS);
    FoldPairsIff(s);
    ReservedAreAdditional(s);
  }

  // ---------------------------------------------------------------------------
  // On the control stream.
  // ---------------------------------------------------------------------------

  function SettingsBytes(s: Settings): seq<byte>
    requires Encodable(Pairs(s)) && |PairsBytes(Pairs(s))| < VARINT_LIMIT
  {
    VarintBytes(SETTINGS) + (VarintBytes(|PairsBytes(Pairs(s))|) + PairsBytes(Pairs(s)))
  }

  /** A control stream that waits for a frame. */
  function ControlStream(streamSet: bool): Stream {
    Stream(Control, FrameTypePhase, None, None, None, streamSet)
  }

  /** A control stream in front of a SETTINGS payload. */
  function BeforePayload(length: nat): Stream {
    Stream(Control, SettingsPhase, None, Some(SETTINGS), Some(length), true)
  }

  lemma SettingsHeaderRuns(length: nat, tail: seq<byte>)
    requires length < VARINT_LIMIT
    ensures Run(ControlStream(false), VarintBytes(SETTINGS) + (VarintBytes(length) + tail))
            == Run(BeforePayload(length), tail)
  {
    RoundTrip(SETTINGS, VarintBytes(length) + tail);
    RoundTrip(length, tail);
    var s := ControlStream(true).(frameType := Some(SETTINGS), phase := PayloadLenPhase);
    PrependTwice([], [], Run(s, VarintBytes(length) + tail));
    PrependTwice([], [], Run(BeforePayload(length), tail));
  }

  /** A payload that was understood. */
  lemma PayloadStep(payload: seq<byte>, rest: seq<byte>, s: Settings)
    requires ParseSettings(payload + rest, 0, |payload|, NO_SETTINGS) == Parsed(s, |payload|)
    ensures Step(BeforePayload(|payload|), payload + rest)
            == Go(ControlStream(true), if rest == [] then [] else payload + rest, [Received(SettingsFrame(s))])
  {
  }

  /** Canonical settings that nothing follows yet are reported, and the control stream goes on. */
  lemma SettingsArrive(s: Settings)
    requires Encodable(Pairs(s)) && |PairsBytes(Pairs(s))| < VARINT_LIMIT && Canonical(s)
    ensures Run(ControlStream(false), SettingsBytes(s))
            == Waiting(ControlStream(true), [], [Received(SettingsFrame(s))])
  {
    var payload := PairsBytes(Pairs(s));
    SettingsHeaderRuns(|payload|, payload);
    SettingsRoundTrip(s, []);
    PayloadStep(payload, [], s);
    assert payload + [] == payload;
    RunGo(BeforePayload(|payload|), payload);
  }

  /** A control stream announces itself first. */
  lemma ControlStreamOpens(id: nat, tail: seq<byte>)
    requires !IsBidirectional(id)
    ensures Run(NewStream(id), VarintBytes(0) + tail) == Run(ControlStream(false), tail)
  {
    RoundTrip(0, tail);
    PrependTwice([], [], Run(ControlStream(false), tail));
  }

  /** How many octets follow the first SETTINGS payload that is all there, or -1 if there is none. */
  function Surplus(s: Stream, u: seq<byte>): int
    decreases |u|, Rank(s)
  {
    StepDecreases(s, u);
    if s.phase.SettingsPhase? && Length(s) <= |u| then |u| - Length(s)
    else if Step(s, u).Go? then Surplus(Step(s, u).stream, Step(s, u).rest)
    else -1
  }

  /** What follows is counted, once the payload is there. */
  lemma {:induction false} SurplusGrows(s: Stream, a: seq<byte>, b: seq<byte>)
    requires CompletesSettings(s, a)
    ensures 0 <= Surplus(s, a) && Surplus(s, a + b) == Surplus(s, a) + |b|
    decreases |a|, Rank(s)
  {
    if !(s.phase.SettingsPhase? && Length(s) <= |a|) {
      StepDecreases(s, a);
      StepExtends(s, a, b);
      SurplusGrows(Step(s, a).stream, Step(s, a).rest, b);
    }
  }

  lemma SurplusOfStop(s: Stream, u: seq<byte>)
    requires !(s.phase.SettingsPhase? && Length(s) <= |u|) && Step(s, u).Stop?
    ensures Surplus(s, u) == -1
  {
  }

  lemma SurplusOfPayload(s: Stream, u: seq<byte>)
    requires s.phase.DataPhase? || s.phase.UnknownPhase?
    ensures Surplus(s, u) == if |u| < Length(s) then -1 else Surplus(FrameDone(s), u[Length(s)..])
  {
  }

  /** A payload that is passed on as it arrives is not a SETTINGS payload. */
  lemma SurplusBehindPayload(s: Stream, a: seq<byte>, b: seq<byte>)
    requires (s.phase.DataPhase? || s.phase.UnknownPhase?) && |a| < Length(s)
    ensures Surplus(s, a + b) == Surplus(s.(payloadLen := Some(Length(s) - |a|)), b)
  {
    var n := Length(s) - |a|;
    SurplusOfPayload(s, a + b);
    SurplusOfPayload(s.(payloadLen := Some(n)), b);
    if n <= |b| {
      assert (a + b)[Length(s)..] == b[n..];
    }
  }

  /** What a step that waits leaves: a payload that is shorter now, or everything as it was. */
  predicate Leaves(s: Stream, u: seq<byte>, stream: Stream, unread: seq<byte>) {
    if s.phase.DataPhase? || s.phase.UnknownPhase? then
      |u| < Length(s) && stream == s.(payloadLen := Some(Length(s) - |u|)) && unread == []
    else stream == s && (unread == u || s.phase.QpackDecoderPhase?)
  }

  lemma WaitLeaves(s: Stream, u: seq<byte>)
    requires Step(s, u).Stop? && Step(s, u).result.Waiting?
    ensures Leaves(s, u, Step(s, u).result.stream, Step(s, u).result.unread)
  {
  }

  lemma SurplusBehindStop(s: Stream, a: seq<byte>, b: seq<byte>, stream: Stream, unread: seq<byte>)
    requires !(s.phase.SettingsPhase? && Length(s) <= |a|) && Leaves(s, a, stream, unread)
    ensures Surplus(s, a + b) == Surplus(stream, unread + b)
  {
    if s.phase.DataPhase? || s.phase.UnknownPhase? {
      SurplusBehindPayload(s, a, b);
      assert [] + b == b;
    } else if s.phase.QpackDecoderPhase? {
      SurplusOfStop(s, a + b);
      SurplusOfStop(s, unread + b);
    }
  }

  /** Until the payload is there, calls change nothing. */
  lemma {:induction false} SurplusResumes(s: Stream, a: seq<byte>, b: seq<byte>)
    requires !CompletesSettings(s, a) && Run(s, a).Waiting?
    ensures var r := Run(s, a); Surplus(s, a + b) == Surplus(r.stream, r.unread + b)
    decreases |a|, Rank(s)
  {
    StepDecreases(s, a);
    if Step(s, a).Go? {
      StepExtends(s, a, b);
      SurplusExtends(s, a, b);
      SurplusResumes(Step(s, a).stream, Step(s, a).rest, b);
    } else {
      WaitLeaves(s, a);
      SurplusBehindStop(s, a, b, Step(s, a).result.stream, Step(s, a).result.unread);
    }
  }

  lemma SurplusExtends(s: Stream, a: seq<byte>, b: seq<byte>)
    requires !s.phase.SettingsPhase? && Step(s, a).Go?
    ensures Surplus(s, a + b) == Surplus(Step(s, a).stream, Step(s, a).rest + b)
  {
    StepExtends(s, a, b);
  }

  lemma {:induction false} NothingMayBeCut(s: Stream, unread: seq<byte>, segments: seq<seq<byte>>)
    requires Flatten(segments) == []
    ensures QuietCuts(s, unread, segments)
    decreases |segments|
  {
    if |segments| > 1 && Run(s, unread + segments[0]).Waiting? {
      var first := Run(s, unread + segments[0]);
      NothingMayBeCut(first.stream, first.unread, segments[1..]);
    }
  }

  /**
   * If there is no SETTINGS payload, or nothing follows it, none is complete before the last octet, and the octets
   * may be cut anywhere.
   */
  lemma {:induction false} LastMayBeCut(s: Stream, unread: seq<byte>, segments: seq<seq<byte>>)
    requires Surplus(s, unread + Flatten(segments)) <= 0
    ensures QuietCuts(s, unread, segments)
    decreases |segments|
  {
    if |segments| > 1 {
      var u, rest := unread + segments[0], Flatten(segments[1..]);
      assert unread + Flatten(segments) == u + rest;
      var first := Run(s, u);
      if CompletesSettings(s, u) {
        SurplusGrows(s, u, rest);
        if first.Waiting? {
          NothingMayBeCut(first.stream, first.unread, segments[1..]);
        }
      } else if first.Waiting? {
        SurplusResumes(s, u, rest);
        LastMayBeCut(first.stream, first.unread, segments[1..]);
      }
    }
  }

  lemma SettingsSurplus(id: nat, length: nat, payload: seq<byte>)
    requires !IsBidirectional(id) && length == |payload| < VARINT_LIMIT
    ensures Surplus(NewStream(id), VarintBytes(0) + (VarintBytes(SETTINGS) + (VarintBytes(length) + payload))) == 0
  {
    RoundTrip(0, VarintBytes(SETTINGS) + (VarintBytes(length) + payload));
    RoundTrip(SETTINGS, VarintBytes(length) + payload);
    RoundTrip(length, payload);
    var named := ControlStream(true).(frameType := Some(SETTINGS), phase := PayloadLenPhase);
    assert Surplus(ControlStream(false), VarintBytes(SETTINGS) + (VarintBytes(length) + payload))
           == Surplus(named, VarintBytes(length) + payload) == Surplus(BeforePayload(length), payload);
  }

  /**
   * Canonical settings at the start of a control stream are reported, however the octets are cut, and the control
   * stream goes on.
   */
  lemma SettingsArriveInSegments(id: nat, s: Settings, segments: seq<seq<byte>>)
    requires !IsBidirectional(id) && Encodable(Pairs(s)) && |PairsBytes(Pairs(s))| < VARINT_LIMIT && Canonical(s)
    requires Flatten(segments) == VarintBytes(0) + SettingsBytes(s)
    ensures RunSegments(NewStream(id), [], segments)
            == Waiting(ControlStream(true), [], [Received(SettingsFrame(s))])
  {
    var payload := PairsBytes(Pairs(s));
    assert [] + Flatten(segments) == Flatten(segments);
    SettingsSurplus(id, |payload|, payload);
    LastMayBeCut(NewStream(id), [], segments);
    SegmentsAreInvisible(NewStream(id), [], segments);
    ControlStreamOpens(id, SettingsBytes(s));
    SettingsArrive(s);
  }

  /**
   * With more octets already there, decoding goes on behind the SETTINGS frame if and only if its payload
   * is empty: otherwise the payload is taken for the next frames.
   */
  lemma SettingsSkippedIff(s: Settings, rest: seq<byte>)
    requires Encodable(Pairs(s)) && |PairsBytes(Pairs(s))| < VARINT_LIMIT && Canonical(s)
    ensures var payload := PairsBytes(Pairs(s));
            var step := Step(BeforePayload(|payload|), payload + rest);
            && step.Go? && step.stream == ControlStream(true) && step.events == [Received(SettingsFrame(s))]
            && (step.rest == rest <==> payload == [] || rest == [])
  {
    var payload := PairsBytes(Pairs(s));
    SettingsRoundTrip(s, rest);
    PayloadStep(payload, rest, s);
    SkippedIff(payload, rest);
  }

  lemma SkippedIff(payload: seq<byte>, rest: seq<byte>)
    ensures (if rest == [] then [] else payload + rest) == rest <==> payload == [] || rest == []
  {
  }
}
