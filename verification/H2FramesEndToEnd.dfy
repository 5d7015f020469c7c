/** DATA and control frames through the HTTP/2 encoder and decoder. */
module H2FramesEndToEnd {
  import opened Octets
  import opened H2Frame
  import opened H2Wire
  import opened H2Decoder
  import opened H2Segments
  import opened H2Boundary
  import opened H2Reach

  // ---------------------------------------------------------------------------
  // DATA.
  // ---------------------------------------------------------------------------

  /** The DATA frame in front of the last `remaining` octets, as it is received. */
  function DataItem<P>(frame: OutFrame, max: nat, remaining: nat): Received<P>
    requires frame.payload.Data? && remaining <= |frame.payload.data|
  {
    var n := DataLeft(max, 0, remaining);
    var flags := DataFlags(frame.flags, remaining <= max);
    var p := frame.payload.data[0..n];
    Received(FrameHeader(frame.id, flags, DATA, n), p, Complete(Frame(frame.id, flags, Data(p))))
  }

  function DataItems<P>(frame: OutFrame, max: nat, remaining: nat): seq<Received<P>>
    requires frame.payload.Data? && 0 < max && remaining <= |frame.payload.data|
    decreases remaining
  {
    if remaining == 0 then []
    else [DataItem(frame, max, remaining)] + DataItems(frame, max, DataBehind(max, 0, remaining))
  }

  lemma DataFrameDecodes<H, P>(
    hp: Hpack<H, P>, s: DecoderState<H>, frame: OutFrame, max: nat, remaining: nat, rest: seq<byte>)
    requires AtBoundary(s) && s.continuations == NO_CONTINUATION && 0 < max <= s.maxFrameSize
    requires frame.payload.Data? && 0 < frame.id < 0x8000_0000 && !IsPadded(frame.flags)
    requires remaining <= |frame.payload.data|
    ensures Run(hp, s, DataHeader(frame, max, remaining)
                       + (frame.payload.data[0..DataLeft(max, 0, remaining)] + rest))
            == Prepend([DataItem(frame, max, remaining)], Run(hp, s, rest))
  {
    ClearEndStreamOnly(frame.flags);
    var flags := DataFlags(frame.flags, remaining <= max);
    var p := frame.payload.data[0..DataLeft(max, 0, remaining)];
    FrameDecodes(hp, s, DATA, flags, frame.id, p, rest);
  }

  lemma {:induction false} DataRestDecodes<H, P>(
    hp: Hpack<H, P>, s: DecoderState<H>, frame: OutFrame, max: nat, remaining: nat)
    requires AtBoundary(s) && s.continuations == NO_CONTINUATION && 0 < max <= s.maxFrameSize
    requires frame.payload.Data? && 0 < frame.id < 0x8000_0000 && !IsPadded(frame.flags)
    requires remaining <= |frame.payload.data|
    ensures Run(hp, s, DataRest(frame, max, remaining)) == Ok((DataItems(frame, max, remaining), s))
    decreases remaining
  {
    if remaining == 0 {
      NothingToDecode(hp, s);
    } else {
      var behind := DataBehind(max, 0, remaining);
      DataFrameDecodes(hp, s, frame, max, remaining, DataRest(frame, max, behind));
      DataRestDecodes(hp, s, frame, max, behind);
    }
  }

  /** The frames that arrive: at least one, for empty data too. */
  function DataArriving<P>(frame: OutFrame, max: nat): seq<Received<P>>
    requires frame.payload.Data? && 0 < max
  {
    var n := |frame.payload.data|;
    [DataItem(frame, max, n)] + DataItems(frame, max, DataBehind(max, 0, n))
  }

  lemma UnpaddedDecodes<H, P>(hp: Hpack<H, P>, s: DecoderState<H>, frame: OutFrame, max: nat)
    requires AtBoundary(s) && s.continuations == NO_CONTINUATION && 0 < max <= s.maxFrameSize
    requires frame.payload.Data? && 0 < frame.id < 0x8000_0000 && !IsPadded(frame.flags)
    ensures Run(hp, s, DataWire(frame, max)) == Ok((DataArriving(frame, max), s))
  {
    var n := |frame.payload.data|;
    var behind := DataBehind(max, 0, n);
    DataFrameDecodes(hp, s, frame, max, n, DataRest(frame, max, behind));
    DataRestDecodes(hp, s, frame, max, behind);
  }

  /** The length of the last of the frames for `n` octets. */
  function LastLength(max: nat, n: nat): (r: nat)
    requires 0 < max
    ensures r <= max && r <= n && (0 < n ==> 0 < r)
  {
    if n <= max then n else LastLength(max, n - max)
  }

  /** The encoder sends no padding length; with PADDED set, the decoder takes the first octet of the data for one. */
  predicate PaddingFits(data: seq<byte>, max: nat)
    requires 0 < max
  {
    data == [] || data[0] < LastLength(max, |data|)
  }

  /** What is left of the payload `p` then. */
  function Unpad(p: seq<byte>): seq<byte> {
    if p != [] && p[0] < |p| then p[1..|p| - p[0]] else p
  }

  function UnpadItem<P>(item: Received<P>): Received<P> {
    item.(kind := Complete(Frame(item.header.streamId, item.header.flags, Data(Unpad(item.payload)))))
  }

  function UnpadItems<P>(items: seq<Received<P>>): seq<Received<P>> {
    if items == [] then [] else [UnpadItem(items[0])] + UnpadItems(items[1..])
  }

  lemma PaddedPayloadDecodes<H, P>(hp: Hpack<H, P>, h: FrameHeader, c: Continuations, hpack: H, p: seq<byte>)
    requires h.frameType == DATA && h.streamId != 0 && IsPadded(h.flags) && h.payloadLength == |p|
    ensures DecodeFrame(hp, h, c, hpack, |p|, p)
            == if p != [] && |p| <= p[0] then Err(PROTOCOL_ERROR)
               else Ok(Decoded(Complete(Frame(h.streamId, h.flags, Data(Unpad(p)))), hpack, c))
  {
  }

  lemma PaddedFrameDecodes<H, P>(
    hp: Hpack<H, P>, s: DecoderState<H>, frame: OutFrame, max: nat, remaining: nat, rest: seq<byte>)
    requires AtBoundary(s) && s.continuations == NO_CONTINUATION && 0 < max <= s.maxFrameSize
    requires frame.payload.Data? && 0 < frame.id < 0x8000_0000 && IsPadded(frame.flags)
    requires remaining <= |frame.payload.data|
    ensures var p := frame.payload.data[0..DataLeft(max, 0, remaining)];
            Run(hp, s, DataHeader(frame, max, remaining) + (p + rest))
            == if p != [] && |p| <= p[0] then Err(PROTOCOL_ERROR)
               else Prepend([UnpadItem(DataItem(frame, max, remaining))], Run(hp, s, rest))
  {
    ClearEndStreamOnly(frame.flags);
    var flags := DataFlags(frame.flags, remaining <= max);
    var p := frame.payload.data[0..DataLeft(max, 0, remaining)];
    PaddedPayloadDecodes(hp, FrameHeader(frame.id, flags, DATA, |p|), s.continuations, s.hpack, p);
    FrameDecodes(hp, s, DATA, flags, frame.id, p, rest);
  }

  /** All the frames for the last `remaining` octets, without padding; or an error, if one of them is too short. */
  ghost function PaddedOutcome<H, P>(s: DecoderState<H>, frame: OutFrame, max: nat, remaining: nat): RunResult<H, P>
    requires frame.payload.Data? && 0 < max && remaining <= |frame.payload.data|
  {
    if remaining == 0 || frame.payload.data[0] < LastLength(max, remaining) then
      Ok((UnpadItems(DataItems(frame, max, remaining)), s))
    else Err(PROTOCOL_ERROR)
  }

  /** The last frame is the shortest. */
  lemma PaddedOutcomeIs<H, P>(s: DecoderState<H>, frame: OutFrame, max: nat, remaining: nat)
    requires frame.payload.Data? && 0 < max && 0 < remaining <= |frame.payload.data|
    ensures PaddedOutcome<H, P>(s, frame, max, remaining)
            == if DataLeft(max, 0, remaining) <= frame.payload.data[0] then Err(PROTOCOL_ERROR)
               else Prepend([UnpadItem(DataItem(frame, max, remaining))],
                            PaddedOutcome(s, frame, max, DataBehind(max, 0, remaining)))
  {
    var item, items := DataItem<P>(frame, max, remaining), DataItems<P>(frame, max, DataBehind(max, 0, remaining));
    assert ([item] + items)[1..] == items;
  }

  lemma {:induction false} PaddedRestDecodes<H, P>(
    hp: Hpack<H, P>, s: DecoderState<H>, frame: OutFrame, max: nat, remaining: nat)
    requires AtBoundary(s) && s.continuations == NO_CONTINUATION && 0 < max <= s.maxFrameSize
    requires frame.payload.Data? && 0 < frame.id < 0x8000_0000 && IsPadded(frame.flags)
    requires remaining <= |frame.payload.data|
    ensures Run(hp, s, DataRest(frame, max, remaining)) == PaddedOutcome(s, frame, max, remaining)
    decreases remaining
  {
    if remaining == 0 {
      NothingToDecode(hp, s);
    } else {
      var behind := DataBehind(max, 0, remaining);
      PaddedFrameDecodes(hp, s, frame, max, remaining, DataRest(frame, max, behind));
      PaddedRestDecodes(hp, s, frame, max, behind);
      PaddedOutcomeIs<H, P>(s, frame, max, remaining);
    }
  }

  lemma PaddedDecodes<H, P>(hp: Hpack<H, P>, s: DecoderState<H>, frame: OutFrame, max: nat)
    requires AtBoundary(s) && s.continuations == NO_CONTINUATION && 0 < max <= s.maxFrameSize
    requires frame.payload.Data? && 0 < frame.id < 0x8000_0000 && IsPadded(frame.flags)
    ensures Run(hp, s, DataWire(frame, max))
            == if PaddingFits(frame.payload.data, max) then Ok((UnpadItems(DataArriving(frame, max)), s))
               else Err(PROTOCOL_ERROR)
  {
    var n := |frame.payload.data|;
    if n == 0 {
      PaddedFrameDecodes(hp, s, frame, max, 0, []);
      NothingToDecode(hp, s);
      assert DataArriving<P>(frame, max)[1..] == [];
    } else {
      PaddedRestDecodes(hp, s, frame, max, n);
      ArrivingIsRest<P>(frame, max);
    }
  }

  /**
   * What the decoder makes of the DATA frames: with PADDED set, an error if the first octet is not below the length
   * of the last frame, and otherwise every frame without its first octet and as many octets from the end as it says.
   */
  function DataOutcome<H, P>(s: DecoderState<H>, frame: OutFrame, max: nat): RunResult<H, P>
    requires frame.payload.Data? && 0 < max
  {
    if !IsPadded(frame.flags) then Ok((DataArriving(frame, max), s))
    else if PaddingFits(frame.payload.data, max) then Ok((UnpadItems(DataArriving(frame, max)), s))
    else Err(PROTOCOL_ERROR)
  }

  lemma DataWireDecodes<H, P>(hp: Hpack<H, P>, s: DecoderState<H>, frame: OutFrame, max: nat)
    requires AtBoundary(s) && s.continuations == NO_CONTINUATION && 0 < max <= s.maxFrameSize
    requires frame.payload.Data? && 0 < frame.id < 0x8000_0000
    ensures Run(hp, s, DataWire(frame, max)) == DataOutcome(s, frame, max)
  {
    if IsPadded(frame.flags) {
      PaddedDecodes(hp, s, frame, max);
    } else {
      UnpaddedDecodes(hp, s, frame, max);
    }
  }

  lemma {:induction false} DataMeetsNoPriority<H, P>(
    hp: Hpack<H, P>, s: DecoderState<H>, frame: OutFrame, max: nat, remaining: nat)
    requires AtBoundary(s) && s.continuations == NO_CONTINUATION && 0 < max <= s.maxFrameSize
    requires frame.payload.Data? && 0 < frame.id < 0x8000_0000 && remaining <= |frame.payload.data|
    ensures !Meets(hp, s, DataRest(frame, max, remaining), IsPriority)
    decreases remaining
  {
    if remaining == 0 {
      NothingMet(hp, s, IsPriority);
    } else {
      var behind := DataBehind(max, 0, remaining);
      DataMeetsNoPriority(hp, s, frame, max, behind);
      FrameMeets(hp, s, DATA, DataFlags(frame.flags, remaining <= max), frame.id,
                 frame.payload.data[0..DataLeft(max, 0, remaining)], DataRest(frame, max, behind), IsPriority);
    }
  }

  /** DATA frames may be cut anywhere, padded or not. */
  lemma DataAnyCuts<H, P>(hp: Hpack<H, P>, s: DecoderState<H>, frame: OutFrame, max: nat, segments: seq<seq<byte>>)
    requires AtBoundary(s) && s.continuations == NO_CONTINUATION && 0 < max <= s.maxFrameSize
    requires frame.payload.Data? && 0 < frame.id < 0x8000_0000 && Flatten(segments) == DataWire(frame, max)
    ensures RunSegments(hp, s, segments) == Run(hp, s, DataWire(frame, max))
  {
    if frame.payload.data == [] {
      NothingMet(hp, s, IsPriority);
      FrameMeets(hp, s, DATA, frame.flags, frame.id, frame.payload.data[0..0], [], IsPriority);
    } else {
      DataMeetsNoPriority(hp, s, frame, max, |frame.payload.data|);
    }
    NotMetAnyCuts(hp, s, segments);
  }

  /** The data of the reported DATA frames, put together. */
  function Content<P>(items: seq<Received<P>>): seq<byte> {
    if items == [] then []
    else (if items[0].kind.Complete? && items[0].kind.frame.payload.Data?
          then items[0].kind.frame.payload.data else []) + Content(items[1..])
  }

  /** `i` modulo `max`: the position within its frame of octet `i`. */
  function Wrap(i: nat, max: nat): (r: nat)
    requires 0 < max
    ensures r <= i && r < max
  {
    if i < max then i else Wrap(i - max, max)
  }

  /** Octet `i` of what arrives is octet `i` modulo `max` of what was sent. */
  ghost predicate Wrapped(content: seq<byte>, data: seq<byte>, max: nat)
    requires 0 < max && |content| <= |data|
  {
    forall i :: 0 <= i < |content| ==> content[i] == data[Wrap(i, max)]
  }

  lemma WrappedMore(data: seq<byte>, max: nat, n: nat, rest: seq<byte>)
    requires 0 < max && n + |rest| <= |data| && Wrapped(rest, data, max)
    requires n == max || (n <= max && rest == [])
    ensures Wrapped(data[0..n] + rest, data, max)
  {
    var content := data[0..n] + rest;
    forall i | 0 <= i < |content| ensures content[i] == data[Wrap(i, max)] {
      if i >= n {
        assert content[i] == rest[i - n];
      }
    }
  }

  lemma {:induction false} DataItemsContent<P>(frame: OutFrame, max: nat, remaining: nat)
    requires frame.payload.Data? && 0 < max && remaining <= |frame.payload.data|
    ensures |Content(DataItems<P>(frame, max, remaining))| == remaining
    ensures Wrapped(Content(DataItems<P>(frame, max, remaining)), frame.payload.data, max)
    decreases remaining
  {
    if remaining > 0 {
      var data := frame.payload.data;
      var n := DataLeft(max, 0, remaining);
      var behind := DataBehind(max, 0, remaining);
      DataItemsContent<P>(frame, max, behind);
      var items := DataItems<P>(frame, max, remaining);
      assert items[1..] == DataItems<P>(frame, max, behind);
      var rest := Content(items[1..]);
      var content := Content(items);
      assert content == data[0..n] + rest;
      WrappedMore(data, max, n, rest);
    }
  }

  /** END_STREAM, if set at all, is set on the last frame only; no frame is longer than `max`. */
  ghost predicate WellSplit<P>(items: seq<Received<P>>, frame: OutFrame, max: nat) {
    forall i :: 0 <= i < |items| ==>
      var h := items[i].header;
      && h.streamId == frame.id
      && h.frameType == DATA
      && h.payloadLength == |items[i].payload| <= max
      && IsEndStream(h.flags) == (IsEndStream(frame.flags) && i == |items| - 1)
  }

  lemma {:induction false} DataItemsWellSplit<P>(frame: OutFrame, max: nat, remaining: nat)
    requires frame.payload.Data? && 0 < max && remaining <= |frame.payload.data|
    ensures WellSplit(DataItems<P>(frame, max, remaining), frame, max)
    decreases remaining
  {
    if remaining > 0 {
      ClearEndStreamOnly(frame.flags);
      DataItemsWellSplit<P>(frame, max, DataBehind(max, 0, remaining));
    }
  }

  /** `k` frames of at most `max` octets are enough for `size` octets, and one less is not. */
  predicate JustEnough(k: nat, max: nat, size: nat) {
    size <= k * max && (k > 0 ==> (k - 1) * max < size)
  }

  lemma OneMoreFrame(k: nat, max: nat, behind: nat, n: nat)
    requires JustEnough(k, max, behind) && 0 < n <= max && (behind > 0 ==> n == max)
    ensures JustEnough(k + 1, max, behind + n)
  {
    assert (k + 1) * max == k * max + max;
    if k > 0 {
      assert (k - 1) * max == k * max - max;
    }
  }

  /** No more frames than needed, and nine octets for each besides the data. */
  lemma {:induction false} DataItemsCount<P>(frame: OutFrame, max: nat, remaining: nat)
    requires frame.payload.Data? && 0 < max && remaining <= |frame.payload.data|
    ensures var k := |DataItems<P>(frame, max, remaining)|;
            JustEnough(k, max, remaining) && |DataRest(frame, max, remaining)| == remaining + 9 * k
    decreases remaining
  {
    if remaining > 0 {
      var behind := DataBehind(max, 0, remaining);
      DataItemsCount<P>(frame, max, behind);
      OneMoreFrame(|DataItems<P>(frame, max, behind)|, max, behind, DataLeft(max, 0, remaining));
    }
  }

  lemma ArrivingIsRest<P>(frame: OutFrame, max: nat)
    requires frame.payload.Data? && 0 < max && frame.payload.data != []
    ensures DataArriving<P>(frame, max) == DataItems<P>(frame, max, |frame.payload.data|)
  {
  }

  /** Every octet is accounted for, at the right place; each frame starts over at the first octet. */
  lemma DataArrives<H, P>(hp: Hpack<H, P>, s: DecoderState<H>, frame: OutFrame, max: nat, segments: seq<seq<byte>>)
    requires AtBoundary(s) && s.continuations == NO_CONTINUATION && 0 < max <= s.maxFrameSize
    requires frame.payload.Data? && 0 < frame.id < 0x8000_0000
    requires Flatten(segments) == DataWire(frame, max)
    ensures RunSegments(hp, s, segments) == DataOutcome(s, frame, max)
    ensures var items := DataArriving<P>(frame, max);
            && WellSplit(items, frame, max)
            && (if frame.payload.data == [] then |items| == 1 else JustEnough(|items|, max, |frame.payload.data|))
            && |Content(items)| == |frame.payload.data|
            && Wrapped(Content(items), frame.payload.data, max)
  {
    var items := DataArriving<P>(frame, max);
    DataWireDecodes(hp, s, frame, max);
    if frame.payload.data == [] {
      ClearEndStreamOnly(frame.flags);
      assert items[1..] == [];
    } else {
      ArrivingIsRest<P>(frame, max);
      DataItemsContent<P>(frame, max, |frame.payload.data|);
      DataItemsWellSplit<P>(frame, max, |frame.payload.data|);
      DataItemsCount<P>(frame, max, |frame.payload.data|);
    }
    DataAnyCuts(hp, s, frame, max, segments);
  }

  /** Every octet equals the one at its position within the first frame. */
  ghost predicate Periodic(data: seq<byte>, max: nat)
    requires 0 < max
  {
    Wrapped(data, data, max)
  }

  /** The data arrives unchanged if and only if it repeats itself every `max` octets. */
  lemma DataArrivesIff<P>(frame: OutFrame, max: nat)
    requires frame.payload.Data? && 0 < max
    ensures Content(DataArriving<P>(frame, max)) == frame.payload.data <==> Periodic(frame.payload.data, max)
    ensures |frame.payload.data| <= max ==> Periodic(frame.payload.data, max)
  {
    var data := frame.payload.data;
    if data == [] {
      assert DataArriving<P>(frame, max)[1..] == [];
    } else {
      ArrivingIsRest<P>(frame, max);
      DataItemsContent<P>(frame, max, |data|);
    }
  }

  lemma {:induction false} UnpadLoses<P>(frame: OutFrame, max: nat, remaining: nat)
    requires frame.payload.Data? && 0 < max && remaining <= |frame.payload.data|
    requires remaining == 0 || frame.payload.data[0] < LastLength(max, remaining)
    ensures var n := |Content(UnpadItems(DataItems<P>(frame, max, remaining)))|;
            n <= remaining && (0 < remaining ==> n < remaining)
    decreases remaining
  {
    if remaining > 0 {
      var behind := DataBehind(max, 0, remaining);
      var item, items := DataItem<P>(frame, max, remaining), DataItems<P>(frame, max, behind);
      UnpadLoses<P>(frame, max, behind);
      assert ([item] + items)[1..] == items;
      assert ([UnpadItem(item)] + UnpadItems(items))[1..] == UnpadItems(items);
    }
  }

  /** Decoding succeeds, and what the frames report is `data`. */
  ghost predicate ComesBack<H, P>(r: RunResult<H, P>, data: seq<byte>) {
    r.Ok? && Content(r.value.0) == data
  }

  lemma EmptyDataComesBack<H, P>(hp: Hpack<H, P>, s: DecoderState<H>, frame: OutFrame, max: nat)
    requires AtBoundary(s) && s.continuations == NO_CONTINUATION && 0 < max <= s.maxFrameSize
    requires frame.payload.Data? && 0 < frame.id < 0x8000_0000 && frame.payload.data == []
    ensures ComesBack(Run(hp, s, DataWire(frame, max)), [])
  {
    FrameDecodes(hp, s, DATA, frame.flags, frame.id, [], []);
    NothingToDecode(hp, s);
    assert DataWire(frame, max) == HeaderBytes(0, DATA, frame.flags, frame.id) + ([] + []);
    var items := Run(hp, s, DataWire(frame, max)).value.0;
    assert items[1..] == [];
  }

  /** Data comes back if and only if it is empty, or it is not padded and repeats itself every `max` octets. */
  lemma DataComesBackIff<H, P>(hp: Hpack<H, P>, s: DecoderState<H>, frame: OutFrame, max: nat)
    requires AtBoundary(s) && s.continuations == NO_CONTINUATION && 0 < max <= s.maxFrameSize
    requires frame.payload.Data? && 0 < frame.id < 0x8000_0000
    ensures ComesBack(Run(hp, s, DataWire(frame, max)), frame.payload.data) <==>
            frame.payload.data == [] || (!IsPadded(frame.flags) && Periodic(frame.payload.data, max))
  {
    if frame.payload.data == [] {
      EmptyDataComesBack(hp, s, frame, max);
    } else if IsPadded(frame.flags) {
      PaddedDecodes(hp, s, frame, max);
      if PaddingFits(frame.payload.data, max) {
        UnpadLoses<P>(frame, max, |frame.payload.data|);
        ArrivingIsRest<P>(frame, max);
      }
    } else {
      DataWireDecodes(hp, s, frame, max);
      DataArrivesIff<P>(frame, max);
    }
  }

  /** One octet too many for one frame: it is lost, and the first octet is sent twice. */
  lemma DataRestarts<P>(frame: OutFrame, max: nat)
    requires frame.payload.Data? && 0 < max && |frame.payload.data| == max + 1
    ensures Content(DataArriving<P>(frame, max)) == frame.payload.data[..max] + [frame.payload.data[0]]
  {
    ArrivingIsRest<P>(frame, max);
    DataItemsContent<P>(frame, max, max + 1);
  }

  // ---------------------------------------------------------------------------
  // Control frames.
  // ---------------------------------------------------------------------------

  /** A value of the type the decoder accepts for this setting. */
  predicate ValidSetting(s: Setting) {
    match s
    case InitialWindowSize(size) => size <= MAX_INITIAL_WINDOW_SIZE
    case MaxFrameSize(size) => DEFAULT_MAX_FRAME_SIZE <= size <= MAX_ALLOWED_MAX_FRAME_SIZE
    case _ => true
  }

  predicate Word(v: nat) {
    v < 0x1_0000_0000
  }

  ghost predicate Words(settings: seq<Setting>) {
    forall s :: s in settings ==> Word(SettingValue(s))
  }

  ghost predicate ValidSettings(settings: seq<Setting>) {
    forall s :: s in settings ==> ValidSetting(s)
  }

  lemma SettingRoundTrip(s: Setting)
    requires Word(SettingValue(s))
    ensures ParseSetting(SettingBytes(s)) == Ok(Some(s)) <==> ValidSetting(s)
    ensures ParseSetting(SettingBytes(s)).Ok? ==> ValidSetting(s)
  {
    var token := SettingBytes(s);
    Be32RoundTrip(SettingValue(s));
    assert token[2..6] == Be(SettingValue(s), 4);
    assert Be(SettingId(s), 2) == [Digit(SettingId(s), 1), Digit(SettingId(s), 0)];
    assert Digit(SettingId(s), 1) == SettingId(s) / 256 % 256;
    assert (token[0] as int) * 256 + token[1] == SettingId(s);
  }

  /** A list of settings, of any length, comes back if and only if every one of them is valid. */
  lemma {:induction false} SettingsRoundTrip(settings: seq<Setting>)
    requires Words(settings)
    ensures ParseSettings(SettingsBytes(settings)) == Ok(settings) <==> ValidSettings(settings)
  {
    if settings != [] {
      var bytes := SettingsBytes(settings);
      assert bytes[..6] == SettingBytes(settings[0]) && bytes[6..] == SettingsBytes(settings[1..]);
      SettingRoundTrip(settings[0]);
      SettingsRoundTrip(settings[1..]);
      assert settings == [settings[0]] + settings[1..];
    }
  }

  /** The payload as the decoder reports it: the same, at the decoder's type of header lists. */
  function Retyped<P>(p: Payload<seq<byte>>): Payload<P>
    requires IsControl(p)
  {
    match p
    case Priority(exclusive, dependency, weight) => Priority(exclusive, dependency, weight)
    case RstStream(code) => RstStream(code)
    case Ping(data) => Ping(data)
    case Settings(settings) => Settings(settings)
    case Goaway(code, last, debug) => Goaway(code, last, debug)
    case WindowUpdate(increment) => WindowUpdate(increment)
  }

  /** Fields that fit the types of the source: 32-bit integers, eight octets of PING data. */
  ghost predicate Typed(p: Payload<seq<byte>>)
    requires IsControl(p)
  {
    match p
    case Priority(_, dependency, _) => Word(dependency)
    case RstStream(code) => Word(code)
    case Ping(data) => |data| == 8
    case Settings(settings) => Words(settings)
    case Goaway(code, last, _) => Word(code) && Word(last)
    case WindowUpdate(increment) => Word(increment)
  }

  /** What a frame must satisfy to be understood: the right stream, reserved bits clear, legal values. */
  ghost predicate Deliverable(frame: OutFrame)
    requires IsControl(frame.payload)
  {
    match frame.payload
    case Priority(_, dependency, _) => frame.id != 0 && dependency < 0x8000_0000
    case RstStream(_) => frame.id != 0
    case Ping(_) => frame.id == 0
    case Settings(settings) =>
      && frame.id == 0
      && (if IsAck(frame.flags) then settings == [] else ValidSettings(settings))
    case Goaway(_, last, _) => frame.id == 0 && last < 0x8000_0000
    case WindowUpdate(increment) => 0 < increment < 0x8000_0000
  }

  /** A 31-bit field comes back if and only if its reserved bit was clear. */
  lemma ReservedBit(v: nat)
    requires Word(v)
    ensures Nat31(Be(v, 4)) == v <==> v < 0x8000_0000
  {
    Be32RoundTrip(v);
  }

  lemma PriorityRoundTrip<P>(h: FrameHeader, exclusive: bool, dependency: nat, weight: byte)
    requires Word(dependency) && h.payloadLength == 5
    ensures var p := Payload<seq<byte>>.Priority(exclusive, dependency, weight);
            DecodePriority<P>(h, 5, ControlPayload(p)) == Ok(CompleteFrame(h, Retyped(p)))
            <==> h.streamId != 0 && dependency < 0x8000_0000
  {
    var p := ControlPayload(Payload<seq<byte>>.Priority(exclusive, dependency, weight));
    ReservedBit(dependency);
    var d := Be(dependency, 4);
    assert p[1] == d[1] && p[2] == d[2] && p[3] == d[3] && p[4] == weight;
    assert p[0] == PriorityByte(exclusive, dependency);
    assert p[0] % 128 == d[0] % 128 && (p[0] >= 128 <==> exclusive);
    assert Nat31(p[..4]) == Nat31(d);
  }

  lemma GoawayRoundTrip<P>(h: FrameHeader, code: nat, last: nat, debug: seq<byte>)
    requires Word(code) && Word(last) && h.payloadLength == 8 + |debug|
    ensures var p := Payload<seq<byte>>.Goaway(code, last, debug);
            DecodeGoaway<P>(h, ControlPayload(p)) == Ok(CompleteFrame(h, Retyped(p)))
            <==> h.streamId == 0 && last < 0x8000_0000
  {
    var p := ControlPayload(Payload<seq<byte>>.Goaway(code, last, debug));
    ReservedBit(last);
    Be32RoundTrip(code);
    assert p[..4] == Be(last, 4) && p[4..8] == Be(code, 4) && p[8..] == debug;
  }

  /** What settings are parsed to, reported for the frame `h`. */
  ghost function Report<P>(h: FrameHeader, parsed: Outcome<seq<Setting>>): Outcome<FrameKind<P>> {
    if parsed.Ok? then Ok(CompleteFrame(h, Settings(parsed.value))) else parsed.PropagateFailure()
  }

  ghost function Parsed(p: seq<byte>): Outcome<seq<Setting>> {
    if |p| % 6 == 0 then ParseSettings(p) else Panic
  }

  /** A payload of `n` whole settings. */
  lemma WholeSettings<P>(h: FrameHeader, p: seq<byte>, n: nat)
    requires |p| == h.payloadLength == 6 * n
    ensures DecodeSettings<P>(h, p)
            == if h.streamId != 0 then Err(PROTOCOL_ERROR)
               else if IsAck(h.flags) then if n != 0 then Err(FRAME_SIZE_ERROR) else Ok(CompleteFrame(h, Settings([])))
               else Report(h, Parsed(p))
  {
    assert |p| % 6 == 0;
  }

  lemma ParsedRoundTrip(settings: seq<Setting>)
    requires Words(settings)
    ensures Parsed(SettingsBytes(settings)) == Ok(settings) <==> ValidSettings(settings)
  {
    SixTimes(|settings|);
    SettingsRoundTrip(settings);
  }

  lemma SixTimes(n: nat)
    ensures 6 * n % 6 == 0
  {
  }

  lemma SettingsFrameRoundTrip<P>(h: FrameHeader, settings: seq<Setting>)
    requires h.payloadLength == 6 * |settings| && Words(settings)
    ensures DecodeSettings<P>(h, SettingsBytes(settings)) == Ok(CompleteFrame(h, Settings(settings)))
            <==> && h.streamId == 0
                 && (if IsAck(h.flags) then settings == [] else ValidSettings(settings))
  {
    WholeSettings<P>(h, SettingsBytes(settings), |settings|);
    ParsedRoundTrip(settings);
  }

  lemma ControlRoundTrip<P>(frame: OutFrame)
    requires IsControl(frame.payload) && Typed(frame.payload)
    ensures var p := ControlPayload(frame.payload);
            var h := FrameHeader(ControlId(frame), frame.flags, ControlType(frame.payload), |p|);
            DecodeStateless<P>(h, |p|, p) == Ok(Complete(Frame(frame.id, frame.flags, Retyped(frame.payload))))
            <==> Deliverable(frame)
  {
    var p := ControlPayload(frame.payload);
    var h := FrameHeader(ControlId(frame), frame.flags, ControlType(frame.payload), |p|);
    match frame.payload
    case Priority(exclusive, dependency, weight) => PriorityRoundTrip<P>(h, exclusive, dependency, weight);
    case RstStream(code) => Be32RoundTrip(code);
    case Ping(_) =>
    case Settings(settings) => SettingsFrameRoundTrip<P>(h, settings);
    case Goaway(code, last, debug) => GoawayRoundTrip<P>(h, code, last, debug);
    case WindowUpdate(increment) => ReservedBit(increment);
  }

  /** A frame that leaves HPACK and the open block alone, with nothing behind it. */
  lemma StatelessDelivers<H, P>(hp: Hpack<H, P>, s: DecoderState<H>, h: FrameHeader, p: seq<byte>)
    requires AtBoundary(s) && |p| == h.payloadLength
    requires h.frameType !in {HEADERS, PUSH_PROMISE, CONTINUATION}
    ensures var kind := DecodeStateless<P>(h, |p|, p);
            Deliver(hp, s, h, p, DecodeFrame(hp, h, s.continuations, s.hpack, |p|, p), [])
            == if kind.Ok? then Ok(([Received(h, p, kind.value)], s)) else kind.PropagateFailure()
  {
    var kind := DecodeStateless<P>(h, |p|, p);
    NothingToDecode(hp, s);
    if kind.Ok? {
      assert [Received(h, p, kind.value)] + [] == [Received(h, p, kind.value)];
    }
  }

  /** A control frame is reported exactly as it was sent if and only if it is deliverable. */
  lemma ControlArrivesIff<H, P>(hp: Hpack<H, P>, s: DecoderState<H>, frame: OutFrame)
    requires AtBoundary(s) && s.continuations == NO_CONTINUATION
    requires IsControl(frame.payload) && Typed(frame.payload) && frame.id < 0x8000_0000
    requires |ControlPayload(frame.payload)| <= s.maxFrameSize
    ensures Arrived(Run(hp, s, ControlWire(frame)), s, frame) <==> Deliverable(frame)
  {
    var p := ControlPayload(frame.payload);
    var h := FrameHeader(ControlId(frame), frame.flags, ControlType(frame.payload), |p|);
    assert p + [] == p;
    FrameDecodes(hp, s, h.frameType, frame.flags, h.streamId, p, []);
    StatelessDelivers(hp, s, h, p);
    ControlRoundTrip<P>(frame);
    KindsOfOne(Run(hp, s, ControlWire(frame)), s, frame, h, p);
  }

  lemma KindsOfOne<H, P>(r: RunResult<H, P>, s: DecoderState<H>, frame: OutFrame, h: FrameHeader, p: seq<byte>)
    requires IsControl(frame.payload) && |p| == h.payloadLength
    requires var kind := DecodeStateless<P>(h, |p|, p);
             r == if kind.Ok? then Ok(([Received(h, p, kind.value)], s)) else kind.PropagateFailure()
    ensures Arrived(r, s, frame) <==>
            DecodeStateless<P>(h, |p|, p) == Ok(Complete(Frame(frame.id, frame.flags, Retyped(frame.payload))))
  {
    var kind := DecodeStateless<P>(h, |p|, p);
    if kind.Ok? {
      assert Kinds(r.value.0) == [kind.value];
    }
  }

  /** One report, of this frame, and the decoder is back where it was. */
  ghost predicate Arrived<H, P>(r: RunResult<H, P>, s: DecoderState<H>, frame: OutFrame)
    requires IsControl(frame.payload)
  {
    && r.Ok?
    && Kinds(r.value.0) == [Complete(Frame(frame.id, frame.flags, Retyped(frame.payload)))]
    && r.value.1 == s
  }

  /** The same however the octets are cut on their way, except for PRIORITY, which must not be cut. */
  lemma ControlArrivesInSegmentsIff<H, P>(
    hp: Hpack<H, P>, s: DecoderState<H>, frame: OutFrame, segments: seq<seq<byte>>)
    requires AtBoundary(s) && s.continuations == NO_CONTINUATION
    requires IsControl(frame.payload) && Typed(frame.payload) && frame.id < 0x8000_0000
    requires |ControlPayload(frame.payload)| <= s.maxFrameSize
    requires Flatten(segments) == ControlWire(frame) && (frame.payload.Priority? ==> SafeCuts(hp, s, segments))
    ensures Arrived(RunSegments(hp, s, segments), s, frame) <==> Deliverable(frame)
  {
    ControlArrivesIff(hp, s, frame);
    if frame.payload.Priority? {
      SegmentsAreInvisible(hp, s, segments);
    } else {
      ControlMeetsNoPriority(hp, s, frame);
      NotMetAnyCuts(hp, s, segments);
    }
  }

  lemma ControlMeetsNoPriority<H, P>(hp: Hpack<H, P>, s: DecoderState<H>, frame: OutFrame)
    requires AtBoundary(s) && IsControl(frame.payload) && !frame.payload.Priority? && frame.id < 0x8000_0000
    requires |ControlPayload(frame.payload)| <= s.maxFrameSize
    ensures !Meets(hp, s, ControlWire(frame), IsPriority)
  {
    var p := ControlPayload(frame.payload);
    var h := FrameHeader(ControlId(frame), frame.flags, ControlType(frame.payload), |p|);
    assert p + [] == p;
    FrameMeets(hp, s, h.frameType, frame.flags, h.streamId, p, [], IsPriority);
    var decoded := DecodeFrame(hp, h, s.continuations, s.hpack, |p|, p);
    if decoded.Ok? {
      NothingMet(hp, s.(hpack := decoded.value.hpack, continuations := decoded.value.continuations), IsPriority);
    }
  }
}
