/** HTTP/3 SETTINGS (section 7.2.4 of RFC 9114) on the wire: what any list of settings comes to. */
module H3SettingsFormat {
  import opened Octets
  import opened Varint
  import opened H3Frame
  import opened H3Stream
  import opened H3Settings

  /** The last value given for a key. */
  function LastOf(pairs: seq<Pair>, key: nat): Option<nat> {
    if pairs == [] then None else
    var last := pairs[|pairs| - 1];
    if last.0 == key then Some(last.1) else LastOf(pairs[..|pairs| - 1], key)
  }

  /** The pairs whose keys mean nothing, in their order. */
  function Others(pairs: seq<Pair>): seq<Pair> {
    if pairs == [] then [] else
    var last := pairs[|pairs| - 1];
    Others(pairs[..|pairs| - 1]) + if last.0 in {0x1, 0x6, 0x7, 0x8, 0x33} then [] else [last]
  }

  /** Key 0x1 is the QPACK table capacity, 0x6 the field section size, 0x7 the blocked streams; two are extensions. */
  function Told(pairs: seq<Pair>): Settings {
    Settings(
      maxFieldSectionSize := LastOf(pairs, 0x6),
      qpackMaxTableCapacity := LastOf(pairs, 0x1),
      qpackBlockedStreams := LastOf(pairs, 0x7),
      connectProtocolEnabled := LastOf(pairs, 0x8),
      h3Datagram := LastOf(pairs, 0x33),
      additional := if Others(pairs) == [] then None else Some(Others(pairs)))
  }

  lemma ToldMore(pairs: seq<Pair>, p: Pair)
    ensures Told(pairs + [p]) == SetSetting(Told(pairs), p.0, p.1)
  {
    assert (pairs + [p])[..|pairs|] == pairs;
    assert Others(pairs) + [] == Others(pairs);
  }

  lemma {:induction false} FoldIsTold(pairs: seq<Pair>)
    ensures Fold(NO_SETTINGS, pairs) == Told(pairs)
  {
    if pairs != [] {
      var init, p := pairs[..|pairs| - 1], pairs[|pairs| - 1];
      assert pairs == init + [p];
      FoldIsTold(init);
      FoldJoin(NO_SETTINGS, init, [p]);
      ToldMore(init, p);
    }
  }

  /** Keys that HTTP/3 forbids. */
  predicate IsForbidden(key: nat) {
    key in {0x0, 0x2, 0x3, 0x4, 0x5}
  }

  ghost predicate FirstForbidden(pairs: seq<Pair>, k: nat) {
    && k < |pairs| && IsForbidden(pairs[k].0)
    && forall i :: 0 <= i < k ==> !IsForbidden(pairs[i].0)
  }

  lemma ForbiddenIff(key: nat)
    ensures IsForbidden(key) <==> IsReserved(key)
  {
  }

  lemma FirstOfMore(pairs: seq<Pair>, k: nat)
    requires FirstForbidden(pairs, k) && k > 0
    ensures FirstForbidden(pairs[1..], k - 1) && pairs[1..][k - 1] == pairs[k]
  {
  }

  /** From octet `i` on, parsing comes to `r`. */
  ghost predicate ComesTo(b: seq<byte>, i: nat, length: nat, s: Settings, r: SettingsResult)
    requires i <= |b|
  {
    r == ParseSettings(b, i, length, s)
  }

  lemma PairComesTo(b: seq<byte>, i: nat, p: Pair, tail: seq<byte>, length: nat, s: Settings, r: SettingsResult)
    returns (next: nat, t: Settings)
    requires Small(p) && i <= |b| && b[i..] == PairBytes(p) + tail && i < length && ComesTo(b, i, length, s, r)
    ensures next == i + |PairBytes(p)| <= |b| && b[next..] == tail
    ensures IsForbidden(p.0) ==> r == Malformed(UnsupportedSetting(p.0))
    ensures !IsForbidden(p.0) ==> ComesTo(b, next, length, t, r)
  {
    OnePair(b, i, p, tail, length, s);
    ForbiddenIff(p.0);
    next, t := i + |PairBytes(p)|, SetSetting(s, p.0, p.1);
  }

  /** The first forbidden key decides. */
  lemma {:induction false} ForbiddenDecides(
    b: seq<byte>, i: nat, pairs: seq<Pair>, rest: seq<byte>, length: nat, s: Settings, k: nat, r: SettingsResult)
    requires Encodable(pairs) && i <= |b| && b[i..] == PairsBytes(pairs) + rest && length == i + |PairsBytes(pairs)|
    requires FirstForbidden(pairs, k) && ComesTo(b, i, length, s, r)
    ensures r == Malformed(UnsupportedSetting(pairs[k].0))
    decreases k
  {
    var p, more := pairs[0], pairs[1..];
    FirstPair(pairs, p, more, rest);
    var next, t := PairComesTo(b, i, p, PairsBytes(more) + rest, length, s, r);
    if k > 0 {
      FirstOfMore(pairs, k);
      ForbiddenDecides(b, next, more, rest, length, t, k - 1, r);
    }
  }

  lemma DeniedStep(s: Stream, u: seq<byte>, key: nat)
    requires s.phase.SettingsPhase? && Length(s) <= |u|
    requires ParseSettings(u, 0, Length(s), NO_SETTINGS) == Malformed(UnsupportedSetting(key))
    ensures SettingsStep(s, u) == Stop(Failed(UnsupportedSetting(key)))
  {
  }

  lemma ForbiddenStep(payload: seq<byte>, pairs: seq<Pair>, k: nat, key: nat)
    requires Encodable(pairs) && payload == PairsBytes(pairs) && FirstForbidden(pairs, k) && pairs[k].0 == key
    ensures SettingsStep(BeforePayload(|payload|), payload) == Stop(Failed(UnsupportedSetting(key)))
  {
    assert payload[0..] == payload + [];
    var r := ParseSettings(payload, 0, |payload|, NO_SETTINGS);
    ForbiddenDecides(payload, 0, pairs, [], |payload|, NO_SETTINGS, k, r);
    DeniedStep(BeforePayload(|payload|), payload, key);
  }

  lemma StopsRun(s: Stream, u: seq<byte>, step: StepResult)
    requires s.phase.SettingsPhase? && SettingsStep(s, u) == step && step.Stop?
    ensures Run(s, u) == step.result
  {
  }

  /** A SETTINGS frame, which has type 4. */
  function FrameOf(pairs: seq<Pair>): seq<byte>
    requires Encodable(pairs) && |PairsBytes(pairs)| < VARINT_LIMIT
  {
    VarintBytes(4) + (VarintBytes(|PairsBytes(pairs)|) + PairsBytes(pairs))
  }

  /** On a control stream that is not set, a SETTINGS frame with a forbidden key is refused for the first of them. */
  lemma ForbiddenRefused(pairs: seq<Pair>, k: nat)
    requires Encodable(pairs) && |PairsBytes(pairs)| < VARINT_LIMIT && FirstForbidden(pairs, k)
    ensures Run(ControlStream(false), FrameOf(pairs)) == Failed(UnsupportedSetting(pairs[k].0))
  {
    var payload, key := PairsBytes(pairs), pairs[k].0;
    SettingsHeaderRuns(|payload|, payload);
    ForbiddenStep(payload, pairs, k, key);
    StopsRun(BeforePayload(|payload|), payload, Stop(Failed(UnsupportedSetting(key))));
  }

  lemma NoneForbidden(pairs: seq<Pair>)
    requires forall i :: 0 <= i < |pairs| ==> !IsForbidden(pairs[i].0)
    ensures NoReserved(pairs)
  {
    forall i | 0 <= i < |pairs| ensures !IsReserved(pairs[i].0) {
      ForbiddenIff(pairs[i].0);
    }
  }

  lemma PairsTold(pairs: seq<Pair>)
    requires Encodable(pairs) && NoReserved(pairs)
    ensures var payload := PairsBytes(pairs);
            ParseSettings(payload + [], 0, |payload|, NO_SETTINGS) == Parsed(Told(pairs), |payload|)
  {
    var payload := PairsBytes(pairs);
    assert (payload + [])[0..] == payload + [];
    PairsParse(payload + [], 0, pairs, [], |payload|, NO_SETTINGS);
    FoldIsTold(pairs);
  }

  /** Any other list of settings is reported, with the last value of every key that means something and all others. */
  lemma SettingsReported(pairs: seq<Pair>)
    requires Encodable(pairs) && |PairsBytes(pairs)| < VARINT_LIMIT
    requires forall i :: 0 <= i < |pairs| ==> !IsForbidden(pairs[i].0)
    ensures Run(ControlStream(false), FrameOf(pairs))
            == Waiting(ControlStream(true), [], [Received(SettingsFrame(Told(pairs)))])
  {
    var payload := PairsBytes(pairs);
    SettingsHeaderRuns(|payload|, payload);
    NoneForbidden(pairs);
    PairsTold(pairs);
    PayloadStep(payload, [], Told(pairs));
    assert payload + [] == payload;
    RunGo(BeforePayload(|payload|), payload);
  }
}
