/** SETTINGS frames (section 6.5 of RFC 9113) on the wire: which are refused, and what the others report. */
module H2SettingsFormat {
  import opened Octets
  import opened H2Frame
  import opened H2Decoder
  import opened H2Segments
  import opened H2Format

  /** The identifier of setting number `k`: two octets, in front of the four of its value. */
  function IdAt(p: seq<byte>, k: nat): nat
    requires 6 * k + 6 <= |p|
  {
    (p[6 * k] as int) * 0x100 + p[6 * k + 1]
  }

  function ValueAt(p: seq<byte>, k: nat): nat
    requires 6 * k + 6 <= |p|
  {
    Field32(p, 6 * k + 2)
  }

  predicate IsKnown(id: nat) {
    1 <= id <= 6
  }

  /** Values that a setting may not have. */
  predicate IsIllegal(id: nat, value: nat) {
    || (id == 2 && value > 1)
    || (id == 4 && value > 0x7FFF_FFFF)
    || (id == 5 && !(16384 <= value <= 16777215))
  }

  function Meaning(id: nat, value: nat): Setting
    requires IsKnown(id)
  {
    if id == 1 then HeaderTableSize(value)
    else if id == 2 then EnablePush(value == 1)
    else if id == 3 then MaxConcurrentStreams(value)
    else if id == 4 then InitialWindowSize(value)
    else if id == 5 then MaxFrameSize(value)
    else MaxHeaderListSize(value)
  }

  /** Setting number `k`, if its identifier is known. */
  function OneAt(p: seq<byte>, k: nat): seq<Setting>
    requires 6 * k + 6 <= |p|
  {
    if IsKnown(IdAt(p, k)) then [Meaning(IdAt(p, k), ValueAt(p, k))] else []
  }

  /** The settings with a known identifier from number `k` on, in their order. */
  function KnownFrom(p: seq<byte>, k: nat): seq<Setting>
    decreases |p| - 6 * k
  {
    if 6 * k + 6 > |p| then [] else OneAt(p, k) + KnownFrom(p, k + 1)
  }

  /** There is a setting number `k`, and it is illegal. */
  predicate IllegalAt(p: seq<byte>, k: nat) {
    6 * k + 6 <= |p| && IsIllegal(IdAt(p, k), ValueAt(p, k))
  }

  ghost predicate Refusable(p: seq<byte>) {
    exists k: nat :: IllegalAt(p, k)
  }

  /** An illegal setting, and none in front of it. */
  ghost predicate FirstIllegal(p: seq<byte>, k: nat) {
    IllegalAt(p, k) && forall j: nat :: j < k ==> !IllegalAt(p, j)
  }

  /** The window size has an error code of its own. */
  function CodeOf(id: nat): ErrorCode {
    if id == 4 then FlowControlError else ProtocolError
  }

  // ---------------------------------------------------------------------------
  // The decoder agrees.
  // ---------------------------------------------------------------------------

  lemma TokenIs(p: seq<byte>, k: nat)
    requires 6 * k + 6 <= |p|
    ensures var id, value := IdAt(p, k), ValueAt(p, k);
            ParseSetting(p[6 * k..6 * k + 6])
            == if IsIllegal(id, value) then Err(ConnectionError(CodeOf(id)))
               else Ok(if IsKnown(id) then Some(Meaning(id, value)) else None)
  {
    var token := p[6 * k..6 * k + 6];
    FieldsAre(p, 6 * k + 2);
    assert token[2..6] == p[6 * k + 2..6 * k + 6];
  }

  /** What the settings from number `k` on come to. */
  function ParsedFrom(p: seq<byte>, k: nat): Outcome<seq<Setting>>
    decreases |p| - 6 * k
  {
    if 6 * k + 6 > |p| then Ok([])
    else if IllegalAt(p, k) then Err(ConnectionError(CodeOf(IdAt(p, k))))
    else Behind(OneAt(p, k), ParsedFrom(p, k + 1))
  }

  lemma {:induction false} ParsesFrom(p: seq<byte>, n: nat, k: nat)
    requires |p| == 6 * n && k <= n
    ensures |p[6 * k..]| % 6 == 0 && ParseSettings(p[6 * k..]) == ParsedFrom(p, k)
    decreases n - k
  {
    assert |p[6 * k..]| == 6 * (n - k);
    if k < n {
      NextToken(p, 6 * k);
      TokenIs(p, k);
      ParsesFrom(p, n, k + 1);
    }
  }

  lemma {:induction false} NoneIllegal(p: seq<byte>, k: nat)
    requires forall j: nat :: !IllegalAt(p, j)
    ensures ParsedFrom(p, k) == Ok(KnownFrom(p, k))
    decreases |p| - 6 * k
  {
    if 6 * k + 6 <= |p| {
      NoneIllegal(p, k + 1);
    }
  }

  lemma {:induction false} FirstDecides(p: seq<byte>, k: nat, first: nat)
    requires FirstIllegal(p, first) && k <= first
    ensures ParsedFrom(p, k) == Err(ConnectionError(CodeOf(IdAt(p, first))))
    decreases first - k
  {
    if k < first {
      FirstDecides(p, k + 1, first);
    }
  }

  lemma {:induction false} FirstOf(p: seq<byte>, k: nat) returns (first: nat)
    requires IllegalAt(p, k)
    ensures FirstIllegal(p, first)
  {
    if j: nat :| j < k && IllegalAt(p, j) {
      first := FirstOf(p, j);
    } else {
      first := k;
    }
  }

  lemma SettingsParse(p: seq<byte>)
    requires |p| % 6 == 0
    ensures !Refusable(p) ==> ParseSettings(p) == Ok(KnownFrom(p, 0))
    ensures Refusable(p) ==> ParseSettings(p).Err?
    ensures forall k: nat :: FirstIllegal(p, k) ==> ParseSettings(p) == Err(ConnectionError(CodeOf(IdAt(p, k))))
  {
    assert p[0..] == p;
    ParsesFrom(p, |p| / 6, 0);
    if Refusable(p) {
      var k: nat :| IllegalAt(p, k);
      var first := FirstOf(p, k);
      FirstDecides(p, 0, first);
    } else {
      NoneIllegal(p, 0);
    }
  }

  /** Settings may be there at all: on stream 0, in tokens of six octets, and none in an acknowledgement. */
  predicate WellFramed(flags: byte, id: nat, p: seq<byte>) {
    id == 0 && |p| % 6 == 0 && (flags % 2 == 1 ==> p == [])
  }

  /**
   * SETTINGS has type 4. It is refused if and only if it is not well framed or some setting is illegal; the first
   * illegal one decides on the error. Otherwise the settings with known identifiers are reported, in their order.
   */
  lemma SettingsFormat<H, P>(hp: Hpack<H, P>, s: DecoderState<H>, flags: byte, id: nat, p: seq<byte>)
    requires Fits(s, id, p)
    ensures var r := Answer(hp, s, 4, flags, id, p);
            && (r.Ok? <==> WellFramed(flags, id, p) && !Refusable(p))
            && (r.Ok? ==> Reports(r, s, 4, flags, id, p, Settings(KnownFrom(p, 0)), s.hpack))
            && (!WellFramed(flags, id, p) ==>
                  r == Err(ConnectionError(if id != 0 then ProtocolError else FrameSizeError)))
            && (WellFramed(flags, id, p) ==>
                  forall k: nat :: FirstIllegal(p, k) ==> r == Err(ConnectionError(CodeOf(IdAt(p, k)))))
  {
    AnswerIs(hp, s, 4, flags, id, p);
    if WellFramed(flags, id, p) {
      SettingsParse(p);
    }
  }

  // ---------------------------------------------------------------------------
  // Identifiers that nobody knows.
  // ---------------------------------------------------------------------------

  /** The settings of `first`, and those behind them. */
  function Joined(first: Outcome<seq<Setting>>, rest: Outcome<seq<Setting>>): Outcome<seq<Setting>> {
    if first.Ok? then Behind(first.value, rest) else first
  }

  lemma InFrontJoined(setting: Outcome<Option<Setting>>, first: Outcome<seq<Setting>>, rest: Outcome<seq<Setting>>)
    ensures InFront(setting, Joined(first, rest)) == Joined(InFront(setting, first), rest)
  {
    if setting.Ok? && first.Ok? && rest.Ok? {
      var one := if setting.value.Some? then [setting.value.value] else [];
      assert one + (first.value + rest.value) == one + first.value + rest.value;
    }
  }

  lemma TokenInFront(token: seq<byte>, rest: seq<byte>)
    requires |token| == 6 && |rest| % 6 == 0
    ensures |token + rest| % 6 == 0
    ensures ParseSettings(token + rest) == InFront(ParseSetting(token), ParseSettings(rest))
  {
    var p := token + rest;
    assert p[0..] == p && p[0..6] == token && p[6..] == rest && |p| % 6 == 0;
    NextToken(p, 0);
  }

  lemma {:induction false} ParseJoin(a: seq<byte>, b: seq<byte>)
    requires |a| % 6 == 0 && |b| % 6 == 0
    ensures |a + b| % 6 == 0 && ParseSettings(a + b) == Joined(ParseSettings(a), ParseSettings(b))
    decreases |a|
  {
    if a == [] {
      assert a + b == b;
      BehindNothing(ParseSettings(b));
    } else {
      var token, rest := a[..6], a[6..];
      ParseJoin(rest, b);
      TokenInFront(token, rest);
      TokenInFront(token, rest + b);
      assert a == token + rest && a + b == token + (rest + b);
      InFrontJoined(ParseSetting(token), ParseSettings(rest), ParseSettings(b));
    }
  }

  lemma ParseSkips(a: seq<byte>, token: seq<byte>, b: seq<byte>)
    requires |a| % 6 == 0 && |token| == 6 && |b| % 6 == 0 && !(1 <= IdAt(token, 0) <= 6)
    ensures |a + (token + b)| % 6 == 0 && |a + b| % 6 == 0
    ensures ParseSettings(a + (token + b)) == ParseSettings(a + b)
  {
    TokenIs(token, 0);
    assert token[0..6] == token;
    TokenInFront(token, b);
    BehindNothing(ParseSettings(b));
    ParseJoin(a, token + b);
    ParseJoin(a, b);
  }

  /** Two answers that a caller cannot tell apart. */
  ghost predicate SameAnswer<H, P>(a: RunResult<H, P>, b: RunResult<H, P>) {
    if a.Ok? then b.Ok? && Kinds(a.value.0) == Kinds(b.value.0) && a.value.1 == b.value.1 else a == b
  }

  /** A setting with an unknown identifier, put in anywhere between two settings, changes nothing. */
  lemma UnknownIsSkipped<H, P>(
    hp: Hpack<H, P>, s: DecoderState<H>, flags: byte, a: seq<byte>, token: seq<byte>, b: seq<byte>)
    requires |a| % 6 == 0 && |token| == 6 && |b| % 6 == 0 && !(1 <= IdAt(token, 0) <= 6) && flags % 2 == 0
    requires Fits(s, 0, a + (token + b)) && Fits(s, 0, a + b)
    ensures SameAnswer(Answer(hp, s, 4, flags, 0, a + (token + b)), Answer(hp, s, 4, flags, 0, a + b))
  {
    ParseSkips(a, token, b);
    AnswerIs(hp, s, 4, flags, 0, a + (token + b));
    AnswerIs(hp, s, 4, flags, 0, a + b);
  }
}
