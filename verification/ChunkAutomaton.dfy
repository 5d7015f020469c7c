/**
 * Chunked transfer coding (section 7.1 of RFC 9112) as the chunk decoder of
 * ylong_http/src/body/chunk.rs reads it, one octet at a time.
 */
module ChunkAutomaton {
  import opened Octets

  datatype Stage = Size | Extension | SizeEnd | Data | DataEnd

  datatype DecoderState = DecoderState(
    stage: Stage,
    chunkNum: nat,
    totalSize: nat,
    restSize: nat,
    hexCount: nat,
    crMeet: bool,
    isLastChunk: bool)

  /** What a caller learns: an octet of chunk `id`, or the end of chunk `id`. */
  datatype Event = Octet(id: nat, value: byte) | Finish(id: nat, size: nat)

  /** Either the input was malformed, or more is needed, or the last chunk ended in front of `rest`. */
  datatype RunResult =
    | Fail
    | More(state: DecoderState, events: seq<Event>)
    | Done(state: DecoderState, events: seq<Event>, rest: seq<byte>)

  const CR: byte := 13
  const LF: byte := 10
  const SP: byte := 32
  const HTAB: byte := 9
  const SEMICOLON: byte := 59

  /** The first value that a signed 64-bit integer cannot hold. */
  const I64_LIMIT := 0x8000_0000_0000_0000

  const INITIAL := DecoderState(Size, 0, 0, 0, 0, false, false)

  predicate IsHex(b: byte) {
    48 <= b <= 57 || 65 <= b <= 70 || 97 <= b <= 102
  }

  function HexDigit(b: byte): (d: nat)
    requires IsHex(b)
    ensures d < 16
  {
    if b <= 57 then b - 48 else if b <= 70 then b - 55 else b - 87
  }

  /** Octets that end the digits of a chunk size. */
  predicate EndsSize(b: byte) {
    b == SP || b == HTAB || b == SEMICOLON || b == CR || b == LF
  }

  /** What holds between two octets. */
  ghost predicate Inv(s: DecoderState) {
    && s.restSize <= s.totalSize
    && s.hexCount < I64_LIMIT && s.totalSize < I64_LIMIT
    && (s.stage.Size? ==> s.totalSize == 0 && !s.crMeet && !s.isLastChunk)
    && (!s.stage.Size? ==> s.hexCount == 0 && (s.isLastChunk <==> s.totalSize == 0))
    && (s.stage.Extension? ==> !s.crMeet && s.restSize == s.totalSize)
    && (s.stage.SizeEnd? ==> s.crMeet && s.restSize == s.totalSize)
    && (s.stage.Data? ==> !s.crMeet && (s.restSize > 0 || s.totalSize == 0))
    && (s.stage.DataEnd? ==> s.restSize == 0)
  }

  /** The digits of a size are over. */
  function SizeRead(s: DecoderState): DecoderState {
    s.(stage := Extension, totalSize := s.hexCount, hexCount := 0,
       isLastChunk := s.isLastChunk || s.hexCount == 0,
       restSize := if s.hexCount == 0 then s.restSize else s.hexCount)
  }

  /** A chunk is over: the next one has the next number, and after the last one counting starts again. */
  function Rolled(s: DecoderState): DecoderState {
    if s.isLastChunk then s.(isLastChunk := false, chunkNum := 0) else s.(chunkNum := s.chunkNum + 1)
  }

  /** `LastDone` says that the last chunk is over. */
  datatype StepResult =
    | Bad
    | Next(state: DecoderState, events: seq<Event>)
    | LastDone(state: DecoderState, events: seq<Event>)

  function ExtensionStep(s: DecoderState, b: byte): StepResult {
    if b == CR then
      if s.crMeet then Bad else Next(s.(stage := SizeEnd, crMeet := true), [])
    else if b == LF then Bad
    else Next(s.(stage := Extension), [])
  }

  function SizeStep(s: DecoderState, b: byte): StepResult {
    if IsHex(b) then
      var count := s.hexCount * 16 + HexDigit(b);
      if count < I64_LIMIT then Next(s.(hexCount := count), []) else Bad
    else if EndsSize(b) then ExtensionStep(SizeRead(s), b)
    else Bad
  }

  function SizeEndStep(s: DecoderState, b: byte): StepResult {
    if b == CR then
      if s.crMeet then Bad else Next(s.(crMeet := true), [])
    else if b == LF then
      if !s.crMeet then Bad else Next(s.(stage := Data, crMeet := false), [])
    else Bad
  }

  function DataEndStep(s: DecoderState, b: byte): StepResult {
    if b == CR then
      if s.crMeet then Bad else Next(s.(stage := DataEnd, crMeet := true), [])
    else if b == LF then
      if !s.crMeet then Bad
      else
        var t := Rolled(s.(stage := Size, totalSize := 0, crMeet := false));
        var events := [Finish(s.chunkNum, s.totalSize)];
        if s.isLastChunk then LastDone(t, events) else Next(t, events)
    else Bad
  }

  function DataStep(s: DecoderState, b: byte): StepResult {
    if s.restSize == 0 then DataEndStep(s.(crMeet := false), b)
    else
      var t := s.(restSize := s.restSize - 1);
      Next(if s.restSize == 1 then t.(stage := DataEnd, crMeet := false) else t, [Octet(s.chunkNum, b)])
  }

  function Step(s: DecoderState, b: byte): StepResult {
    match s.stage
    case Size => SizeStep(s, b)
    case Extension => ExtensionStep(s, b)
    case SizeEnd => SizeEndStep(s, b)
    case Data => DataStep(s, b)
    case DataEnd => DataEndStep(s, b)
  }

  lemma StepInv(s: DecoderState, b: byte)
    requires Inv(s)
    ensures var r := Step(s, b); !r.Bad? ==> Inv(r.state)
  {
  }

  function Prepend(events: seq<Event>, r: RunResult): RunResult {
    match r
    case Fail => Fail
    case More(t, later) => More(t, events + later)
    case Done(t, later, rest) => Done(t, events + later, rest)
  }

  lemma PrependNothing(r: RunResult)
    ensures Prepend([], r) == r
  {
    if !r.Fail? {
      assert [] + r.events == r.events;
    }
  }

  lemma PrependTwice(a: seq<Event>, b: seq<Event>, r: RunResult)
    ensures Prepend(a, Prepend(b, r)) == Prepend(a + b, r)
  {
    if !r.Fail? {
      assert a + (b + r.events) == (a + b) + r.events;
    }
  }

  /** The decoder on the octets of `buf`, up to the end of the last chunk. */
  function Run(s: DecoderState, buf: seq<byte>): RunResult
    decreases |buf|
  {
    if buf == [] then More(s, []) else
    match Step(s, buf[0])
    case Bad => Fail
    case LastDone(t, events) => Done(t, events, buf[1..])
    case Next(t, events) => Prepend(events, Run(t, buf[1..]))
  }

  lemma {:induction false} RunInv(s: DecoderState, buf: seq<byte>)
    requires Inv(s)
    ensures var r := Run(s, buf); !r.Fail? ==> Inv(r.state)
    decreases |buf|
  {
    if buf != [] {
      StepInv(s, buf[0]);
      var step := Step(s, buf[0]);
      if step.Next? {
        RunInv(step.state, buf[1..]);
      }
    }
  }

  // ---------------------------------------------------------------------------
  // Segments.
  // ---------------------------------------------------------------------------

  /** A second call on `b` after a first one that ended in `first`. */
  function Then(first: RunResult, b: seq<byte>): RunResult {
    match first
    case Fail => Fail
    case More(t, events) => Prepend(events, Run(t, b))
    case Done(t, events, rest) => Done(t, events, rest + b)
  }

  lemma {:induction false} CutIsInvisible(s: DecoderState, a: seq<byte>, b: seq<byte>)
    ensures Run(s, a + b) == Then(Run(s, a), b)
    decreases |a|
  {
    if a == [] {
      assert a + b == b;
      PrependNothing(Run(s, b));
    } else {
      assert (a + b)[0] == a[0] && (a + b)[1..] == a[1..] + b;
      var step := Step(s, a[0]);
      if step.Next? {
        CutIsInvisible(step.state, a[1..], b);
        var first := Run(step.state, a[1..]);
        if first.More? {
          PrependTwice(step.events, first.events, Run(first.state, b));
        }
      }
    }
  }

  /** One call for each segment; what arrives behind the last chunk is left over. */
  function RunSegments(s: DecoderState, segments: seq<seq<byte>>): RunResult
    decreases |segments|
  {
    if segments == [] then More(s, []) else
    match Run(s, segments[0])
    case Fail => Fail
    case More(t, events) => Prepend(events, RunSegments(t, segments[1..]))
    case Done(t, events, rest) => Done(t, events, rest + Flatten(segments[1..]))
  }

  /** How the body is cut into segments changes neither the octets nor the chunk ends that are reported. */
  lemma {:induction false} SegmentsAreInvisible(s: DecoderState, segments: seq<seq<byte>>)
    ensures RunSegments(s, segments) == Run(s, Flatten(segments))
    decreases |segments|
  {
    if segments != [] {
      CutIsInvisible(s, segments[0], Flatten(segments[1..]));
      var first := Run(s, segments[0]);
      if first.More? {
        SegmentsAreInvisible(first.state, segments[1..]);
      }
    }
  }

  // ---------------------------------------------------------------------------
  // Every chunk has exactly as many octets as its size says.
  // ---------------------------------------------------------------------------

  /**
   * `events` continue a body of which `k` chunks are over and `n` octets of
   * chunk `k` were reported. A chunk of size zero is the last one.
   */
  predicate Exact(events: seq<Event>, k: nat, n: nat)
    decreases |events|
  {
    events == [] ||
    match events[0]
    case Octet(id, _) => id == k && Exact(events[1..], k, n + 1)
    case Finish(id, size) =>
      && id == k && size == n
      && if n == 0 then |events| == 1 else Exact(events[1..], k + 1, 0)
  }

  function Reported(s: DecoderState): nat
    requires s.restSize <= s.totalSize
  {
    s.totalSize - s.restSize
  }

  /** What one octet can report. */
  lemma StepReports(s: DecoderState, b: byte)
    requires Inv(s)
    ensures var r := Step(s, b);
            && (r.LastDone? ==> Reported(s) == 0 && r.events == [Finish(s.chunkNum, 0)])
            && (r.Next? ==> Inv(r.state) && Counts(s.chunkNum, Reported(s), r.events, r.state))
  {
    StepInv(s, b);
  }

  /** Nothing, one octet more of chunk `k`, or its end after `n` octets. */
  predicate Counts(k: nat, n: nat, events: seq<Event>, t: DecoderState)
    requires t.restSize <= t.totalSize
  {
    || (events == [] && t.chunkNum == k && Reported(t) == n)
    || (|events| == 1 && events[0].Octet? && events[0].id == k && t.chunkNum == k && Reported(t) == n + 1)
    || (events == [Finish(k, n)] && n > 0 && t.chunkNum == k + 1 && Reported(t) == 0)
  }

  lemma ExactStep(k: nat, n: nat, events: seq<Event>, t: DecoderState, later: seq<Event>)
    requires t.restSize <= t.totalSize && Counts(k, n, events, t) && Exact(later, t.chunkNum, Reported(t))
    ensures Exact(events + later, k, n)
  {
    if events == [] {
      assert events + later == later;
    } else {
      assert (events + later)[1..] == later;
    }
  }

  /** Every chunk is reported under its number, complete, and with exactly as many octets as its size. */
  lemma {:induction false} ChunksAreExact(s: DecoderState, buf: seq<byte>)
    requires Inv(s)
    ensures !Run(s, buf).Fail? ==> Exact(Run(s, buf).events, s.chunkNum, Reported(s))
    decreases |buf|
  {
    if buf != [] {
      StepReports(s, buf[0]);
      var step := Step(s, buf[0]);
      if step.Next? {
        ChunksAreExact(step.state, buf[1..]);
        var r := Run(step.state, buf[1..]);
        if !r.Fail? {
          ExactStep(s.chunkNum, Reported(s), step.events, step.state, r.events);
        }
      }
    }
  }
}
