/** Many HTTP/3 streams decoded side by side: what one stream delivers does not depend on the others. */
module H3Streams {
  import opened Octets
  import opened Varint
  import opened H3Frame
  import opened H3Stream

  /** A stream between two calls. */
  datatype Kept = Kept(stream: Stream, unread: seq<byte>)

  type Streams = map<nat, Kept>

  datatype Call = Call(id: nat, src: seq<byte>)

  function Entry(streams: Streams, id: nat): Kept {
    if id in streams then streams[id] else Kept(NewStream(id), [])
  }

  function ResultOf(k: Kept, src: seq<byte>): RunResult {
    Run(k.stream, k.unread + src)
  }

  /** A stream is put back only if it waits for more. */
  function PutBack(streams: Streams, id: nat, r: RunResult): Streams {
    if r.Waiting? then streams[id := Kept(r.stream, r.unread)] else map i | i in streams && i != id :: streams[i]
  }

  function AfterCall(streams: Streams, call: Call): Streams {
    PutBack(streams, call.id, ResultOf(Entry(streams, call.id), call.src))
  }

  /** What the calls on stream `id` return, among all calls. */
  function ResultsFor(streams: Streams, calls: seq<Call>, id: nat): seq<RunResult>
    decreases |calls|
  {
    if calls == [] then [] else
    (if calls[0].id == id then [ResultOf(Entry(streams, id), calls[0].src)] else [])
    + ResultsFor(AfterCall(streams, calls[0]), calls[1..], id)
  }

  /** What stream `id` is handed, among all calls. */
  function SegmentsFor(calls: seq<Call>, id: nat): seq<seq<byte>> {
    if calls == [] then []
    else (if calls[0].id == id then [calls[0].src] else []) + SegmentsFor(calls[1..], id)
  }

  /** The same calls on stream `id` with no other stream around. */
  function ResultsAlone(k: Kept, id: nat, segments: seq<seq<byte>>): seq<RunResult>
    decreases |segments|
  {
    if segments == [] then [] else
    var r := ResultOf(k, segments[0]);
    [r] + ResultsAlone(if r.Waiting? then Kept(r.stream, r.unread) else Kept(NewStream(id), []), id, segments[1..])
  }

  /** Whatever the other streams carry, and however the calls are interleaved, a stream gets its own results. */
  lemma {:induction false} StreamsAreIsolated(streams: Streams, calls: seq<Call>, id: nat)
    ensures ResultsFor(streams, calls, id) == ResultsAlone(Entry(streams, id), id, SegmentsFor(calls, id))
    decreases |calls|
  {
    if calls != [] {
      var next := AfterCall(streams, calls[0]);
      StreamsAreIsolated(next, calls[1..], id);
      var segments := SegmentsFor(calls[1..], id);
      if calls[0].id == id {
        assert SegmentsFor(calls, id)[1..] == segments;
      } else {
        assert Entry(next, id) == Entry(streams, id);
        assert SegmentsFor(calls, id) == segments;
        assert ResultsFor(streams, calls, id) == ResultsFor(next, calls[1..], id);
      }
    }
  }

  /** The events of a run of successful calls. */
  function EventsOfResults(results: seq<RunResult>): seq<Event> {
    if results == [] then []
    else (if results[0].Waiting? then results[0].events else []) + EventsOfResults(results[1..])
  }

  lemma {:induction false} AloneIsSegments(k: Kept, id: nat, segments: seq<seq<byte>>)
    requires RunSegments(k.stream, k.unread, segments).Waiting?
    ensures EventsOfResults(ResultsAlone(k, id, segments)) == RunSegments(k.stream, k.unread, segments).events
    ensures forall r :: r in ResultsAlone(k, id, segments) ==> r.Waiting?
    decreases |segments|
  {
    if segments != [] {
      var r := ResultOf(k, segments[0]);
      AloneIsSegments(Kept(r.stream, r.unread), id, segments[1..]);
      assert ResultsAlone(k, id, segments)[1..] == ResultsAlone(Kept(r.stream, r.unread), id, segments[1..]);
    }
  }

  /**
   * A request stream delivers what one call on all its octets would, provided that call succeeds:
   * neither the segments nor the other streams matter.
   */
  lemma RequestStreamDelivers(streams: Streams, calls: seq<Call>, id: nat)
    requires IsBidirectional(id) && id !in streams && SegmentsFor(calls, id) != []
    requires Run(NewStream(id), Flatten(SegmentsFor(calls, id))).Waiting?
    ensures EventsOfResults(ResultsFor(streams, calls, id))
            == Run(NewStream(id), Flatten(SegmentsFor(calls, id))).events
    ensures forall r :: r in ResultsFor(streams, calls, id) ==> r.Waiting?
  {
    var segments := SegmentsFor(calls, id);
    StreamsAreIsolated(streams, calls, id);
    NoneAheadAnyCuts(NewStream(id), [], segments);
    SegmentsAreInvisible(NewStream(id), [], segments);
    assert [] + Flatten(segments) == Flatten(segments);
    AloneIsSegments(Kept(NewStream(id), []), id, segments);
  }

  /** The first call that does not wait for more, if no SETTINGS frame can come. */
  lemma {:induction false} FailsAt(s: Stream, unread: seq<byte>, segments: seq<seq<byte>>) returns (k: nat)
    requires !SettingsAhead(s) && !RunSegments(s, unread, segments).Waiting?
    ensures k < |segments|
    ensures RunSegments(s, unread, segments[..k]).Waiting?
    ensures RunSegments(s, unread, segments[..k + 1]) == RunSegments(s, unread, segments)
    decreases |segments|
  {
    var first := Run(s, unread + segments[0]);
    if first.Waiting? {
      NoneAhead(s, unread + segments[0]);
      k := FailsAt(first.stream, first.unread, segments[1..]);
      assert segments[1..][..k] == segments[..k + 1][1..] && segments[1..][..k + 1] == segments[..k + 2][1..];
      k := k + 1;
    } else {
      k := 0;
    }
  }

  lemma {:induction false} AloneUpTo(kept: Kept, id: nat, segments: seq<seq<byte>>, k: nat)
    requires k < |segments| && RunSegments(kept.stream, kept.unread, segments[..k]).Waiting?
    requires !RunSegments(kept.stream, kept.unread, segments[..k + 1]).Waiting?
    ensures |ResultsAlone(kept, id, segments)| > k
    ensures ResultsAlone(kept, id, segments)[..k] == ResultsAlone(kept, id, segments[..k])
    ensures ResultsAlone(kept, id, segments)[k] == RunSegments(kept.stream, kept.unread, segments[..k + 1])
    decreases k
  {
    if k > 0 {
      var r, rest := ResultOf(kept, segments[0]), segments[1..];
      assert segments[..k][1..] == rest[..k - 1] && segments[..k + 1][1..] == rest[..k];
      var next := Kept(r.stream, r.unread);
      AloneUpTo(next, id, rest, k - 1);
      assert ResultsAlone(kept, id, segments) == [r] + ResultsAlone(next, id, rest);
    }
  }

  /** One call on the octets of the first segments. */
  lemma PrefixRuns(id: nat, segments: seq<seq<byte>>)
    requires IsBidirectional(id)
    ensures RunSegments(NewStream(id), [], segments) == Run(NewStream(id), Flatten(segments))
  {
    if segments == [] {
      assert Run(NewStream(id), []) == Waiting(NewStream(id), [], []);
    } else {
      NoneAheadAnyCuts(NewStream(id), [], segments);
      SegmentsAreInvisible(NewStream(id), [], segments);
      assert [] + Flatten(segments) == Flatten(segments);
    }
  }

  /**
   * A request stream on which one call on all its octets fails: the calls succeed as long as one call on the octets
   * so far would, and deliver what that call would; the next one fails as the call on all octets does.
   */
  lemma RequestStreamFails(streams: Streams, calls: seq<Call>, id: nat) returns (k: nat)
    requires IsBidirectional(id) && id !in streams
    requires !Run(NewStream(id), Flatten(SegmentsFor(calls, id))).Waiting?
    ensures var segments, results := SegmentsFor(calls, id), ResultsFor(streams, calls, id);
            && k < |segments| && k < |results|
            && results[k] == Run(NewStream(id), Flatten(segments[..k + 1])) == Run(NewStream(id), Flatten(segments))
            && (forall r :: r in results[..k] ==> r.Waiting?)
            && Run(NewStream(id), Flatten(segments[..k])).Waiting?
            && EventsOfResults(results[..k]) == Run(NewStream(id), Flatten(segments[..k])).events
  {
    var segments, kept := SegmentsFor(calls, id), Kept(NewStream(id), []);
    StreamsAreIsolated(streams, calls, id);
    PrefixRuns(id, segments);
    k := FailsAt(NewStream(id), [], segments);
    PrefixRuns(id, segments[..k]);
    PrefixRuns(id, segments[..k + 1]);
    AloneUpTo(kept, id, segments, k);
    AloneIsSegments(kept, id, segments[..k]);
  }

  // ---------------------------------------------------------------------------
  // What a request stream of DATA and unknown frames delivers.
  // ---------------------------------------------------------------------------

  datatype RawFrame = RawFrame(frameType: nat, payload: seq<byte>)

  /** DATA, or a type that no rule speaks about. */
  predicate DataOrUnknown(f: RawFrame) {
    && f.frameType < VARINT_LIMIT && |f.payload| < VARINT_LIMIT
    && f.frameType !in {HEADERS, CANCEL_PUSH, SETTINGS, PUSH_PROMISE, GOAWAY, MAX_PUSH_ID}
  }

  function FrameBytes(f: RawFrame, rest: seq<byte>): seq<byte>
    requires DataOrUnknown(f)
  {
    VarintBytes(f.frameType) + (VarintBytes(|f.payload|) + (f.payload + rest))
  }

  function StreamBytes(frames: seq<RawFrame>): seq<byte>
    requires forall f :: f in frames ==> DataOrUnknown(f)
  {
    if frames == [] then [] else FrameBytes(frames[0], StreamBytes(frames[1..]))
  }

  /** The data, without the unknown frames. */
  function DataOf(frames: seq<RawFrame>): seq<byte> {
    if frames == [] then []
    else (if frames[0].frameType == DATA then frames[0].payload else []) + DataOf(frames[1..])
  }

  const REQUEST := Stream(Request, FrameTypePhase, None, None, None, false)

  lemma FrameRuns(f: RawFrame, rest: seq<byte>)
    requires DataOrUnknown(f)
    ensures Run(REQUEST, FrameBytes(f, rest))
            == Prepend(if f.frameType == DATA then DataEvents(f.payload) else [], Run(REQUEST, rest))
  {
    var n := |f.payload|;
    var tail := f.payload + rest;
    var t := REQUEST.(frameType := Some(f.frameType), payloadLen := Some(n), phase := PhaseOfFrame(f.frameType));
    FrontRuns(f.frameType, n, tail);
    RestOfPayload(t, tail, n);
    assert tail[..n] == f.payload && tail[n..] == rest;
    assert FrameDone(t) == REQUEST;
  }

  /** Type and length of a frame. */
  lemma FrontRuns(frameType: nat, n: nat, tail: seq<byte>)
    requires frameType < VARINT_LIMIT && n < VARINT_LIMIT && Accepts(REQUEST, frameType) && frameType != SETTINGS
    ensures Run(REQUEST, VarintBytes(frameType) + (VarintBytes(n) + tail))
            == Run(REQUEST.(frameType := Some(frameType), payloadLen := Some(n), phase := PhaseOfFrame(frameType)), tail)
  {
    RoundTrip(frameType, VarintBytes(n) + tail);
    RoundTrip(n, tail);
    var s := REQUEST.(frameType := Some(frameType), phase := PayloadLenPhase);
    var t := s.(payloadLen := Some(n), phase := PhaseOfFrame(frameType));
    PrependTwice([], [], Run(s, VarintBytes(n) + tail));
    PrependTwice([], [], Run(t, tail));
  }

  /** All the data arrives in order, unknown frames contribute nothing, and the stream is ready for more. */
  lemma {:induction false} StreamRuns(frames: seq<RawFrame>)
    requires forall f :: f in frames ==> DataOrUnknown(f)
    ensures Run(REQUEST, StreamBytes(frames)) == Waiting(REQUEST, [], DataEvents(DataOf(frames)))
  {
    if frames != [] {
      FrameRuns(frames[0], StreamBytes(frames[1..]));
      StreamRuns(frames[1..]);
      DataEventsJoin(if frames[0].frameType == DATA then frames[0].payload else [], DataOf(frames[1..]));
    }
  }
}
