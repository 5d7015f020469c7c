/** Call after call of the chunk encoder, with any room and any source. */
module ChunkCalls {
  import opened Octets
  import opened Buffers
  import opened ChunkAutomaton
  import opened ChunkWire
  import opened ChunkEncoder

  /** A new encoder behind calls with the first `k` of `sizes` as their room. */
  function Calls(source: Source, trailer: seq<byte>, sizes: seq<nat>, k: nat): (r: Step)
    requires k <= |sizes|
    ensures Sane(r.next)
  {
    if k == 0 then Step([], Initial(source, trailer))
    else
      var before := Calls(source, trailer, sizes, k - 1);
      var call := DataOn(before.next, sizes[k - 1]);
      Step(before.out + call.out, call.next)
  }

  lemma CallsNext(source: Source, trailer: seq<byte>, sizes: seq<nat>, k: nat)
    requires k < |sizes|
    ensures var before := Calls(source, trailer, sizes, k);
            var call := DataOn(before.next, sizes[k]);
            Calls(source, trailer, sizes, k + 1) == Step(before.out + call.out, call.next)
  {
  }

  // ---------------------------------------------------------------------------
  // Sources with a last chunk.
  // ---------------------------------------------------------------------------

  /** A position strictly within the size token of the last chunk. */
  ghost predicate CutsToken(source: Source, m: nat, trailer: seq<byte>, position: nat) {
    var start := |Wire(source, m, trailer)| - |LastPart(source, m, trailer)|;
    start < position < start + |HexText(|LoadAt(source, m)|)|
  }

  /** None of the first `k` buffers ends within that token. */
  ghost predicate TokenWhole(source: Source, m: nat, trailer: seq<byte>, sizes: seq<nat>, k: nat)
    requires k <= |sizes|
  {
    forall j :: 0 <= j <= k ==> !CutsToken(source, m, trailer, Room(sizes, j))
  }

  /** Behind `position` octets of the whole body, the rest starts within the token if and only if the token is cut. */
  lemma CutIsInside(source: Source, m: nat, trailer: seq<byte>, position: nat, rest: seq<byte>)
    requires |rest| == |Wire(source, m, trailer)| - Min(position, |Wire(source, m, trailer)|)
    ensures InsideToken(source, m, trailer, rest) <==> CutsToken(source, m, trailer, position)
  {
    ChunksEndAlike(source, 0, m, trailer);
  }

  /** After `k` buffers `out` was written, `left` is still to be written, and `repeated` octets were written twice. */
  ghost predicate Tracks(
    source: Source, m: nat, trailer: seq<byte>, sizes: seq<nat>, k: nat,
    out: seq<byte>, left: seq<byte>, repeated: nat)
    requires k <= |sizes|
  {
    var wire := Wire(source, m, trailer);
    && |out| + |left| == |wire| + repeated
    && (repeated == 0 ==> out + left == wire && |out| == Min(Room(sizes, k), |wire|))
    && (repeated == 0 <==> TokenWhole(source, m, trailer, sizes, k))
  }

  lemma TokenWholeNext(source: Source, m: nat, trailer: seq<byte>, sizes: seq<nat>, k: nat)
    requires k < |sizes|
    ensures TokenWhole(source, m, trailer, sizes, k + 1)
            <==> TokenWhole(source, m, trailer, sizes, k) && !CutsToken(source, m, trailer, Room(sizes, k + 1))
  {
  }

  /** One more buffer, into which `piece` was written. */
  lemma TracksNext(
    source: Source, m: nat, trailer: seq<byte>, sizes: seq<nat>, k: nat,
    out: seq<byte>, left: seq<byte>, repeated: nat, piece: seq<byte>, next: seq<byte>) returns (more: nat)
    requires k < |sizes| && Tracks(source, m, trailer, sizes, k, out, left, repeated)
    requires ChunkEncoder.Moves(source, m, trailer, left, sizes[k], piece, Some(next))
    ensures Tracks(source, m, trailer, sizes, k + 1, out + piece, next, repeated + more)
  {
    var n := Min(sizes[k], |left|);
    var rest := left[n..];
    assert left == piece + rest;
    more := |next| - |rest|;
    TokenWholeNext(source, m, trailer, sizes, k);
    if repeated == 0 {
      CutIsInside(source, m, trailer, Room(sizes, k + 1), rest);
      Turn(Wire(source, m, trailer), out, piece, rest);
    }
  }

  lemma TracksEnd(
    source: Source, m: nat, trailer: seq<byte>, sizes: seq<nat>, out: seq<byte>, left: seq<byte>, repeated: nat)
    requires Tracks(source, m, trailer, sizes, |sizes|, out, left, repeated)
    ensures TokenWhole(source, m, trailer, sizes, |sizes|) ==>
              var wire := Wire(source, m, trailer);
              out == wire[..Min(Room(sizes, |sizes|), |wire|)]
    ensures left == [] ==>
              (out == Wire(source, m, trailer) <==> TokenWhole(source, m, trailer, sizes, |sizes|))
  {
    assert out + [] == out;
  }

  lemma StartsTracking(source: Source, m: nat, trailer: seq<byte>, sizes: seq<nat>)
    requires Fits(source) && FirstShort(source, m)
    ensures Left(Initial(source, trailer), m).Some?
    ensures Tracks(source, m, trailer, sizes, 0, [], Left(Initial(source, trailer), m).value, 0)
  {
    InitialPends(source, trailer, m);
    ChunksEndAlike(source, 0, m, trailer);
    assert [] + Wire(source, m, trailer) == Wire(source, m, trailer);
  }

  /** One more call, from a state in which `left` is pending. */
  lemma CallMoves(s: Body, source: Source, m: nat, trailer: seq<byte>, left: seq<byte>, room: nat)
    returns (next: seq<byte>)
    requires Left(s, m) == Some(left) && s.source == source && s.trailer == trailer
    ensures var call := DataOn(s, room);
            && Left(call.next, m) == Some(next) && call.next.source == source && call.next.trailer == trailer
            && ChunkEncoder.Moves(source, m, trailer, left, room, call.out, Some(next))
  {
    var call := DataOn(s, room);
    DataMoves(s, m, room, call);
    DataKeepsSource(s, room, call);
    next := Left(call.next, m).value;
  }

  /** One more call, behind `before`. */
  lemma CallTracks(
    source: Source, m: nat, trailer: seq<byte>, sizes: seq<nat>, k: nat, before: Step, rest: seq<byte>, already: nat)
    returns (left: seq<byte>, repeated: nat)
    requires k < |sizes| && before.next.source == source && before.next.trailer == trailer
    requires Left(before.next, m) == Some(rest) && Tracks(source, m, trailer, sizes, k, before.out, rest, already)
    ensures var call := DataOn(before.next, sizes[k]);
            && Left(call.next, m) == Some(left) && call.next.source == source && call.next.trailer == trailer
            && Tracks(source, m, trailer, sizes, k + 1, before.out + call.out, left, repeated)
  {
    left := CallMoves(before.next, source, m, trailer, rest, sizes[k]);
    var piece := DataOn(before.next, sizes[k]).out;
    var more := TracksNext(source, m, trailer, sizes, k, before.out, rest, already, piece, left);
    repeated := already + more;
  }

  lemma CallsTrack(source: Source, m: nat, trailer: seq<byte>, sizes: seq<nat>) returns (left: seq<byte>, repeated: nat)
    requires Fits(source) && FirstShort(source, m)
    ensures var r := Calls(source, trailer, sizes, |sizes|);
            Left(r.next, m) == Some(left) && Tracks(source, m, trailer, sizes, |sizes|, r.out, left, repeated)
  {
    StartsTracking(source, m, trailer, sizes);
    left, repeated := Left(Initial(source, trailer), m).value, 0;
    var r := Step([], Initial(source, trailer));
    for k := 0 to |sizes|
      invariant r == Calls(source, trailer, sizes, k) && r.next.source == source && r.next.trailer == trailer
      invariant Left(r.next, m) == Some(left) && Tracks(source, m, trailer, sizes, k, r.out, left, repeated)
    {
      left, repeated := CallTracks(source, m, trailer, sizes, k, r, left, repeated);
      CallsNext(source, trailer, sizes, k);
      r := Step(r.out + DataOn(r.next, sizes[k]).out, DataOn(r.next, sizes[k]).next);
    }
  }

  lemma TokenKeepsSource(s: Body, room: nat)
    requires InRange(s) && s.readFlag
    ensures EmitToken(s, room).next.source == s.source && EmitToken(s, room).next.trailer == s.trailer
  {
  }

  lemma StepKeepsSource(s: Body, room: nat)
    requires Sane(s) && !s.dataStatus.Finished?
    ensures StepOf(s, room).next.source == s.source && StepOf(s, room).next.trailer == s.trailer
  {
    if s.dataStatus.Partial? {
      TokenKeepsSource(if s.readFlag then s else Loaded(s), room);
    }
  }

  lemma SourceGoesOn(s: Body, room: nat, call: Step) returns (next: Body, left: nat, later: Step)
    requires Sane(s) && room > 0 && !s.dataStatus.Finished? && IsCall(s, room, call)
    ensures next.source == s.source && next.trailer == s.trailer
    ensures left <= room && Sane(next) && (left == room ==> Rank(next) < Rank(s))
    ensures IsCall(next, left, later) && call.next == later.next
  {
    StepKeepsSource(s, room);
    var out;
    out, next, left, later := DataOnStep(s, room, call);
  }

  lemma {:induction false} DataKeepsSource(s: Body, room: nat, call: Step)
    requires Sane(s) && IsCall(s, room, call)
    ensures call.next.source == s.source && call.next.trailer == s.trailer
    decreases room, Rank(s)
  {
    if room > 0 && !s.dataStatus.Finished? {
      var next, left, later := SourceGoesOn(s, room, call);
      DataKeepsSource(next, left, later);
    }
  }

  /**
   * If no buffer ends within the size token of the last chunk, the output is the body, as far as there is room; once
   * all is written, only then.
   */
  lemma CallsWriteBodyIff(source: Source, m: nat, trailer: seq<byte>, sizes: seq<nat>)
    requires Fits(source) && FirstShort(source, m)
    ensures var r, wire := Calls(source, trailer, sizes, |sizes|), Wire(source, m, trailer);
            && (TokenWhole(source, m, trailer, sizes, |sizes|) ==> r.out == wire[..Min(Room(sizes, |sizes|), |wire|)])
            && (Left(r.next, m) == Some([]) ==>
                  (r.out == wire <==> TokenWhole(source, m, trailer, sizes, |sizes|)))
  {
    var left, repeated := CallsTrack(source, m, trailer, sizes);
    TracksEnd(source, m, trailer, sizes, Calls(source, trailer, sizes, |sizes|).out, left, repeated);
  }

  // ---------------------------------------------------------------------------
  // Sources without a last chunk.
  // ---------------------------------------------------------------------------

  ghost predicate Endless(source: Source) {
    forall i: nat :: |LoadAt(source, i)| == CHUNK_SIZE
  }

  /** A slice has no last chunk if and only if it is two chunks long or longer. */
  lemma EndlessSliceIff(data: seq<byte>)
    ensures Endless(Bytes(data)) <==> |data| >= 2048
  {
    if Endless(Bytes(data)) {
      assert |LoadAt(Bytes(data), 0)| == CHUNK_SIZE && |LoadAt(Bytes(data), 1)| == CHUNK_SIZE;
    }
  }

  /** The first `m` loads, and nothing behind them. */
  ghost function Cut(source: Source, m: nat): Source {
    Reader((i: nat) => if i < m then LoadAt(source, i) else [])
  }

  lemma CutHasLast(source: Source, m: nat)
    requires Endless(source)
    ensures Fits(Cut(source, m)) && FirstShort(Cut(source, m), m)
  {
  }

  /** The encoder is within a full chunk, or in front of one. */
  ghost predicate Within(s: Body) {
    && Endless(s.source) && Sane(s) && s.dataStatus.Partial? && !s.status.FinishCrlf?
    && 0 <= Current(s)
    && (s.readFlag ==> s.chunk == LoadAt(s.source, Current(s)))
    && s.chunkCount == (if Current(s) == 0 then 0 else 1)
  }

  lemma LoadWithin(s: Body)
    requires Within(s) && !s.readFlag
    ensures Load(s) == LoadAt(s.source, s.loaded) && Within(Loaded(s)) && !s.status.DataToken? && !s.status.MetaCrlf?
  {
    assert |LoadAt(s.source, 0)| == CHUNK_SIZE;
  }

  lemma TokenWithin(s: Body, room: nat)
    requires Within(s) && s.readFlag && room > 0
    ensures Within(EmitToken(s, room).next) && EmitToken(s, room).next.loaded == s.loaded
    ensures 0 < |EmitToken(s, room).out| <= room
  {
    TokenSane(s, room);
    FullChunk(s);
    match s.status
    case MetaSize =>
    case MetaCrlf =>
    case DataToken => DataWithinChunk(s, room);
    case DataCrlf =>
  }

  lemma FullChunk(s: Body)
    requires Within(s) && s.readFlag
    ensures |s.chunk| == CHUNK_SIZE
  {
  }

  lemma DataWithinChunk(s: Body, room: nat)
    requires Within(s) && s.readFlag && room > 0 && s.status.DataToken?
    ensures var t := EmitData(s, room).next;
            && t.loaded == s.loaded && t.source == s.source && t.dataStatus.Partial? && !t.status.FinishCrlf?
            && 0 <= Current(t) && (t.readFlag ==> t.chunk == LoadAt(t.source, Current(t)))
            && t.chunkCount == (if Current(t) == 0 then 0 else 1)
    ensures 0 < |EmitData(s, room).out| <= room
  {
    FullChunk(s);
  }

  /** What is emitted depends on the loaded chunk, not on where it came from. */
  lemma TokenIsAlike(s: Body, room: nat, source: Source)
    requires InRange(s) && s.readFlag
    ensures var a, b := EmitToken(s, room), EmitToken(s.(source := source), room);
            b.out == a.out && b.next == a.next.(source := source)
  {
    match s.status
    case MetaSize => SizeIsAlike(s, room, source);
    case DataToken =>
    case _ =>
  }

  lemma SizeIsAlike(s: Body, room: nat, source: Source)
    requires s.hexIdx <= |HexText(|s.chunk|)|
    ensures var a, b := EmitSize(s, room), EmitSize(s.(source := source), room);
            b.out == a.out && b.next == a.next.(source := source)
  {
  }

  lemma StepWithin(s: Body, room: nat, m: nat)
    requires Within(s) && room > 0 && s.loaded < m
    ensures var step, other := StepOf(s, room), StepOf(s.(source := Cut(s.source, m)), room);
            && Within(step.next) && step.next.source == s.source && step.next.loaded <= s.loaded + |step.out|
            && 0 < |step.out| <= room
            && other == Step(step.out, step.next.(source := Cut(s.source, m)))
  {
    var t := if s.readFlag then s else Loaded(s);
    if !s.readFlag {
      LoadWithin(s);
      assert Loaded(s.(source := Cut(s.source, m))) == t.(source := Cut(s.source, m));
    }
    TokenWithin(t, room);
    TokenKeepsSource(t, room);
    TokenIsAlike(t, room, Cut(s.source, m));
  }

  /** A step on an endless source is the same step on one with `m` full loads. */
  lemma StepsWithin(s: Body, room: nat, m: nat) returns (out: seq<byte>, next: Body)
    requires Within(s) && room > 0 && s.loaded < m
    ensures Within(next) && next.source == s.source && next.loaded <= s.loaded + |out| && 0 < |out|
    ensures Sane(s.(source := Cut(s.source, m)))
    ensures IsStep(s, room, Step(out, next))
    ensures IsStep(s.(source := Cut(s.source, m)), room, Step(out, next.(source := Cut(s.source, m))))
  {
    StepWithin(s, room, m);
    var step := StepOf(s, room);
    out, next := step.out, step.next;
  }

  /** What the two calls go on to do. */
  lemma GoesOnWithin(s: Body, room: nat, m: nat, call: Step, other: Step)
    returns (out: seq<byte>, next: Body, left: nat, later: Step, otherLater: Step)
    requires Within(s) && room > 0 && s.loaded < m
    requires IsCall(s, room, call) && IsCall(s.(source := Cut(s.source, m)), room, other)
    ensures Within(next) && next.source == s.source && next.loaded <= s.loaded + |out|
    ensures |out| + left == room && 0 < |out|
    ensures IsCall(next, left, later) && call == AndThen(out, later)
    ensures IsCall(next.(source := Cut(s.source, m)), left, otherLater) && other == AndThen(out, otherLater)
  {
    out, next := StepsWithin(s, room, m);
    left, later := CallGoesOn(s, room, Step(out, next), call);
    var cut := Cut(s.source, m);
    var l;
    l, otherLater := CallGoesOn(s.(source := cut), room, Step(out, next.(source := cut)), other);
    assert l == left;
  }

  /** A call cannot tell an endless source from one with `m` full loads, if `m` is large enough. */
  lemma {:induction false} DataWithin(s: Body, room: nat, m: nat, call: Step, other: Step)
    requires Within(s) && s.loaded + room <= m
    requires IsCall(s, room, call) && IsCall(s.(source := Cut(s.source, m)), room, other)
    ensures Within(call.next) && call.next.source == s.source && call.next.loaded <= s.loaded + room
    ensures |call.out| == room && other == Step(call.out, call.next.(source := Cut(s.source, m)))
    decreases room
  {
    if room > 0 {
      var out, next, left, later, otherLater := GoesOnWithin(s, room, m, call, other);
      DataWithin(next, left, m, later, otherLater);
    }
  }

  lemma {:induction false} CallsWithin(source: Source, trailer: seq<byte>, sizes: seq<nat>, k: nat, m: nat)
    requires Endless(source) && k <= |sizes| && Room(sizes, k) <= m
    ensures var r := Calls(source, trailer, sizes, k);
            && Within(r.next) && r.next.source == source && r.next.loaded <= Room(sizes, k) && |r.out| == Room(sizes, k)
            && Calls(Cut(source, m), trailer, sizes, k) == Step(r.out, r.next.(source := Cut(source, m)))
  {
    if k > 0 {
      CallsWithin(source, trailer, sizes, k - 1, m);
      var s, room := Calls(source, trailer, sizes, k - 1).next, sizes[k - 1];
      DataWithin(s, room, m, DataOn(s, room), DataOn(s.(source := Cut(source, m)), room));
    }
  }

  lemma {:induction false} LongEnough(source: Source, i: nat, m: nat, trailer: seq<byte>)
    requires i <= m
    ensures |ChunksFrom(source, i, m, trailer)| >= |LastPart(source, m, trailer)| + (m - i)
    decreases m - i
  {
    if i < m {
      LongEnough(source, i + 1, m, trailer);
    }
  }

  lemma {:induction false} RoomGrows(sizes: seq<nat>, j: nat, k: nat)
    requires j <= k <= |sizes|
    ensures Room(sizes, j) <= Room(sizes, k)
  {
    if j < k {
      RoomGrows(sizes, j, k - 1);
    }
  }

  /**
   * An endless source is never finished: however much room there is, all of it is filled with the chunks of the first
   * loads. A slice of two chunks or more is such a source.
   */
  lemma EndlessNeverEnds(source: Source, trailer: seq<byte>, sizes: seq<nat>)
    requires Endless(source)
    ensures var r, m := Calls(source, trailer, sizes, |sizes|), Room(sizes, |sizes|);
            && r.next.dataStatus.Partial?
            && m <= |Wire(Cut(source, m), m, trailer)| && r.out == Wire(Cut(source, m), m, trailer)[..m]
  {
    var m := Room(sizes, |sizes|);
    CallsWithin(source, trailer, sizes, |sizes|, m);
    CutHasLast(source, m);
    LongEnough(Cut(source, m), 0, m, trailer);
    forall j | 0 <= j <= |sizes| ensures !CutsToken(Cut(source, m), m, trailer, Room(sizes, j)) {
      RoomGrows(sizes, j, |sizes|);
    }
    CallsWriteBodyIff(Cut(source, m), m, trailer, sizes);
  }

  lemma UnfinishedIsPending(s: Body, m: nat)
    requires Valid(s, m) && !s.dataStatus.Finished?
    ensures Pending(s, m) != []
  {
    if s.dataStatus.Partial? {
      ChunksEndAlike(s.source, Min(Index(s), m), m, s.trailer);
      assert |BehindToken(s, m)| > 0;
    }
  }

  lemma ShortSliceEnds(data: seq<byte>, trailer: seq<byte>) returns (sizes: seq<nat>)
    requires |data| < 2048
    ensures Calls(Bytes(data), trailer, sizes, |sizes|).next.dataStatus.Finished?
  {
    var source := Bytes(data);
    BytesEndIff(data);
    var m :| FirstShort(source, m);
    var room := |Wire(source, m, trailer)|;
    sizes := [room];
    InitialPends(source, trailer, m);
    DataMoves(Initial(source, trailer), m, room, DataOn(Initial(source, trailer), room));
    assert Calls(source, trailer, sizes, 0) == Step([], Initial(source, trailer));
    var last := DataOn(Initial(source, trailer), room).next;
    if !last.dataStatus.Finished? {
      UnfinishedIsPending(last, m);
    }
  }

  /** A slice is ever finished if and only if it is shorter than two chunks. */
  lemma SliceEndsIff(data: seq<byte>, trailer: seq<byte>)
    ensures (exists sizes :: Calls(Bytes(data), trailer, sizes, |sizes|).next.dataStatus.Finished?)
            <==> |data| < 2048
  {
    if |data| < 2048 {
      var sizes := ShortSliceEnds(data, trailer);
    } else {
      EndlessSliceIff(data);
      forall sizes ensures !Calls(Bytes(data), trailer, sizes, |sizes|).next.dataStatus.Finished? {
        EndlessNeverEnds(Bytes(data), trailer, sizes);
      }
    }
  }
}
