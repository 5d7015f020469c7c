/**
 * The chunk encoder of ylong_http/src/body/chunk.rs, one step at a time, and what
 * is still to be written in each of its states.
 */
module ChunkEncoder {
  import opened Octets
  import opened ChunkGrammar
  import opened ChunkWire

  datatype TokenStatus = MetaSize | MetaCrlf | DataToken | DataCrlf | FinishCrlf

  datatype DataStatus = Partial | Complete | Finished

  datatype Body = Body(
    source: Source,
    trailer: seq<byte>,
    loaded: nat,
    chunkCount: nat,
    chunk: seq<byte>,
    readFlag: bool,
    chunkIdx: nat,
    status: TokenStatus,
    hexIdx: nat,
    metaIdx: nat,
    dataIdx: nat,
    finishIdx: nat,
    trailerIdx: nat,
    dataStatus: DataStatus)

  datatype Step = Step(out: seq<byte>, next: Body)

  function Initial(source: Source, trailer: seq<byte>): Body {
    Body(source, trailer, 0, 0, [], false, 0, MetaSize, 0, 0, 0, 0, 0, Partial)
  }

  // ---------------------------------------------------------------------------
  // The steps.
  // ---------------------------------------------------------------------------

  /** A slice is loaded by chunk number; the number is 1 behind every full chunk. */
  function Load(s: Body): seq<byte> {
    match s.source
    case Reader(calls) => calls(s.loaded)
    case Bytes(data) =>
      var start := Min(s.chunkCount * CHUNK_SIZE, |data|);
      data[start..start + Min(|data| - start, CHUNK_SIZE)]
  }

  function Loaded(s: Body): Body {
    s.(readFlag := true, chunkIdx := 0, chunk := Load(s), loaded := s.loaded + 1)
  }

  /** As much of `token` from `from` on as there is room for. */
  function Piece(token: seq<byte>, from: nat, room: nat): (r: seq<byte>)
    requires from <= |token|
    ensures |r| == Min(|token| - from, room)
  {
    token[from..from + Min(|token| - from, room)]
  }

  /** Whether that is all of it. */
  predicate FitsRest(token: seq<byte>, from: nat, room: nat) {
    room >= |token| - from
  }

  /** The size token of a full chunk is resumed; that of the last chunk starts over. */
  function EmitSize(s: Body, room: nat): Step
    requires s.hexIdx <= |HexText(|s.chunk|)|
  {
    var token := HexText(|s.chunk|);
    if |s.chunk| == CHUNK_SIZE then
      var out := Piece(token, s.hexIdx, room);
      Step(out, if FitsRest(token, s.hexIdx, room) then s.(status := MetaCrlf, hexIdx := 0)
                else s.(hexIdx := s.hexIdx + |out|))
    else Step(Piece(token, 0, room), if FitsRest(token, 0, room) then s.(status := MetaCrlf) else s)
  }

  function EmitMetaCrlf(s: Body, room: nat): Step
    requires s.metaIdx <= 2
  {
    var out := Piece(CRLF, s.metaIdx, room);
    Step(out, if FitsRest(CRLF, s.metaIdx, room) then s.(status := DataToken, metaIdx := 0)
              else s.(metaIdx := s.metaIdx + |out|))
  }

  function EmitData(s: Body, room: nat): Step
    requires s.chunkIdx <= |s.chunk|
  {
    var out := Piece(s.chunk, s.chunkIdx, room);
    var t := s.(chunkIdx := s.chunkIdx + |out|);
    Step(out, if !FitsRest(s.chunk, s.chunkIdx, room) then t
              else if |s.chunk| == CHUNK_SIZE then t.(readFlag := false, status := DataCrlf, chunkCount := 1)
              else t.(readFlag := false, status := FinishCrlf, chunkCount := 0))
  }

  function EmitDataCrlf(s: Body, room: nat): Step
    requires s.dataIdx <= 2
  {
    var out := Piece(CRLF, s.dataIdx, room);
    Step(out, if FitsRest(CRLF, s.dataIdx, room) then s.(status := MetaSize, dataIdx := 0)
              else s.(dataIdx := s.dataIdx + |out|))
  }

  function EmitFinishCrlf(s: Body, room: nat): Step
    requires s.finishIdx <= 2
  {
    var out := Piece(CRLF, s.finishIdx, room);
    var t := s.(finishIdx := s.finishIdx + |out|);
    Step(out, if FitsRest(CRLF, s.finishIdx, room) then t.(metaIdx := 0, chunkCount := 0, dataStatus := Complete)
              else t)
  }

  function EmitTrailer(s: Body, room: nat): Step
    requires s.trailerIdx <= |End(s.trailer)|
  {
    var out := Piece(End(s.trailer), s.trailerIdx, room);
    var t := s.(trailerIdx := s.trailerIdx + |out|);
    Step(out, if FitsRest(End(s.trailer), s.trailerIdx, room) then t.(dataStatus := Finished) else t)
  }

  /** The cursors are within their tokens. */
  predicate InRange(s: Body) {
    && s.metaIdx <= 2 && s.dataIdx <= 2 && s.finishIdx <= 2 && s.trailerIdx <= |End(s.trailer)|
    && (s.readFlag ==> s.chunkIdx <= |s.chunk|)
    && (s.hexIdx > 0 ==> s.readFlag && s.status.MetaSize? && s.hexIdx < |HexText(|s.chunk|)|)
  }

  function EmitToken(s: Body, room: nat): Step
    requires InRange(s) && s.readFlag
  {
    match s.status
    case MetaSize => EmitSize(s, room)
    case MetaCrlf => EmitMetaCrlf(s, room)
    case DataToken => EmitData(s, room)
    case DataCrlf => EmitDataCrlf(s, room)
    case FinishCrlf => EmitFinishCrlf(s, room)
  }

  /** One turn of the loop in `data`. */
  function StepOf(s: Body, room: nat): Step
    requires InRange(s) && !s.dataStatus.Finished?
  {
    if s.dataStatus.Complete? then EmitTrailer(s, room)
    else EmitToken(if s.readFlag then s else Loaded(s), room)
  }

  // ---------------------------------------------------------------------------
  // What is still to be written. Chunk `m` is the last one.
  // ---------------------------------------------------------------------------

  /** The number of the chunk that is being written, or comes next. */
  function Current(s: Body): int {
    if s.readFlag then s.loaded - 1 else s.loaded
  }

  /** Before the data of the last chunk is written. */
  ghost predicate InChunk(s: Body, m: nat) {
    && 0 <= Current(s) <= m
    && (s.readFlag ==> s.chunk == LoadAt(s.source, Current(s)))
    && s.chunkCount == (if Current(s) == 0 then 0 else 1)
  }

  /** The cursors fit the state; this holds for every source. */
  predicate Sane(s: Body) {
    && InRange(s)
    && (s.dataStatus.Partial? ==>
          && s.trailerIdx == 0
          && (s.status.MetaCrlf? <== s.metaIdx > 0)
          && (s.status.DataCrlf? <== s.dataIdx > 0) && (s.status.FinishCrlf? <== s.finishIdx > 0)
          && s.metaIdx < 2 && s.dataIdx < 2 && s.finishIdx < 2
          && (s.hexIdx > 0 ==> |s.chunk| == CHUNK_SIZE)
          && (s.status.MetaCrlf? || s.status.DataToken? ==> s.readFlag)
          && (s.status.DataToken? ==> s.chunkIdx < |s.chunk| || s.chunk == [])
          && (s.readFlag && !s.status.DataToken? && !s.status.FinishCrlf? ==> s.chunkIdx == 0))
    && (s.dataStatus.Complete? ==> s.trailerIdx < |End(s.trailer)|)
  }

  ghost predicate Valid(s: Body, m: nat) {
    && Fits(s.source) && FirstShort(s.source, m) && Sane(s)
    && (s.dataStatus.Partial? && !s.status.FinishCrlf? ==> InChunk(s, m))
  }

  /** Behind the data of chunk `i`: its line end and the chunks behind it. */
  function Behind(source: Source, i: nat, m: nat, trailer: seq<byte>): seq<byte>
    requires i <= m
  {
    CRLF + if i == m then End(trailer) else ChunksFrom(source, i + 1, m, trailer)
  }

  /** The token that is being written. */
  function Token(s: Body): seq<byte> {
    match s.status
    case MetaSize => HexText(|LoadAt(s.source, Index(s))|)
    case DataToken => LoadAt(s.source, Index(s))
    case _ => CRLF
  }

  function Index(s: Body): nat {
    if Current(s) < 0 then 0 else Current(s)
  }

  /** How much of it was written. */
  function Cursor(s: Body): nat {
    match s.status
    case MetaSize => s.hexIdx
    case MetaCrlf => s.metaIdx
    case DataToken => s.chunkIdx
    case DataCrlf => s.dataIdx
    case FinishCrlf => s.finishIdx
  }

  /** What comes behind it, in chunk `i`. */
  function BehindStatus(status: TokenStatus, source: Source, i: nat, m: nat, trailer: seq<byte>): seq<byte>
    requires i <= m
  {
    match status
    case MetaSize => CRLF + (LoadAt(source, i) + Behind(source, i, m, trailer))
    case MetaCrlf => LoadAt(source, i) + Behind(source, i, m, trailer)
    case DataToken => Behind(source, i, m, trailer)
    case DataCrlf => ChunksFrom(source, i, m, trailer)
    case FinishCrlf => End(trailer)
  }

  function BehindToken(s: Body, m: nat): seq<byte> {
    BehindStatus(s.status, s.source, Min(Index(s), m), m, s.trailer)
  }

  ghost function Pending(s: Body, m: nat): seq<byte>
    requires Valid(s, m)
  {
    match s.dataStatus
    case Finished => []
    case Complete => End(s.trailer)[s.trailerIdx..]
    case Partial =>
      assert Cursor(s) <= |Token(s)|;
      Token(s)[Cursor(s)..] + BehindToken(s, m)
  }

  lemma LoadIsNext(s: Body, m: nat)
    requires FirstShort(s.source, m) && InChunk(s, m) && !s.readFlag
    ensures Load(s) == LoadAt(s.source, s.loaded)
  {
    assert s.loaded > 0 ==> |LoadAt(s.source, 0)| == CHUNK_SIZE;
  }

  /** Loading the next chunk writes nothing. */
  lemma LoadKeeps(s: Body, m: nat)
    requires Valid(s, m) && s.dataStatus.Partial? && !s.readFlag
    ensures Valid(Loaded(s), m) && Pending(Loaded(s), m) == Pending(s, m)
  {
    if !s.status.FinishCrlf? {
      LoadIsNext(s, m);
    }
  }

  lemma PieceCut(token: seq<byte>, from: nat, room: nat, rest: seq<byte>)
    requires from <= |token|
    ensures var out := Piece(token, from, room);
            && out + (token[from + |out|..] + rest) == token[from..] + rest
            && (FitsRest(token, from, room) ==> out == token[from..])
            && token[0..] == token
  {
  }

  lemma Regroup(a: seq<byte>, b: seq<byte>, c: seq<byte>, d: seq<byte>, rest: seq<byte>)
    ensures (a + (b + (c + d))) + rest == a + (b + (c + (d + rest)))
  {
  }

  /** A chunk on the wire is its tokens, one behind the other. */
  lemma ChunkTokens(source: Source, i: nat, m: nat, trailer: seq<byte>)
    requires i <= m
    ensures var data := LoadAt(source, i);
            ChunksFrom(source, i, m, trailer)
            == HexText(|data|) + (CRLF + (data + Behind(source, i, m, trailer)))
  {
    var data := LoadAt(source, i);
    var rest := if i == m then End(trailer) else ChunksFrom(source, i + 1, m, trailer);
    Regroup(HexText(|data|), CRLF, data, CRLF, rest);
  }

  /** The size token of the last chunk does not fit. */
  ghost predicate Restarts(s: Body, m: nat, room: nat) {
    && s.dataStatus.Partial? && s.status.MetaSize? && Current(s) == m
    && room < |HexText(|LoadAt(s.source, m)|)|
  }

  /** The step moves the front of what is pending to the output; a token that starts over stays pending. */
  ghost predicate Conserves(s: Body, m: nat, room: nat, step: Step)
    requires Valid(s, m)
  {
    && Valid(step.next, m)
    && step.next.source == s.source && step.next.trailer == s.trailer
    && |step.out| <= room
    && if Restarts(s, m, room) then
         step.out == Pending(s, m)[..Min(room, |Pending(s, m)|)] && Pending(step.next, m) == Pending(s, m)
       else Pending(s, m) == step.out + Pending(step.next, m)
  }

  /** A token that is not finished: the cursor moves on, everything else stays. */
  lemma PieceMoves(s: Body, m: nat, room: nat)
    requires Valid(s, m) && s.dataStatus.Partial? && s.readFlag && !FitsRest(Token(s), Cursor(s), room)
    requires !Restarts(s, m, room)
    ensures var step := EmitToken(s, room);
            && step.out == Piece(Token(s), Cursor(s), room)
            && step.next == Moved(s, |step.out|)
  {
    assert s.status.MetaSize? ==> Current(s) < m && |LoadAt(s.source, Index(s))| == CHUNK_SIZE;
  }

  function Moved(s: Body, n: nat): Body {
    match s.status
    case MetaSize => s.(hexIdx := s.hexIdx + n)
    case MetaCrlf => s.(metaIdx := s.metaIdx + n)
    case DataToken => s.(chunkIdx := s.chunkIdx + n)
    case DataCrlf => s.(dataIdx := s.dataIdx + n)
    case FinishCrlf => s.(finishIdx := s.finishIdx + n)
  }

  lemma MovedIsValid(s: Body, m: nat, n: nat)
    requires Valid(s, m) && s.dataStatus.Partial? && s.readFlag && Cursor(s) + n < |Token(s)|
    requires s.status.MetaSize? ==> |s.chunk| == CHUNK_SIZE
    ensures Valid(Moved(s, n), m)
  {
  }

  lemma MovedIsSame(s: Body, m: nat, n: nat)
    ensures Token(Moved(s, n)) == Token(s) && BehindToken(Moved(s, n), m) == BehindToken(s, m)
    ensures Cursor(Moved(s, n)) == Cursor(s) + n && Moved(s, n).dataStatus == s.dataStatus
    ensures Moved(s, n).source == s.source && Moved(s, n).trailer == s.trailer
  {
    var t := Moved(s, n);
    assert t.status == s.status && Index(t) == Index(s);
  }

  /** How far a step gets in a token that it does not finish. */
  lemma PieceStep(s: Body, m: nat, room: nat) returns (n: nat)
    requires Valid(s, m) && s.dataStatus.Partial? && s.readFlag && !FitsRest(Token(s), Cursor(s), room)
    requires !Restarts(s, m, room)
    ensures EmitToken(s, room) == Step(Piece(Token(s), Cursor(s), room), Moved(s, n))
    ensures n == |Piece(Token(s), Cursor(s), room)| <= room && Cursor(s) + n < |Token(s)|
    ensures s.status.MetaSize? ==> |s.chunk| == CHUNK_SIZE
  {
    PieceMoves(s, m, room);
    n := |Piece(Token(s), Cursor(s), room)|;
    assert s.status.MetaSize? ==> |LoadAt(s.source, Index(s))| == CHUNK_SIZE;
  }

  lemma MovedPends(s: Body, m: nat, n: nat)
    requires Valid(s, m) && s.dataStatus.Partial? && s.readFlag && Cursor(s) + n < |Token(s)|
    requires s.status.MetaSize? ==> |s.chunk| == CHUNK_SIZE
    ensures Valid(Moved(s, n), m) && Pending(Moved(s, n), m) == Token(s)[Cursor(s) + n..] + BehindToken(s, m)
    ensures Moved(s, n).source == s.source && Moved(s, n).trailer == s.trailer
  {
    MovedIsValid(s, m, n);
    MovedIsSame(s, m, n);
  }

  lemma ConservesBy(s: Body, m: nat, room: nat, step: Step, rest: seq<byte>)
    requires Valid(s, m) && !Restarts(s, m, room) && |step.out| <= room
    requires Valid(step.next, m) && step.next.source == s.source && step.next.trailer == s.trailer
    requires Pending(step.next, m) == rest && Pending(s, m) == step.out + rest
    ensures Conserves(s, m, room, step)
  {
  }

  lemma PendingCut(s: Body, m: nat, room: nat, n: nat)
    requires Valid(s, m) && s.dataStatus.Partial?
    requires n == |Piece(Token(s), Cursor(s), room)| && Cursor(s) + n <= |Token(s)|
    ensures Pending(s, m) == Piece(Token(s), Cursor(s), room) + (Token(s)[Cursor(s) + n..] + BehindToken(s, m))
  {
    PieceCut(Token(s), Cursor(s), room, BehindToken(s, m));
  }

  /** What such a step leaves. */
  lemma PieceLeaves(s: Body, m: nat, room: nat) returns (out: seq<byte>, next: Body, rest: seq<byte>)
    requires Valid(s, m) && s.dataStatus.Partial? && s.readFlag && !FitsRest(Token(s), Cursor(s), room)
    requires !Restarts(s, m, room)
    ensures EmitToken(s, room) == Step(out, next) && |out| <= room
    ensures Valid(next, m) && next.source == s.source && next.trailer == s.trailer
    ensures Pending(next, m) == rest && Pending(s, m) == out + rest
  {
    var n := PieceStep(s, m, room);
    out, next := Piece(Token(s), Cursor(s), room), Moved(s, n);
    rest := Token(s)[Cursor(s) + n..] + BehindToken(s, m);
    MovedPends(s, m, n);
    PendingCut(s, m, room, n);
  }

  lemma PieceConserves(s: Body, m: nat, room: nat)
    requires Valid(s, m) && s.dataStatus.Partial? && s.readFlag && !FitsRest(Token(s), Cursor(s), room)
    requires !Restarts(s, m, room)
    ensures Conserves(s, m, room, EmitToken(s, room))
  {
    var out, next, rest := PieceLeaves(s, m, room);
    ConservesBy(s, m, room, Step(out, next), rest);
  }

  lemma WholeEmits(s: Body, m: nat, room: nat)
    requires Valid(s, m) && s.dataStatus.Partial? && s.readFlag && FitsRest(Token(s), Cursor(s), room)
    ensures var step := EmitToken(s, room);
            && step.out == Token(s)[Cursor(s)..] && |step.out| <= room
            && step.next.source == s.source && step.next.trailer == s.trailer
    ensures !Restarts(s, m, room)
  {
    PieceCut(Token(s), Cursor(s), room, []);
  }

  /** A token that is finished: what is pending then is what comes behind it. */
  lemma WholeConserves(s: Body, m: nat, room: nat)
    requires Valid(s, m) && s.dataStatus.Partial? && s.readFlag && FitsRest(Token(s), Cursor(s), room)
    requires var t := EmitToken(s, room).next; Valid(t, m) && Pending(t, m) == BehindToken(s, m)
    ensures Conserves(s, m, room, EmitToken(s, room))
  {
    WholeEmits(s, m, room);
  }

  lemma LastSizeRestarts(s: Body, m: nat, room: nat)
    requires Valid(s, m) && s.dataStatus.Partial? && s.readFlag && Restarts(s, m, room)
    ensures Conserves(s, m, room, EmitToken(s, room))
  {
    var token := Token(s);
    PieceCut(token, 0, room, []);
    assert (token + BehindToken(s, m))[..room] == token[..room];
  }

  lemma SizeEnds(s: Body, m: nat, room: nat)
    requires Valid(s, m) && s.dataStatus.Partial? && s.readFlag && FitsRest(Token(s), Cursor(s), room)
    requires s.status.MetaSize?
    ensures var t := EmitToken(s, room).next; Valid(t, m) && Pending(t, m) == BehindToken(s, m)
  {
    PieceCut(CRLF, 0, room, []);
  }

  lemma MetaCrlfEnds(s: Body, m: nat, room: nat)
    requires Valid(s, m) && s.dataStatus.Partial? && s.readFlag && FitsRest(Token(s), Cursor(s), room)
    requires s.status.MetaCrlf?
    ensures var t := EmitToken(s, room).next; Valid(t, m) && Pending(t, m) == BehindToken(s, m)
  {
    PieceCut(s.chunk, 0, room, []);
  }

  lemma DataEnds(s: Body, m: nat, room: nat)
    requires Valid(s, m) && s.dataStatus.Partial? && s.readFlag && FitsRest(Token(s), Cursor(s), room)
    requires s.status.DataToken?
    ensures var t := EmitToken(s, room).next; Valid(t, m) && Pending(t, m) == BehindToken(s, m)
  {
    PieceCut(CRLF, 0, room, []);
    assert Current(s) < m ==> |LoadAt(s.source, Index(s))| == CHUNK_SIZE;
  }

  lemma DataCrlfEnds(s: Body, m: nat, room: nat)
    requires Valid(s, m) && s.dataStatus.Partial? && s.readFlag && FitsRest(Token(s), Cursor(s), room)
    requires s.status.DataCrlf?
    ensures var t := EmitToken(s, room).next; Valid(t, m) && Pending(t, m) == BehindToken(s, m)
  {
    ChunkTokens(s.source, Index(s), m, s.trailer);
    PieceCut(HexText(|s.chunk|), 0, room, []);
  }

  lemma FinishCrlfEnds(s: Body, m: nat, room: nat)
    requires Valid(s, m) && s.dataStatus.Partial? && s.readFlag && FitsRest(Token(s), Cursor(s), room)
    requires s.status.FinishCrlf?
    ensures var t := EmitToken(s, room).next; Valid(t, m) && Pending(t, m) == BehindToken(s, m)
  {
    PieceCut(End(s.trailer), 0, room, []);
  }

  lemma TrailerConserves(s: Body, m: nat, room: nat)
    requires Valid(s, m) && s.dataStatus.Complete?
    ensures Conserves(s, m, room, EmitTrailer(s, room))
  {
    var end := End(s.trailer);
    PieceCut(end, s.trailerIdx, room, []);
    assert end[s.trailerIdx..] + [] == end[s.trailerIdx..];
    var t := EmitTrailer(s, room).next;
    if t.dataStatus.Complete? {
      assert end[t.trailerIdx..] + [] == end[t.trailerIdx..];
    }
  }

  lemma StepConserves(s: Body, m: nat, room: nat)
    requires Valid(s, m) && !s.dataStatus.Finished?
    ensures Conserves(s, m, room, StepOf(s, room))
  {
    if s.dataStatus.Complete? {
      TrailerConserves(s, m, room);
    } else if !s.readFlag {
      LoadKeeps(s, m);
      TokenConserves(Loaded(s), m, room);
    } else {
      TokenConserves(s, m, room);
    }
  }

  lemma TokenConserves(s: Body, m: nat, room: nat)
    requires Valid(s, m) && s.dataStatus.Partial? && s.readFlag
    ensures Conserves(s, m, room, EmitToken(s, room))
  {
    if Restarts(s, m, room) {
      LastSizeRestarts(s, m, room);
    } else if !FitsRest(Token(s), Cursor(s), room) {
      PieceConserves(s, m, room);
    } else {
      match s.status {
        case MetaSize => SizeEnds(s, m, room);
        case MetaCrlf => MetaCrlfEnds(s, m, room);
        case DataToken => DataEnds(s, m, room);
        case DataCrlf => DataCrlfEnds(s, m, room);
        case FinishCrlf => FinishCrlfEnds(s, m, room);
      }
      WholeConserves(s, m, room);
    }
  }

  /** The only step that writes nothing is the one past the data of an empty last chunk. */
  function Rank(s: Body): nat {
    if s.dataStatus.Partial? && s.status.DataToken? && s.readFlag && s.chunk == [] then 1 else 0
  }

  lemma TokenProgress(s: Body, room: nat)
    requires Sane(s) && s.dataStatus.Partial? && s.readFlag && room > 0
    ensures EmitToken(s, room).out == [] ==> Rank(EmitToken(s, room).next) < Rank(s)
    ensures |EmitToken(s, room).out| <= room
  {
  }

  lemma TokenSane(s: Body, room: nat)
    requires Sane(s) && s.dataStatus.Partial? && s.readFlag
    ensures Sane(EmitToken(s, room).next)
  {
  }

  lemma StepProgress(s: Body, room: nat)
    requires Sane(s) && !s.dataStatus.Finished? && room > 0
    ensures StepOf(s, room).out == [] ==> Rank(StepOf(s, room).next) < Rank(s)
    ensures |StepOf(s, room).out| <= room && Sane(StepOf(s, room).next)
  {
    if s.dataStatus.Partial? {
      var t := if s.readFlag then s else Loaded(s);
      TokenProgress(t, room);
      TokenSane(t, room);
    }
  }

  lemma RestartsFill(s: Body, m: nat, room: nat)
    requires Valid(s, m) && Restarts(s, m, room)
    ensures |StepOf(s, room).out| == room
  {
    if !s.readFlag {
      LoadKeeps(s, m);
    }
  }

  /** One call of `data` with `room` octets of room. */
  function DataOn(s: Body, room: nat): (r: Step)
    requires Sane(s)
    ensures |r.out| <= room && Sane(r.next)
    decreases room, Rank(s)
  {
    if room == 0 || s.dataStatus.Finished? then Step([], s)
    else
      StepProgress(s, room);
      var step := StepOf(s, room);
      var rest := DataOn(step.next, room - |step.out|);
      Step(step.out + rest.out, rest.next)
  }

  // ---------------------------------------------------------------------------
  // The size token of the last chunk.
  // ---------------------------------------------------------------------------

  /** `rest` starts within the size token of the last chunk, behind its first digit. */
  ghost predicate InsideToken(source: Source, m: nat, trailer: seq<byte>, rest: seq<byte>) {
    var last := |LastPart(source, m, trailer)|;
    last - |HexText(|LoadAt(source, m)|)| < |rest| < last
  }

  /** What is pending after a call that wrote everything in front of `rest`. */
  ghost function Rewound(source: Source, m: nat, trailer: seq<byte>, rest: seq<byte>): seq<byte> {
    if InsideToken(source, m, trailer, rest) then LastPart(source, m, trailer) else rest
  }

  lemma RestartsAtToken(s: Body, m: nat, room: nat)
    requires Valid(s, m) && Restarts(s, m, room)
    ensures Pending(s, m) == LastPart(s.source, m, s.trailer)
    ensures room > 0 ==> InsideToken(s.source, m, s.trailer, LastPart(s.source, m, s.trailer)[room..])
  {
    ChunkTokens(s.source, m, m, s.trailer);
    var token := HexText(|LoadAt(s.source, m)|);
    assert token[0..] == token;
  }

  /** Before the last chunk at least all of it is pending. */
  lemma BeforeLastChunk(s: Body, m: nat)
    requires Valid(s, m) && s.dataStatus.Partial? && !s.status.FinishCrlf? && Index(s) < m
    ensures |Pending(s, m)| >= |LastPart(s.source, m, s.trailer)|
  {
    ChunksEndAlike(s.source, Index(s), m, s.trailer);
    ChunksEndAlike(s.source, Index(s) + 1, m, s.trailer);
  }

  /** In the last chunk the size token is either pending as a whole or not at all. */
  lemma InLastChunk(s: Body, m: nat)
    requires Valid(s, m) && s.dataStatus.Partial? && !s.status.FinishCrlf? && Index(s) == m
    ensures !InsideToken(s.source, m, s.trailer, Pending(s, m))
  {
    ChunkTokens(s.source, m, m, s.trailer);
  }

  lemma NeverInside(s: Body, m: nat)
    requires Valid(s, m)
    ensures !InsideToken(s.source, m, s.trailer, Pending(s, m))
  {
    if s.dataStatus.Partial? && !s.status.FinishCrlf? {
      if Index(s) < m {
        BeforeLastChunk(s, m);
      } else {
        InLastChunk(s, m);
      }
    } else {
      ChunkTokens(s.source, m, m, s.trailer);
    }
  }

  lemma InitialPends(source: Source, trailer: seq<byte>, m: nat)
    requires Fits(source) && FirstShort(source, m)
    ensures Valid(Initial(source, trailer), m) && Pending(Initial(source, trailer), m) == Wire(source, m, trailer)
  {
    ChunkTokens(source, 0, m, trailer);
    var token := HexText(|LoadAt(source, 0)|);
    assert token[0..] == token;
  }

  /** What is left to write, in a state the encoder can be in. */
  ghost function Left(s: Body, m: nat): Option<seq<byte>> {
    if Valid(s, m) then Some(Pending(s, m)) else None
  }

  /**
   * `out` fills `room` octets from the front of `pending`. What is left then is the rest, except that a last size
   * token cut by the end of the room is left as a whole again.
   */
  ghost predicate Moves(
    source: Source, m: nat, trailer: seq<byte>, pending: seq<byte>, room: nat, out: seq<byte>, left: Option<seq<byte>>)
  {
    var n := Min(room, |pending|);
    out == pending[..n] && left == Some(Rewound(source, m, trailer, pending[n..]))
  }

  lemma MovesBehind(
    source: Source, m: nat, trailer: seq<byte>, first: seq<byte>, rest: seq<byte>, room: nat, out: seq<byte>,
    left: Option<seq<byte>>)
    requires Moves(source, m, trailer, rest, room, out, left)
    ensures Moves(source, m, trailer, first + rest, |first| + room, first + out, left)
  {
    var n := Min(room, |rest|);
    assert (first + rest)[..|first| + n] == first + rest[..n] && (first + rest)[|first| + n..] == rest[n..];
  }

  lemma NothingMoves(s: Body, m: nat, room: nat)
    requires Valid(s, m) && (room == 0 || s.dataStatus.Finished?)
    ensures Moves(s.source, m, s.trailer, Pending(s, m), room, [], Left(s, m))
  {
    NeverInside(s, m);
    assert Pending(s, m)[0..] == Pending(s, m);
  }

  /** A token that starts over takes up all the room, and stays pending as a whole. */
  lemma RestartMoves(s: Body, m: nat, room: nat)
    requires Valid(s, m) && Restarts(s, m, room) && room > 0
    ensures var step := StepOf(s, room);
            |step.out| == room && Moves(s.source, m, s.trailer, Pending(s, m), room, step.out, Left(step.next, m))
  {
    RestartsFill(s, m, room);
    StepConserves(s, m, room);
    RestartsAtToken(s, m, room);
  }

  /** A step, and what the call goes on to do. */
  function AndThen(out: seq<byte>, call: Step): Step {
    Step(out + call.out, call.next)
  }

  ghost predicate IsStep(s: Body, room: nat, step: Step)
    requires InRange(s) && !s.dataStatus.Finished?
  {
    step == StepOf(s, room)
  }

  ghost predicate IsCall(s: Body, room: nat, call: Step)
    requires Sane(s)
  {
    call == DataOn(s, room)
  }

  /** Behind its first step, a call goes on from where that step ended. */
  lemma CallGoesOn(s: Body, room: nat, step: Step, call: Step) returns (left: nat, later: Step)
    requires Sane(s) && room > 0 && !s.dataStatus.Finished? && IsStep(s, room, step) && IsCall(s, room, call)
    ensures |step.out| + left == room && Sane(step.next) && (step.out == [] ==> Rank(step.next) < Rank(s))
    ensures IsCall(step.next, left, later) && call == AndThen(step.out, later)
  {
    StepProgress(s, room);
    left := room - |step.out|;
    later := DataOn(step.next, left);
  }

  /** The first step of a call, the room it leaves, and the call that goes on from there. */
  lemma DataOnStep(s: Body, room: nat, call: Step) returns (out: seq<byte>, next: Body, left: nat, later: Step)
    requires Sane(s) && room > 0 && !s.dataStatus.Finished? && IsCall(s, room, call)
    ensures IsStep(s, room, Step(out, next)) && |out| + left == room
    ensures Sane(next) && (out == [] ==> Rank(next) < Rank(s))
    ensures IsCall(next, left, later) && call == AndThen(out, later)
  {
    var step := StepOf(s, room);
    left, later := CallGoesOn(s, room, step, call);
    out, next := step.out, step.next;
  }

  /** A token that starts over ends the call. */
  lemma RestartCall(s: Body, m: nat, room: nat, call: Step)
    requires Valid(s, m) && room > 0 && Restarts(s, m, room) && IsCall(s, room, call)
    ensures Moves(s.source, m, s.trailer, Pending(s, m), room, call.out, Left(call.next, m))
  {
    RestartMoves(s, m, room);
    var out, next, left, later := DataOnStep(s, room, call);
    assert later == Step([], next) && out + [] == out;
  }

  /** A step that does not start over: what it emits, what it leaves pending, and what the call goes on to do. */
  lemma StepLeaves(s: Body, m: nat, room: nat, call: Step)
    returns (out: seq<byte>, next: Body, rest: seq<byte>, left: nat, later: Step)
    requires Valid(s, m) && room > 0 && !s.dataStatus.Finished? && !Restarts(s, m, room) && IsCall(s, room, call)
    ensures |out| + left == room && (out == [] ==> Rank(next) < Rank(s))
    ensures next.source == s.source && next.trailer == s.trailer
    ensures Valid(next, m) && Pending(next, m) == rest && Pending(s, m) == out + rest
    ensures IsCall(next, left, later) && call == AndThen(out, later)
  {
    StepConserves(s, m, room);
    out, next, left, later := DataOnStep(s, room, call);
    rest := Pending(next, m);
  }

  /** What a call of `data` does to what is pending. */
  lemma {:induction false} DataMoves(s: Body, m: nat, room: nat, call: Step)
    requires Valid(s, m) && IsCall(s, room, call)
    ensures Moves(s.source, m, s.trailer, Pending(s, m), room, call.out, Left(call.next, m))
    decreases room, Rank(s)
  {
    if room == 0 || s.dataStatus.Finished? {
      NothingMoves(s, m, room);
    } else if Restarts(s, m, room) {
      RestartCall(s, m, room, call);
    } else {
      var out, next, rest, left, later := StepLeaves(s, m, room, call);
      DataMoves(next, m, left, later);
      MovesBehind(s.source, m, s.trailer, out, rest, left, later.out, Left(later.next, m));
    }
  }
}
