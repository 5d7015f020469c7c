/**
 * The chunk decoder of ylong_http/src/body/chunk.rs, for bodies without a
 * trailer, proved against the octet automaton of `ChunkAutomaton`.
 */
module ChunkDecoder {
  import opened Octets
  import opened HttpError
  import opened ChunkAutomaton
  import opened ChunkGrammar

  datatype ChunkState = MetaSize | MetaExt | MetaCrlf | DataPart | DataCrlf | Finished

  datatype Chunk = Chunk(id: nat, state: ChunkState, size: nat, data: seq<byte>)

  /** How a chunk that is not over is labelled. */
  function Label(stage: Stage): ChunkState {
    match stage
    case Size => MetaSize
    case Extension => MetaExt
    case SizeEnd => MetaCrlf
    case Data => DataPart
    case DataEnd => DataCrlf
  }

  /** What a reported chunk tells the caller. */
  function EventsOf(c: Chunk): seq<Event> {
    Tagged(c.id, c.data) + if c.state.Finished? then [Finish(c.id, c.size)] else []
  }

  function EventsOfAll(chunks: seq<Chunk>): seq<Event> {
    if chunks == [] then [] else EventsOf(chunks[0]) + EventsOfAll(chunks[1..])
  }

  lemma {:induction false} EventsOfMore(chunks: seq<Chunk>, c: Chunk)
    ensures EventsOfAll(chunks + [c]) == EventsOfAll(chunks) + EventsOf(c)
  {
    if chunks == [] {
      assert chunks + [c] == [c] && [c][1..] == [];
    } else {
      assert (chunks + [c])[1..] == chunks[1..] + [c];
      EventsOfMore(chunks[1..], c);
    }
  }

  /** Where the decoder goes after reporting `c` with `rest` unread, `t` being its fields at that point. */
  function Onward(c: Chunk, t: DecoderState, rest: seq<byte>): RunResult {
    if !c.state.Finished? then More(t, [])
    else if t.isLastChunk then Done(Rolled(t), [], rest)
    else Run(Rolled(t), rest)
  }

  /** `c` was decoded from the front of `buf`. */
  ghost predicate Explains(run: RunResult, buf: seq<byte>, r: Result<(Chunk, seq<byte>)>, t: DecoderState) {
    if r.Ok? then
      var (c, rest) := r.value;
      && run == Prepend(EventsOf(c.(id := t.chunkNum)), Onward(c, t, rest))
      && if c.state.Finished? then |rest| < |buf| && Inv(Rolled(t))
         else rest == [] && c.state == Label(t.stage) && c.size == t.totalSize
    else run.Fail?
  }

  /** One octet of a chunk extension. */
  lemma ExtensionOctet(s: DecoderState, buf: seq<byte>)
    requires s.stage.Extension? && buf != []
    ensures buf[0] == CR && !s.crMeet ==> Run(s, buf) == Run(s.(stage := SizeEnd, crMeet := true), buf[1..])
    ensures buf[0] == CR && s.crMeet ==> Run(s, buf).Fail?
    ensures buf[0] == LF ==> Run(s, buf).Fail?
    ensures buf[0] != CR && buf[0] != LF ==> Run(s, buf) == Run(s, buf[1..])
  {
    PrependNothing(Run(s, buf[1..]));
    PrependNothing(Run(s.(stage := SizeEnd, crMeet := true), buf[1..]));
  }

  /** One octet of the line end behind the data of a chunk. */
  lemma DataEndOctet(s: DecoderState, buf: seq<byte>, data: seq<byte>)
    requires s.stage.DataEnd? && buf != []
    ensures buf[0] == CR && !s.crMeet ==> Run(s, buf) == Run(s.(crMeet := true), buf[1..])
    ensures buf[0] == LF && s.crMeet ==>
              Run(s, buf) == Prepend([Finish(s.chunkNum, s.totalSize)],
                                     Onward(Chunk(0, Finished, s.totalSize, data),
                                            s.(stage := Size, totalSize := 0, crMeet := false), buf[1..]))
    ensures !(buf[0] == CR && !s.crMeet) && !(buf[0] == LF && s.crMeet) ==> Run(s, buf).Fail?
  {
    PrependNothing(Run(s.(crMeet := true), buf[1..]));
  }

  /** The data of a finished chunk, and that it is finished. */
  lemma FinishedEvents(c: Chunk, t: DecoderState, rest: seq<byte>)
    requires c.state.Finished?
    ensures Prepend(Tagged(t.chunkNum, c.data), Prepend([Finish(t.chunkNum, c.size)], Onward(c, t, rest)))
            == Prepend(EventsOf(c.(id := t.chunkNum)), Onward(c, t, rest))
  {
    PrependTwice(Tagged(t.chunkNum, c.data), [Finish(t.chunkNum, c.size)], Onward(c, t, rest));
  }

  /** A signed 64-bit multiplication and addition, each checked for overflow. */
  method HexToDecimal(count: nat, num: nat) returns (r: Result<nat>)
    ensures r == if count * 16 + num < I64_LIMIT then Ok(count * 16 + num) else InvalidInput
  {
    if count * 16 >= I64_LIMIT {
      return InvalidInput;
    }
    if count * 16 + num >= I64_LIMIT {
      return InvalidInput;
    }
    return Ok(count * 16 + num);
  }

  /** The chunks reported by a whole call, next to what the octets mean. */
  ghost predicate Reports(run: RunResult, r: Result<(seq<Chunk>, seq<byte>)>, t: DecoderState) {
    if r.Ok? then
      var (chunks, rest) := r.value;
      && !run.Fail?
      && run.state == t
      && run.events == EventsOfAll(chunks)
      && rest == (if run.Done? then run.rest else [])
      && chunks != []
      && forall i :: 0 <= i < |chunks| ==>
           || chunks[i].state.Finished?
           || (i == |chunks| - 1 && chunks[i] == Chunk(t.chunkNum, Label(t.stage), t.totalSize, chunks[i].data))
    else run.Fail?
  }

  function Advanced(c: Chunk, t: DecoderState): DecoderState {
    if c.state.Finished? then Rolled(t) else t
  }

  ghost predicate AllFinished(chunks: seq<Chunk>) {
    forall i :: 0 <= i < |chunks| ==> chunks[i].state.Finished?
  }

  /** One more chunk at the end of the list. */
  lemma OneMore(run: RunResult, results: seq<Chunk>, c: Chunk, t: DecoderState, rest: seq<byte>)
    requires AllFinished(results)
    requires run == Prepend(EventsOfAll(results), Prepend(EventsOf(c), Onward(c, t, rest)))
    requires c.state.Finished? || (c == Chunk(t.chunkNum, Label(t.stage), t.totalSize, c.data) && rest == [])
    ensures c.state.Finished? && !t.isLastChunk ==>
              run == Prepend(EventsOfAll(results + [c]), Run(Rolled(t), rest))
    ensures !c.state.Finished? || t.isLastChunk || rest == [] ==>
              Reports(run, Ok((results + [c], rest)), Advanced(c, t))
  {
    EventsOfMore(results, c);
    PrependTwice(EventsOfAll(results), EventsOf(c), Onward(c, t, rest));
    var all := EventsOfAll(results + [c]);
    assert all + [] == all;
  }

  class ChunkBodyDecoder {
    var chunkNum: nat
    var totalSize: nat
    var restSize: nat
    var hexCount: nat
    var crMeet: bool
    var isLastChunk: bool
    var stage: Stage

    ghost function State(): DecoderState
      reads this
    {
      DecoderState(stage, chunkNum, totalSize, restSize, hexCount, crMeet, isLastChunk)
    }

    constructor ()
      ensures State() == INITIAL
    {
      chunkNum, totalSize, restSize, hexCount := 0, 0, 0, 0;
      crMeet, isLastChunk := false, false;
      stage := Size;
    }

    method DecodeCr() returns (ok: bool)
      modifies this
      ensures ok == !old(crMeet)
      ensures State() == old(State()).(crMeet := true)
    {
      if crMeet {
        return false;
      }
      crMeet := true;
      return true;
    }

    method DecodeLf() returns (ok: bool)
      modifies this
      ensures ok == old(crMeet)
      ensures State() == old(State()).(crMeet := false)
    {
      if !crMeet {
        return false;
      }
      crMeet := false;
      return true;
    }

    method Partial(data: seq<byte>) returns (r: Result<(Chunk, seq<byte>)>)
      ensures r == Ok((Chunk(0, Label(stage), totalSize, data), []))
    {
      r := Ok((Chunk(0, Label(stage), totalSize, data), []));
    }

    /** `data` was just read from the front of `buf`'s chunk. */
    method SkipLastCrlf(data: seq<byte>, buf: seq<byte>) returns (r: Result<(Chunk, seq<byte>)>)
      requires restSize == 0 && hexCount == 0
      modifies this
      ensures Explains(Prepend(Tagged(old(chunkNum), data), Run(old(State()).(stage := DataEnd), buf)),
                       data + buf, r, State())
    {
      stage := DataEnd;
      var i := 0;
      ghost var run := Run(State(), buf);
      while i < |buf|
        invariant 0 <= i <= |buf| && stage.DataEnd? && chunkNum == old(chunkNum)
        invariant restSize == 0 && hexCount == 0
        invariant run == Run(State(), buf[i..])
      {
        assert buf[i..][1..] == buf[i + 1..];
        DataEndOctet(State(), buf[i..], data);
        if buf[i] == CR {
          var ok := DecodeCr();
          if !ok {
            return InvalidInput;
          }
        } else if buf[i] == LF {
          var ok := DecodeLf();
          if !ok {
            return InvalidInput;
          }
          stage := Size;
          r := Ok((Chunk(0, Finished, totalSize, data), buf[i + 1..]));
          totalSize := 0;
          FinishedEvents(r.value.0, State(), buf[i + 1..]);
          return;
        } else {
          return InvalidInput;
        }
        i := i + 1;
      }
      r := Partial(data);
    }

    method DecodeData(buf: seq<byte>) returns (r: Result<(Chunk, seq<byte>)>)
      requires Inv(State().(stage := Data))
      modifies this
      ensures Explains(Run(old(State()).(stage := Data), buf), buf, r, State())
    {
      stage := Data;
      if buf == [] {
        r := Partial([]);
        return;
      }
      var rest := restSize;
      ghost var k, v := chunkNum, totalSize;
      if |buf| >= rest {
        DataRuns(k, v, rest, buf[..rest], buf[rest..]);
        Split(buf, rest);
        restSize := 0;
        crMeet := false;
        EmptyDataEnds(k, v, buf[rest..]);
        r := SkipLastCrlf(buf[..rest], buf[rest..]);
      } else {
        DataRuns(k, v, rest, buf, []);
        assert buf + [] == buf;
        restSize := restSize - |buf|;
        r := Partial(buf);
      }
    }

    method SkipCrlf(buf: seq<byte>) returns (r: Result<(Chunk, seq<byte>)>)
      requires Inv(State().(stage := Data, crMeet := false))
      modifies this
      ensures Explains(Run(old(State()).(stage := SizeEnd), buf), buf, r, State())
    {
      stage := SizeEnd;
      var i := 0;
      ghost var run := Run(State(), buf);
      while i < |buf|
        invariant 0 <= i <= |buf| && stage.SizeEnd?
        invariant Inv(State().(stage := Data, crMeet := false))
        invariant run == Run(State(), buf[i..])
      {
        assert buf[i..][1..] == buf[i + 1..];
        PrependNothing(Run(State().(crMeet := true), buf[i + 1..]));
        PrependNothing(Run(State().(stage := Data, crMeet := false), buf[i + 1..]));
        if buf[i] == CR {
          var ok := DecodeCr();
          if !ok {
            return InvalidInput;
          }
        } else if buf[i] == LF {
          var ok := DecodeLf();
          if !ok {
            return InvalidInput;
          }
          r := DecodeData(buf[i + 1..]);
          return;
        } else {
          return InvalidInput;
        }
        i := i + 1;
      }
      r := Partial([]);
    }

    method SkipExtension(buf: seq<byte>) returns (r: Result<(Chunk, seq<byte>)>)
      requires Inv(State().(stage := Data, crMeet := false))
      modifies this
      ensures Explains(Run(old(State()).(stage := Extension), buf), buf, r, State())
    {
      stage := Extension;
      var i := 0;
      ghost var run := Run(State(), buf);
      while i < |buf|
        invariant 0 <= i <= |buf| && stage.Extension?
        invariant Inv(State().(stage := Data, crMeet := false))
        invariant run == Run(State(), buf[i..])
      {
        assert buf[i..][1..] == buf[i + 1..];
        ExtensionOctet(State(), buf[i..]);
        if buf[i] == CR {
          var ok := DecodeCr();
          if !ok {
            return InvalidInput;
          }
          r := SkipCrlf(buf[i + 1..]);
          return;
        } else if buf[i] == LF {
          var ok := DecodeLf();
          if !ok {
            return InvalidInput;
          }
          r := SkipCrlf(buf[i..]);
          return;
        }
        i := i + 1;
      }
      r := Partial([]);
    }

    method DecodeSpecialChar(buf: seq<byte>) returns (r: Result<(Chunk, seq<byte>)>)
      requires Inv(State()) && stage.Size?
      modifies this
      ensures Explains(Run(SizeRead(old(State())), buf), buf, r, State())
    {
      totalSize := hexCount;
      hexCount := 0;
      if totalSize == 0 {
        isLastChunk := true;
      } else {
        restSize := totalSize;
      }
      r := SkipExtension(buf);
    }

    method DecodeSize(buf: seq<byte>) returns (r: Result<(Chunk, seq<byte>)>)
      requires Inv(State()) && stage.Size?
      modifies this
      ensures Explains(Run(old(State()), buf), buf, r, State())
    {
      stage := Size;
      if buf == [] {
        r := Partial([]);
        return;
      }
      var i := 0;
      ghost var run := Run(State(), buf);
      while i < |buf|
        invariant 0 <= i <= |buf| && stage.Size? && Inv(State())
        invariant run == Run(State(), buf[i..])
      {
        var b := buf[i];
        assert buf[i..][1..] == buf[i + 1..];
        if IsHex(b) {
          hexCount :- HexToDecimal(hexCount, HexDigit(b));
          PrependNothing(Run(State(), buf[i + 1..]));
        } else if EndsSize(b) {
          SizeEnds(chunkNum, hexCount, buf[i..]);
          r := DecodeSpecialChar(buf[i..]);
          return;
        } else {
          return InvalidInput;
        }
        i := i + 1;
      }
      r := Partial([]);
    }

    method DecodeChunk(buf: seq<byte>) returns (r: Result<(Chunk, seq<byte>)>)
      requires Inv(State())
      modifies this
      ensures Explains(Run(old(State()), buf), buf, r, State())
    {
      match stage
      case Size => r := DecodeSize(buf);
      case Extension => r := SkipExtension(buf);
      case SizeEnd => r := SkipCrlf(buf);
      case Data => r := DecodeData(buf);
      case DataEnd =>
        PrependNothing(Run(State(), buf));
        r := SkipLastCrlf([], buf);
        assert [] + buf == buf;
    }

    method MatchDecodeResult(c: Chunk, remains: seq<byte>) returns (stop: bool)
      modifies this
      ensures State() == Advanced(c, old(State()))
      ensures stop == (!c.state.Finished? || old(isLastChunk) || remains == [])
    {
      if !c.state.Finished? {
        return true;
      } else if isLastChunk {
        isLastChunk := false;
        chunkNum := 0;
        return true;
      } else {
        chunkNum := chunkNum + 1;
        return remains == [];
      }
    }

    /** One call of `decode`. */
    method Decode(buf: seq<byte>) returns (r: Result<(seq<Chunk>, seq<byte>)>)
      requires Inv(State())
      modifies this
      ensures r.Ok? ==> Inv(State())
      ensures Reports(Run(old(State()), buf), r, State())
    {
      var results: seq<Chunk> := [];
      var remains := buf;
      ghost var run := Run(State(), buf);
      PrependNothing(run);
      RunInv(State(), buf);
      while true
        invariant Inv(State())
        invariant AllFinished(results)
        invariant run == Prepend(EventsOfAll(results), Run(State(), remains))
        decreases |remains|
      {
        var piece := DecodeChunk(remains);
        if piece.InvalidInput? {
          return InvalidInput;
        }
        var c := piece.value.0.(id := chunkNum);
        OneMore(run, results, c, State(), piece.value.1);
        remains := piece.value.1;
        results := results + [c];
        var stop := MatchDecodeResult(c, remains);
        if stop {
          return Ok((results, remains));
        }
      }
    }
  }

  /** Data that is over is followed by its line end, wherever the stage says the decoder is. */
  lemma EmptyDataEnds(k: nat, v: nat, rest: seq<byte>)
    ensures rest != [] ==> Run(DataState(k, v, 0), rest) == Run(DataState(k, v, 0).(stage := DataEnd), rest)
  {
  }
}
