/** The chunk encoder as an object that writes into the caller's buffer. */
module ChunkBody {
  import opened Octets
  import opened Buffers
  import opened ChunkAutomaton
  import opened ChunkGrammar
  import opened ChunkWire
  import opened ChunkEncoder

  class ChunkBody {
    const source: Source
    const trailer: seq<byte>
    var loaded: nat
    var chunkCount: nat
    var chunk: seq<byte>
    var readFlag: bool
    var chunkIdx: nat
    var status: TokenStatus
    var hexIdx: nat
    var metaIdx: nat
    var dataIdx: nat
    var finishIdx: nat
    var trailerIdx: nat
    var dataStatus: DataStatus

    ghost function Fields(): Body
      reads this
    {
      Body(source, trailer, loaded, chunkCount, chunk, readFlag, chunkIdx, status, hexIdx, metaIdx, dataIdx,
           finishIdx, trailerIdx, dataStatus)
    }

    /** The step was done: its output is in `buf` from `at` on, and nothing else changed there. */
    twostate predicate Did(step: Step, buf: array<byte>, at: nat, n: nat)
      reads this, buf
    {
      && n == |step.out| && at + n <= buf.Length
      && buf[..] == Splice(old(buf[..]), at, step.out)
      && Fields() == step.next
    }

    constructor (source: Source, trailer: seq<byte>)
      ensures Fields() == Initial(source, trailer)
    {
      this.source, this.trailer := source, trailer;
      loaded, chunkCount, chunk, readFlag, chunkIdx, status := 0, 0, [], false, 0, MetaSize;
      hexIdx, metaIdx, dataIdx, finishIdx, trailerIdx, dataStatus := 0, 0, 0, 0, 0, Partial;
    }

    /** As much of `token` from `from` on as fits behind `at`; `complete` says that this was all of it. */
    static method WriteToken(token: seq<byte>, from: nat, buf: array<byte>, at: nat)
      returns (n: nat, complete: bool)
      requires from <= |token| && at <= buf.Length
      modifies buf
      ensures n == |Piece(token, from, buf.Length - at)|
      ensures complete == FitsRest(token, from, buf.Length - at)
      ensures buf[..] == Splice(old(buf[..]), at, Piece(token, from, buf.Length - at))
    {
      n := Min(|token| - from, buf.Length - at);
      Copy(buf, at, token[from..from + n]);
      complete := buf.Length - at >= |token| - from;
    }

    method MetaSizeEncode(buf: array<byte>, at: nat) returns (n: nat)
      requires hexIdx <= |HexText(|chunk|)| && at <= buf.Length
      modifies this, buf
      ensures Did(EmitSize(old(Fields()), buf.Length - at), buf, at, n)
    {
      var complete;
      var token := HexText(|chunk|);
      if |chunk| == CHUNK_SIZE {
        n, complete := WriteToken(token, hexIdx, buf, at);
        hexIdx := hexIdx + n;
        if complete {
          status := MetaCrlf;
          hexIdx := 0;
        }
      } else {
        n, complete := WriteToken(token, 0, buf, at);
        if complete {
          status := MetaCrlf;
        }
      }
    }

    method MetaCrlfEncode(buf: array<byte>, at: nat) returns (n: nat)
      requires metaIdx <= 2 && at <= buf.Length
      modifies this, buf
      ensures Did(EmitMetaCrlf(old(Fields()), buf.Length - at), buf, at, n)
    {
      var complete;
      n, complete := WriteToken(CRLF, metaIdx, buf, at);
      metaIdx := metaIdx + n;
      if complete {
        status := DataToken;
        metaIdx := 0;
      }
    }

    method DataCrlfEncode(buf: array<byte>, at: nat) returns (n: nat)
      requires dataIdx <= 2 && at <= buf.Length
      modifies this, buf
      ensures Did(EmitDataCrlf(old(Fields()), buf.Length - at), buf, at, n)
    {
      var complete;
      n, complete := WriteToken(CRLF, dataIdx, buf, at);
      dataIdx := dataIdx + n;
      if complete {
        status := MetaSize;
        dataIdx := 0;
      }
    }

    method FinishEncode(buf: array<byte>, at: nat) returns (n: nat)
      requires finishIdx <= 2 && at <= buf.Length
      modifies this, buf
      ensures Did(EmitFinishCrlf(old(Fields()), buf.Length - at), buf, at, n)
    {
      var complete;
      n, complete := WriteToken(CRLF, finishIdx, buf, at);
      finishIdx := finishIdx + n;
      if complete {
        metaIdx := 0;
        chunkCount := 0;
        dataStatus := Complete;
      }
    }

    /** The data of a full chunk, or of the last one. */
    method DataEncode(buf: array<byte>, at: nat) returns (n: nat)
      requires chunkIdx <= |chunk| && at <= buf.Length
      modifies this, buf
      ensures Did(EmitData(old(Fields()), buf.Length - at), buf, at, n)
    {
      var complete;
      n, complete := WriteToken(chunk, chunkIdx, buf, at);
      chunkIdx := chunkIdx + n;
      if complete {
        readFlag := false;
        if |chunk| == CHUNK_SIZE {
          status := DataCrlf;
          chunkCount := 1;
        } else {
          status := FinishCrlf;
          chunkCount := 0;
        }
      }
    }

    method TrailerEncode(buf: array<byte>, at: nat) returns (n: nat)
      requires trailerIdx <= |End(trailer)| && at <= buf.Length
      modifies this, buf
      ensures Did(EmitTrailer(old(Fields()), buf.Length - at), buf, at, n)
    {
      var complete;
      var end := End(trailer);
      n, complete := WriteToken(end, trailerIdx, buf, at);
      trailerIdx := trailerIdx + n;
      if complete {
        dataStatus := Finished;
      }
    }

    method LoadChunk()
      requires !readFlag
      modifies this
      ensures Fields() == Loaded(old(Fields()))
    {
      readFlag := true;
      chunkIdx := 0;
      match source {
        case Reader(calls) =>
          chunk := calls(loaded);
        case Bytes(data) =>
          var start := Min(chunkCount * CHUNK_SIZE, |data|);
          chunk := data[start..start + Min(|data| - start, CHUNK_SIZE)];
      }
      loaded := loaded + 1;
    }

    method TokenEncode(buf: array<byte>, at: nat) returns (n: nat)
      requires InRange(Fields()) && readFlag && at <= buf.Length
      modifies this, buf
      ensures Did(EmitToken(old(Fields()), buf.Length - at), buf, at, n)
    {
      match status {
        case MetaSize => n := MetaSizeEncode(buf, at);
        case MetaCrlf => n := MetaCrlfEncode(buf, at);
        case DataToken => n := DataEncode(buf, at);
        case DataCrlf => n := DataCrlfEncode(buf, at);
        case FinishCrlf => n := FinishEncode(buf, at);
      }
    }

    method EncodeStep(buf: array<byte>, at: nat) returns (n: nat)
      requires InRange(Fields()) && !dataStatus.Finished? && at <= buf.Length
      modifies this, buf
      ensures Did(StepOf(old(Fields()), buf.Length - at), buf, at, n)
    {
      if dataStatus.Complete? {
        n := TrailerEncode(buf, at);
      } else {
        if !readFlag {
          LoadChunk();
        }
        n := TokenEncode(buf, at);
      }
    }

    /** The step as a value. */
    method TakeStep(buf: array<byte>, at: nat, ghost step: Step) returns (n: nat)
      requires InRange(Fields()) && !dataStatus.Finished? && at <= buf.Length
      requires IsStep(Fields(), buf.Length - at, step)
      modifies this, buf
      ensures n == |step.out| && at + n <= buf.Length && buf[..] == Splice(old(buf[..]), at, step.out)
      ensures Fields() == step.next
    {
      n := EncodeStep(buf, at);
    }

    /** The first step of the call `call`, and the call that goes on from there. */
    method NextStep(buf: array<byte>, at: nat, ghost call: Step)
      returns (n: nat, ghost out: seq<byte>, ghost left: nat, ghost later: Step)
      requires Sane(Fields()) && !dataStatus.Finished? && at < buf.Length && IsCall(Fields(), buf.Length - at, call)
      modifies this, buf
      ensures n == |out| && at + n + left == buf.Length && buf[..] == Splice(old(buf[..]), at, out)
      ensures Sane(Fields()) && IsCall(Fields(), left, later) && call == AndThen(out, later)
      ensures n == 0 ==> Rank(Fields()) < old(Rank(Fields()))
    {
      ghost var next;
      out, next, left, later := DataOnStep(Fields(), buf.Length - at, call);
      n := TakeStep(buf, at, Step(out, next));
    }

    /** A turn of the loop in `data`: `done` was written before, and `call` is the rest of the call. */
    method Turn(buf: array<byte>, at: nat, ghost start: seq<byte>, ghost done: seq<byte>, ghost call: Step)
      returns (n: nat, ghost all: seq<byte>, ghost later: Step)
      requires Sane(Fields()) && !dataStatus.Finished? && at == |done| < buf.Length == |start|
      requires buf[..] == Splice(start, 0, done) && IsCall(Fields(), buf.Length - at, call)
      modifies this, buf
      ensures n == |all| <= buf.Length && buf[..] == Splice(start, 0, all)
      ensures Sane(Fields()) && IsCall(Fields(), buf.Length - n, later)
      ensures AndThen(done, call) == AndThen(all, later)
      ensures at < n || (at == n && Rank(Fields()) < old(Rank(Fields())))
    {
      var count;
      ghost var out, left;
      count, out, left, later := NextStep(buf, at, call);
      SpliceTwice(start, 0, done, out);
      AndThenTwice(done, out, later);
      n, all := at + count, done + out;
      assert left == buf.Length - n;
    }

    /** One call of `data`. */
    method Data(buf: array<byte>) returns (n: nat)
      requires Sane(Fields())
      modifies this, buf
      ensures var call := DataOn(old(Fields()), buf.Length);
              Did(call, buf, 0, n)
      ensures Sane(Fields())
    {
      ghost var whole, done := DataOn(Fields(), buf.Length), [];
      ghost var call := whole;
      assert [] + whole.out == whole.out;
      n := 0;
      while n != buf.Length
        invariant n == |done| <= buf.Length && buf[..] == Splice(old(buf[..]), 0, done)
        invariant Sane(Fields()) && IsCall(Fields(), buf.Length - n, call) && whole == AndThen(done, call)
        decreases buf.Length - n, Rank(Fields())
      {
        if dataStatus.Finished? {
          break;
        }
        n, done, call := Turn(buf, n, old(buf[..]), done, call);
      }
      assert done + [] == done;
    }
  }

  lemma AndThenTwice(a: seq<byte>, b: seq<byte>, call: Step)
    ensures AndThen(a, AndThen(b, call)) == AndThen(a + b, call)
  {
    Associate(a, b, call.out);
  }
}
