/**
 * The language the chunk decoder accepts: a body is complete if and only if it
 * is a sequence of chunks of a given form, and the chunks reported are those.
 */
module ChunkGrammar {
  import opened Octets
  import opened ChunkAutomaton

  /** A chunk as it is written: the size in hexadecimal digits, anything up to the end of the line, the data. */
  datatype ChunkText = ChunkText(digits: seq<byte>, extension: seq<byte>, data: seq<byte>)

  predicate IsDigit(b: byte) {
    '0' as int <= b <= '9' as int || 'a' as int <= b <= 'f' as int || 'A' as int <= b <= 'F' as int
  }

  function DigitValue(b: byte): (d: nat)
    requires IsDigit(b)
    ensures d < 16
  {
    if b <= '9' as int then b - '0' as int
    else if 'a' as int <= b then 10 + (b - 'a' as int)
    else 10 + (b - 'A' as int)
  }

  const LOWER_CASE := "0123456789abcdef"
  const UPPER_CASE := "0123456789ABCDEF"

  /** The value of a digit is its position among the digits, in lower or in upper case; nothing else is a digit. */
  lemma DigitIff(b: byte, d: nat)
    requires d < 16
    ensures IsDigit(b) && DigitValue(b) == d <==> b == LOWER_CASE[d] as int || b == UPPER_CASE[d] as int
  {
    if IsDigit(b) {
      assert LOWER_CASE[DigitValue(b)] as int == b || UPPER_CASE[DigitValue(b)] as int == b;
    }
  }

  /** The value of a size, most significant digit first, behind digits with the value `h`. */
  function HexFrom(h: nat, digits: seq<byte>): nat
    requires AllHex(digits)
    decreases |digits|
  {
    if digits == [] then h else HexFrom(h * 16 + DigitValue(digits[0]), digits[1..])
  }

  predicate AllHex(digits: seq<byte>) {
    forall i :: 0 <= i < |digits| ==> IsDigit(digits[i])
  }

  /** No line end within. */
  predicate OneLine(text: seq<byte>) {
    forall i :: 0 <= i < |text| ==> text[i] != '\r' as int && text[i] != '\n' as int
  }

  /** Behind the digits of a size there is a blank, a tabulator or a semicolon, or the end of the line. */
  predicate ValidExtension(text: seq<byte>) {
    OneLine(text) && (text != [] ==> text[0] in {' ' as int, '\t' as int, ';' as int})
  }

  /** The size is that of the data and fits 63 bits. No digits at all stand for zero. */
  predicate ValidChunk(c: ChunkText) {
    && AllHex(c.digits)
    && ValidExtension(c.extension)
    && HexFrom(0, c.digits) == |c.data| < 0x8000_0000_0000_0000
  }

  predicate ValidBody(body: seq<ChunkText>, last: ChunkText) {
    && (forall c :: c in body ==> ValidChunk(c) && c.data != [])
    && ValidChunk(last) && last.data == []
  }

  const CRLF: seq<byte> := ['\r' as int, '\n' as int]

  function RenderChunk(c: ChunkText, rest: seq<byte>): seq<byte> {
    c.digits + (c.extension + (CRLF + (c.data + (CRLF + rest))))
  }

  function RenderBody(body: seq<ChunkText>, last: ChunkText, rest: seq<byte>): seq<byte> {
    if body == [] then RenderChunk(last, rest) else RenderChunk(body[0], RenderBody(body[1..], last, rest))
  }

  function Tagged(k: nat, data: seq<byte>): seq<Event> {
    seq(|data|, i requires 0 <= i < |data| => Octet(k, data[i]))
  }

  function ChunkEvents(k: nat, c: ChunkText): seq<Event> {
    Tagged(k, c.data) + [Finish(k, |c.data|)]
  }

  function BodyEvents(k: nat, body: seq<ChunkText>, last: ChunkText): seq<Event>
    decreases |body|
  {
    if body == [] then ChunkEvents(k, last) else ChunkEvents(k, body[0]) + BodyEvents(k + 1, body[1..], last)
  }

  // ---------------------------------------------------------------------------
  // The decoder on each part of a chunk.
  // ---------------------------------------------------------------------------

  function SizeState(k: nat, h: nat): DecoderState {
    DecoderState(Size, k, 0, 0, h, false, false)
  }

  function ExtensionState(k: nat, v: nat): DecoderState {
    DecoderState(Extension, k, v, v, 0, false, v == 0)
  }

  /** `r` octets of the data of a chunk of size `v` are still to come. */
  function DataState(k: nat, v: nat, r: nat): DecoderState {
    DecoderState(if r == 0 < v then DataEnd else Data, k, v, r, 0, false, v == 0)
  }

  lemma {:induction false} HexGrows(h: nat, digits: seq<byte>)
    requires AllHex(digits)
    ensures h <= HexFrom(h, digits)
    decreases |digits|
  {
    if digits != [] {
      HexGrows(h * 16 + DigitValue(digits[0]), digits[1..]);
    }
  }

  function AfterStep(step: StepResult, rest: seq<byte>): RunResult {
    match step
    case Bad => Fail
    case LastDone(t, events) => Done(t, events, rest)
    case Next(t, events) => Prepend(events, Run(t, rest))
  }

  lemma RunTail(s: DecoderState, b: byte, rest: seq<byte>)
    ensures Run(s, [b] + rest) == AfterStep(Step(s, b), rest)
  {
    assert ([b] + rest)[1..] == rest;
  }

  lemma DigitStep(k: nat, h: nat, d: byte, count: nat)
    requires IsDigit(d) && count == h * 16 + DigitValue(d)
    ensures Step(SizeState(k, h), d) == if count < I64_LIMIT then Next(SizeState(k, count), []) else Bad
  {
  }

  lemma DigitRuns(k: nat, h: nat, d: byte, rest: seq<byte>, count: nat)
    requires IsDigit(d) && count == h * 16 + DigitValue(d)
    ensures Run(SizeState(k, h), [d] + rest) == if count < I64_LIMIT then Run(SizeState(k, count), rest) else Fail
  {
    DigitStep(k, h, d, count);
    RunTail(SizeState(k, h), d, rest);
    PrependNothing(Run(SizeState(k, count), rest));
  }

  /** Digits are accepted if and only if their value fits 63 bits, and then it is their value that is kept. */
  lemma {:induction false} DigitsRun(k: nat, h: nat, digits: seq<byte>, rest: seq<byte>)
    requires AllHex(digits) && h < I64_LIMIT
    ensures Run(SizeState(k, h), digits + rest)
            == if HexFrom(h, digits) < I64_LIMIT then Run(SizeState(k, HexFrom(h, digits)), rest) else Fail
    decreases |digits|
  {
    if digits == [] {
      assert digits + rest == rest;
    } else {
      var count := h * 16 + DigitValue(digits[0]);
      assert digits + rest == [digits[0]] + (digits[1..] + rest);
      DigitRuns(k, h, digits[0], digits[1..] + rest, count);
      HexGrows(count, digits[1..]);
      if count < I64_LIMIT {
        DigitsRun(k, count, digits[1..], rest);
      }
    }
  }

  lemma {:induction false} ExtensionRuns(k: nat, v: nat, text: seq<byte>, rest: seq<byte>)
    requires OneLine(text)
    ensures Run(ExtensionState(k, v), text + rest) == Run(ExtensionState(k, v), rest)
    decreases |text|
  {
    if text == [] {
      assert text + rest == rest;
    } else {
      assert text + rest == [text[0]] + (text[1..] + rest);
      RunTail(ExtensionState(k, v), text[0], text[1..] + rest);
      PrependNothing(Run(ExtensionState(k, v), text[1..] + rest));
      ExtensionRuns(k, v, text[1..], rest);
    }
  }

  /** The first octet behind the digits already belongs to the extension. */
  lemma SizeEnds(k: nat, v: nat, rest: seq<byte>)
    requires rest != [] && rest[0] in {' ' as int, '\t' as int, ';' as int, '\r' as int, '\n' as int}
    ensures Run(SizeState(k, v), rest) == Run(ExtensionState(k, v), rest)
  {
  }

  lemma LineEnds(k: nat, v: nat, rest: seq<byte>)
    ensures Run(ExtensionState(k, v), CRLF + rest) == Run(DataState(k, v, v), rest)
  {
    var s := ExtensionState(k, v);
    var t := s.(stage := SizeEnd, crMeet := true);
    assert CRLF + rest == [CR] + ([LF] + rest);
    RunTail(s, CR, [LF] + rest);
    RunTail(t, LF, rest);
    PrependNothing(Run(t, [LF] + rest));
    PrependNothing(Run(DataState(k, v, v), rest));
  }

  lemma {:induction false} DataRuns(k: nat, v: nat, r: nat, data: seq<byte>, rest: seq<byte>)
    requires |data| <= r <= v
    ensures Run(DataState(k, v, r), data + rest)
            == Prepend(Tagged(k, data), Run(DataState(k, v, r - |data|), rest))
    decreases |data|
  {
    if data == [] {
      assert data + rest == rest;
      PrependNothing(Run(DataState(k, v, r), rest));
    } else {
      assert data + rest == [data[0]] + (data[1..] + rest);
      RunTail(DataState(k, v, r), data[0], data[1..] + rest);
      DataRuns(k, v, r - 1, data[1..], rest);
      PrependTwice([Octet(k, data[0])], Tagged(k, data[1..]), Run(DataState(k, v, r - |data|), rest));
      assert [Octet(k, data[0])] + Tagged(k, data[1..]) == Tagged(k, data);
    }
  }

  function AfterChunk(k: nat, v: nat, rest: seq<byte>): RunResult {
    if v == 0 then Done(INITIAL, [], rest) else Run(SizeState(k + 1, 0), rest)
  }

  lemma ChunkEnds(k: nat, v: nat, rest: seq<byte>)
    ensures Run(DataState(k, v, 0), CRLF + rest) == Prepend([Finish(k, v)], AfterChunk(k, v, rest))
  {
    var s := DataState(k, v, 0);
    var t := s.(stage := DataEnd, crMeet := true);
    assert CRLF + rest == [CR] + ([LF] + rest);
    RunTail(s, CR, [LF] + rest);
    RunTail(t, LF, rest);
    PrependNothing(Run(t, [LF] + rest));
  }

  /** From the end of the digits on. */
  lemma LineRuns(k: nat, v: nat, extension: seq<byte>, rest: seq<byte>)
    requires ValidExtension(extension)
    ensures Run(SizeState(k, v), extension + (CRLF + rest)) == Run(DataState(k, v, v), rest)
  {
    var text := extension + (CRLF + rest);
    assert text[0] == if extension == [] then CR else extension[0];
    SizeEnds(k, v, text);
    ExtensionRuns(k, v, extension, CRLF + rest);
    LineEnds(k, v, rest);
  }

  lemma ChunkRuns(k: nat, c: ChunkText, rest: seq<byte>)
    requires ValidChunk(c)
    ensures Run(SizeState(k, 0), RenderChunk(c, rest))
            == Prepend(ChunkEvents(k, c), AfterChunk(k, |c.data|, rest))
  {
    var v := |c.data|;
    DigitsRun(k, 0, c.digits, c.extension + (CRLF + (c.data + (CRLF + rest))));
    LineRuns(k, v, c.extension, c.data + (CRLF + rest));
    DataRuns(k, v, v, c.data, CRLF + rest);
    ChunkEnds(k, v, rest);
    PrependTwice(Tagged(k, c.data), [Finish(k, v)], AfterChunk(k, v, rest));
  }

  /** Every well-formed body is decoded to its chunks, and what follows it is left alone. */
  lemma {:induction false} BodyRuns(k: nat, body: seq<ChunkText>, last: ChunkText, rest: seq<byte>)
    requires ValidBody(body, last)
    ensures Run(SizeState(k, 0), RenderBody(body, last, rest)) == Done(INITIAL, BodyEvents(k, body, last), rest)
    decreases |body|
  {
    if body == [] {
      ChunkRuns(k, last, rest);
      assert ChunkEvents(k, last) + [] == ChunkEvents(k, last);
    } else {
      ChunkRuns(k, body[0], RenderBody(body[1..], last, rest));
      BodyRuns(k + 1, body[1..], last, rest);
    }
  }

  // ---------------------------------------------------------------------------
  // Nothing else is accepted.
  // ---------------------------------------------------------------------------

  function HexPrefix(w: seq<byte>): (n: nat)
    ensures n <= |w| && AllHex(w[..n]) && (n < |w| ==> !IsDigit(w[n]))
  {
    if w == [] || !IsDigit(w[0]) then 0 else
    var n := HexPrefix(w[1..]);
    assert w[..1 + n] == [w[0]] + w[1..][..n];
    1 + n
  }

  function LinePrefix(w: seq<byte>): (n: nat)
    ensures n <= |w| && OneLine(w[..n]) && (n < |w| ==> w[n] == CR || w[n] == LF)
  {
    if w == [] || w[0] == CR || w[0] == LF then 0 else
    var n := LinePrefix(w[1..]);
    assert w[..1 + n] == [w[0]] + w[1..][..n];
    1 + n
  }

  lemma Split(w: seq<byte>, n: nat)
    requires n <= |w|
    ensures w == w[..n] + w[n..]
  {
  }

  /** What is accepted as a line end is CR LF. */
  lemma LineEndsOnly(k: nat, v: nat, w: seq<byte>)
    requires w != [] && (w[0] == CR || w[0] == LF) && Run(ExtensionState(k, v), w).Done?
    ensures CRLF <= w
  {
    RunTail(ExtensionState(k, v), w[0], w[1..]);
    assert w == [w[0]] + w[1..];
    if w[1..] != [] {
      RunTail(ExtensionState(k, v).(stage := SizeEnd, crMeet := true), w[1], w[2..]);
      assert w[1..] == [w[1]] + w[2..];
    }
  }

  lemma ChunkEndsOnly(k: nat, v: nat, w: seq<byte>)
    requires Run(DataState(k, v, 0), w).Done?
    ensures CRLF <= w
  {
    RunTail(DataState(k, v, 0), w[0], w[1..]);
    assert w == [w[0]] + w[1..];
    if w[1..] != [] {
      RunTail(DataState(k, v, 0).(stage := DataEnd, crMeet := true), w[1], w[2..]);
      assert w[1..] == [w[1]] + w[2..];
    }
  }

  /** A size line that is accepted has the form of one. */
  lemma LineOnly(k: nat, w: seq<byte>) returns (digits: seq<byte>, extension: seq<byte>, rest: seq<byte>)
    requires Run(SizeState(k, 0), w).Done?
    ensures AllHex(digits) && HexFrom(0, digits) < I64_LIMIT && ValidExtension(extension)
    ensures w == digits + (extension + (CRLF + rest))
    ensures Run(SizeState(k, 0), w) == Run(DataState(k, HexFrom(0, digits), HexFrom(0, digits)), rest)
  {
    var n := HexPrefix(w);
    digits := w[..n];
    Split(w, n);
    DigitsRun(k, 0, digits, w[n..]);
    var v := HexFrom(0, digits);
    SizeEnds(k, v, w[n..]);
    var m := LinePrefix(w[n..]);
    extension := w[n..][..m];
    var tail := w[n..][m..];
    Split(w[n..], m);
    ExtensionRuns(k, v, extension, tail);
    LineEndsOnly(k, v, tail);
    rest := tail[2..];
    assert tail == CRLF + rest;
    LineEnds(k, v, rest);
  }

  /** The data of a chunk that is accepted is as long as its size says. */
  lemma DataOnly(k: nat, v: nat, w: seq<byte>) returns (data: seq<byte>, rest: seq<byte>)
    requires Run(DataState(k, v, v), w).Done?
    ensures |data| == v && w == data + (CRLF + rest)
  {
    if |w| < v {
      assert w + [] == w;
      DataRuns(k, v, v, w, []);
      assert false;
    }
    data := w[..v];
    Split(w, v);
    DataRuns(k, v, v, data, w[v..]);
    ChunkEndsOnly(k, v, w[v..]);
    rest := w[v..][2..];
    assert w[v..] == CRLF + rest;
  }

  lemma ChunkOnly(k: nat, w: seq<byte>) returns (c: ChunkText, rest: seq<byte>)
    requires Run(SizeState(k, 0), w).Done?
    ensures ValidChunk(c) && w == RenderChunk(c, rest)
  {
    var digits, extension, tail := LineOnly(k, w);
    var data;
    data, rest := DataOnly(k, HexFrom(0, digits), tail);
    c := ChunkText(digits, extension, data);
  }

  /** Whatever is accepted is a well-formed body, followed by what is left over. */
  lemma {:induction false} BodyOnly(k: nat, w: seq<byte>) returns (body: seq<ChunkText>, last: ChunkText)
    requires Run(SizeState(k, 0), w).Done?
    ensures ValidBody(body, last) && w == RenderBody(body, last, Run(SizeState(k, 0), w).rest)
    decreases |w|
  {
    var c, rest := ChunkOnly(k, w);
    ChunkRuns(k, c, rest);
    if c.data == [] {
      body, last := [], c;
    } else {
      var later;
      later, last := BodyOnly(k + 1, rest);
      body := [c] + later;
    }
  }

  ghost predicate IsBody(w: seq<byte>, body: seq<ChunkText>, last: ChunkText, rest: seq<byte>) {
    ValidBody(body, last) && w == RenderBody(body, last, rest)
  }

  /** A new decoder accepts `w` if and only if it starts with a well-formed body, and then reports its chunks. */
  lemma AcceptsExactlyBodies(w: seq<byte>)
    ensures Run(INITIAL, w).Done? <==> exists body, last, rest :: IsBody(w, body, last, rest)
    ensures forall body, last, rest :: IsBody(w, body, last, rest) ==>
              Run(INITIAL, w) == Done(INITIAL, BodyEvents(0, body, last), rest)
  {
    forall body, last, rest | IsBody(w, body, last, rest)
      ensures Run(INITIAL, w) == Done(INITIAL, BodyEvents(0, body, last), rest)
    {
      BodyRuns(0, body, last, rest);
    }
    if Run(INITIAL, w).Done? {
      var body, last := BodyOnly(0, w);
      assert IsBody(w, body, last, Run(INITIAL, w).rest);
    }
  }

  // ---------------------------------------------------------------------------
  // Letter case, and when the decoder gives up.
  // ---------------------------------------------------------------------------

  /** Some of the letters among the digits were replaced by capitals. */
  predicate Capitalised(digits: seq<byte>, other: seq<byte>) {
    && |other| == |digits|
    && forall i :: 0 <= i < |digits| ==>
         other[i] == digits[i] || ('a' as int <= digits[i] <= 'f' as int && other[i] == digits[i] - 32)
  }

  lemma {:induction false} CapitalsMeanTheSame(h: nat, digits: seq<byte>, other: seq<byte>)
    requires AllHex(digits) && Capitalised(digits, other)
    ensures AllHex(other) && HexFrom(h, other) == HexFrom(h, digits)
    decreases |digits|
  {
    if digits != [] {
      CapitalsMeanTheSame(h * 16 + DigitValue(digits[0]), digits[1..], other[1..]);
      assert other == [other[0]] + other[1..];
    }
  }

  /** A size may be written in capitals, or in both cases: nothing else changes. */
  lemma CaseIsInvisible(k: nat, digits: seq<byte>, other: seq<byte>, rest: seq<byte>)
    requires AllHex(digits) && Capitalised(digits, other)
    ensures Run(SizeState(k, 0), other + rest) == Run(SizeState(k, 0), digits + rest)
  {
    CapitalsMeanTheSame(0, digits, other);
    DigitsRun(k, 0, digits, rest);
    DigitsRun(k, 0, other, rest);
  }

  const CLOSING_CHUNK: seq<byte> := ['0' as int] + (CRLF + CRLF)

  lemma ClosingChunkRuns(k: nat)
    ensures Run(SizeState(k, 0), CLOSING_CHUNK).Done?
  {
    var last := ChunkText(['0' as int], [], []);
    assert HexFrom(0, last.digits) == 0;
    assert CLOSING_CHUNK == RenderChunk(last, []);
    ChunkRuns(k, last, []);
  }

  /** What may follow within the data of a chunk, and behind it. */
  lemma DataCompletes(k: nat, v: nat, r: nat) returns (z: seq<byte>)
    requires r <= v
    ensures Run(DataState(k, v, r), z).Done?
  {
    var data := seq(r, _ => 0);
    var rest := if v == 0 then [] else CLOSING_CHUNK;
    z := data + (CRLF + rest);
    DataRuns(k, v, r, data, CRLF + rest);
    ChunkEnds(k, v, rest);
    ClosingChunkRuns(k + 1);
  }

  lemma LineCompletes(k: nat, v: nat) returns (z: seq<byte>)
    ensures z != [] && z[0] == '\r' as int && Run(ExtensionState(k, v), z).Done?
  {
    var rest := DataCompletes(k, v, v);
    z := CRLF + rest;
    LineEnds(k, v, rest);
  }

  /** Behind the carriage return at the end of a chunk. */
  lemma LineFeedCompletes(s: DecoderState) returns (z: seq<byte>)
    requires Inv(s) && s.stage.DataEnd? && s.crMeet
    ensures Run(s, z).Done?
  {
    var rest := if s.isLastChunk then [] else CLOSING_CHUNK;
    z := [LF] + rest;
    RunTail(s, LF, rest);
    ClosingChunkRuns(s.chunkNum + 1);
  }

  /** Whatever the decoder has read without failing, it can still come to the end of a body. */
  lemma Completes(s: DecoderState) returns (z: seq<byte>)
    requires Inv(s)
    ensures Run(s, z).Done?
  {
    match s.stage
    case Size =>
      z := LineCompletes(s.chunkNum, s.hexCount);
      SizeEnds(s.chunkNum, s.hexCount, z);
    case Extension =>
      z := LineCompletes(s.chunkNum, s.totalSize);
    case SizeEnd =>
      var rest := DataCompletes(s.chunkNum, s.totalSize, s.totalSize);
      z := [LF] + rest;
      RunTail(s, LF, rest);
    case Data =>
      z := DataCompletes(s.chunkNum, s.totalSize, s.restSize);
    case DataEnd =>
      var t := s.(crMeet := true);
      z := LineFeedCompletes(t);
      if !s.crMeet {
        RunTail(s, CR, z);
        z := [CR] + z;
      }
  }

  ghost predicate StartsWithBody(w: seq<byte>) {
    exists body, last, rest :: IsBody(w, body, last, rest)
  }

  /** The decoder fails if and only if no continuation makes the input start with a well-formed body. */
  lemma FailsIff(w: seq<byte>)
    ensures Run(INITIAL, w).Fail? <==> forall z :: !StartsWithBody(w + z)
  {
    forall z
      ensures Run(INITIAL, w + z) == Then(Run(INITIAL, w), z)
      ensures Run(INITIAL, w + z).Done? <==> StartsWithBody(w + z)
    {
      CutIsInvisible(INITIAL, w, z);
      AcceptsExactlyBodies(w + z);
    }
    if !Run(INITIAL, w).Fail? {
      var z := [];
      if Run(INITIAL, w).More? {
        RunInv(INITIAL, w);
        z := Completes(Run(INITIAL, w).state);
      }
      assert StartsWithBody(w + z);
    }
  }
}
