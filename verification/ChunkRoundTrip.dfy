/** A body through the chunk encoder, any buffers, any segments and the chunk decoder. */
module ChunkRoundTrip {
  import opened Octets
  import opened Buffers
  import opened ChunkAutomaton
  import opened ChunkGrammar
  import opened ChunkWire
  import opened ChunkEncoder
  import opened ChunkCalls
  import opened ChunkBody

  // ---------------------------------------------------------------------------
  // Any sequence of buffers.
  // ---------------------------------------------------------------------------

  /** One buffer of the given size. */
  method Offer(body: ChunkBody, size: nat) returns (piece: seq<byte>)
    requires Sane(body.Fields())
    modifies body
    ensures Sane(body.Fields()) && Step(piece, body.Fields()) == DataOn(old(body.Fields()), size)
  {
    var buf := new byte[size](_ => 0);
    ghost var call, zeros := DataOn(body.Fields(), size), buf[..];
    var n := body.Data(buf);
    Front(buf[..], zeros, call.out);
    piece := buf[..][..n];
  }

  /** What was written through `sizes` when the source has a last chunk `m`. */
  ghost predicate WritesBody(s: Body, sizes: seq<nat>, m: nat, out: seq<byte>) {
    var wire := Wire(s.source, m, s.trailer);
    && (TokenWhole(s.source, m, s.trailer, sizes, |sizes|) ==> out == wire[..Min(Room(sizes, |sizes|), |wire|)])
    && (Left(s, m) == Some([]) ==> (out == wire <==> TokenWhole(s.source, m, s.trailer, sizes, |sizes|)))
  }

  /**
   * A caller that offers one buffer after the other. If the source has a last chunk and no buffer ends within the
   * size token of that chunk, the output is the body, as far as there is room; once it is finished, only then.
   */
  method EncodeAll(body: ChunkBody, sizes: seq<nat>) returns (out: seq<byte>)
    requires body.Fields() == Initial(body.source, body.trailer) && Fits(body.source)
    modifies body
    ensures Step(out, body.Fields()) == Calls(body.source, body.trailer, sizes, |sizes|)
    ensures forall m :: FirstShort(body.source, m) ==> WritesBody(body.Fields(), sizes, m, out)
  {
    out := [];
    for i := 0 to |sizes|
      invariant Step(out, body.Fields()) == Calls(body.source, body.trailer, sizes, i) && Sane(body.Fields())
    {
      var piece := Offer(body, sizes[i]);
      out := out + piece;
    }
    forall m | FirstShort(body.source, m)
      ensures WritesBody(body.Fields(), sizes, m, out)
    {
      CallsWriteBodyIff(body.source, m, body.trailer, sizes);
    }
  }

  // ---------------------------------------------------------------------------
  // Decoding what was encoded.
  // ---------------------------------------------------------------------------

  lemma {:induction false} HexFromMore(h: nat, digits: seq<byte>, d: byte)
    requires AllHex(digits) && IsDigit(d)
    ensures AllHex(digits + [d]) && HexFrom(h, digits + [d]) == HexFrom(h, digits) * 16 + DigitValue(d)
    decreases |digits|
  {
    if digits == [] {
      assert digits + [d] == [d] && [d][1..] == [];
    } else {
      assert (digits + [d])[1..] == digits[1..] + [d];
      HexFromMore(h * 16 + DigitValue(digits[0]), digits[1..], d);
    }
  }

  /** The digits of a number have its value. */
  lemma {:induction false} HexRoundTrip(n: nat)
    ensures HexFrom(0, HexText(n)) == n
  {
    if n < 16 {
      assert HexText(n)[1..] == [];
    } else {
      HexRoundTrip(n / 16);
      HexFromMore(0, HexText(n / 16), HexChar(n % 16));
    }
  }

  function Text(data: seq<byte>): ChunkText {
    ChunkText(HexText(|data|), [], data)
  }

  /** The chunks before the closing one. A last chunk without content is a closing one itself. */
  function Texts(source: Source, i: nat, m: nat): seq<ChunkText>
    requires i <= m
    decreases m - i
  {
    if i == m then if LoadAt(source, m) == [] then [] else [Text(LoadAt(source, m))]
    else [Text(LoadAt(source, i))] + Texts(source, i + 1, m)
  }

  /** Trailer fields that look like the end of a body to a decoder that expects none. */
  predicate LooksLikeEnd(trailer: seq<byte>) {
    trailer == [] || CRLF <= trailer
  }

  /** The decoder comes to the end of the body: at the first of two closing chunks, or at the only one. */
  predicate Ends(source: Source, m: nat, trailer: seq<byte>) {
    LoadAt(source, m) == [] || LooksLikeEnd(trailer)
  }

  /** What it leaves behind: the second closing chunk, or what follows the end of the body. */
  function LeftOver(source: Source, m: nat, trailer: seq<byte>): seq<byte>
    requires Ends(source, m, trailer)
  {
    if LoadAt(source, m) == [] then End(trailer) else (trailer + CRLF)[2..]
  }

  const CLOSING := ChunkText([48], [], [])

  lemma EndIsChunk()
    ensures End([]) == RenderChunk(CLOSING, []) && HexText(0) == [48] && ValidChunk(CLOSING)
  {
    HexRoundTrip(0);
    assert [48] + ([] + (CRLF + ([] + (CRLF + [])))) == [48, CR, LF] + ([] + CRLF);
  }

  lemma ChunkIsText(data: seq<byte>, rest: seq<byte>)
    ensures ChunkBytes(data) + rest == RenderChunk(Text(data), rest)
  {
    Regroup(HexText(|data|), CRLF, data, CRLF, rest);
    assert [] + (CRLF + (data + (CRLF + rest))) == CRLF + (data + (CRLF + rest));
  }

  lemma TextIsValid(data: seq<byte>)
    requires |data| <= CHUNK_SIZE
    ensures ValidChunk(Text(data))
  {
    HexRoundTrip(|data|);
  }

  lemma {:induction false} TextsAreValid(source: Source, i: nat, m: nat)
    requires i <= m && Fits(source) && FirstShort(source, m)
    ensures ValidBody(Texts(source, i, m), CLOSING)
    decreases m - i
  {
    EndIsChunk();
    TextIsValid(LoadAt(source, i));
    if i < m {
      assert |LoadAt(source, i)| == CHUNK_SIZE;
      TextsAreValid(source, i + 1, m);
    }
  }

  lemma EndIsClosing(trailer: seq<byte>)
    requires LooksLikeEnd(trailer)
    ensures End(trailer) == RenderChunk(CLOSING, (trailer + CRLF)[2..])
  {
    var w := trailer + CRLF;
    assert w[..2] == CRLF && w == CRLF + w[2..];
    assert [48] + ([] + (CRLF + ([] + (CRLF + w[2..])))) == [48, CR, LF] + w;
  }

  lemma LastIsBody(source: Source, m: nat, trailer: seq<byte>)
    requires Ends(source, m, trailer)
    ensures LastPart(source, m, trailer) == RenderBody(Texts(source, m, m), CLOSING, LeftOver(source, m, trailer))
  {
    var data := LoadAt(source, m);
    ChunkIsText(data, End(trailer));
    if data == [] {
      EndIsChunk();
    } else {
      EndIsClosing(trailer);
      assert Texts(source, m, m)[1..] == [];
    }
  }

  /** What the encoder writes is a well-formed body, if it ends. */
  lemma {:induction false} WireIsBody(source: Source, i: nat, m: nat, trailer: seq<byte>)
    requires i <= m && Ends(source, m, trailer)
    ensures ChunksFrom(source, i, m, trailer) == RenderBody(Texts(source, i, m), CLOSING, LeftOver(source, m, trailer))
    decreases m - i
  {
    if i == m {
      LastIsBody(source, m, trailer);
    } else {
      WireIsBody(source, i + 1, m, trailer);
      ChunkIsText(LoadAt(source, i), ChunksFrom(source, i + 1, m, trailer));
      assert Texts(source, i, m)[1..] == Texts(source, i + 1, m);
    }
  }

  /** Behind the size of the closing chunk the decoder wants the end of a line, and nothing else. */
  lemma NoEndFails(k: nat, w: seq<byte>)
    requires |w| >= 2 && !(CRLF <= w)
    ensures Run(DataState(k, 0, 0), w) == Fail
  {
    RunTail(DataState(k, 0, 0), w[0], w[1..]);
    assert w == [w[0]] + w[1..];
    if w[0] == CR {
      RunTail(DataState(k, 0, 0).(stage := DataEnd, crMeet := true), w[1], w[2..]);
      assert w[1..] == [w[1]] + w[2..];
    }
  }

  /** The size line of the closing chunk. */
  lemma ClosingLineRuns(k: nat, w: seq<byte>)
    ensures Run(SizeState(k, 0), [48, CR, LF] + w) == Run(DataState(k, 0, 0), w)
  {
    EndIsChunk();
    assert [48, CR, LF] + w == [48] + (CRLF + w) && [] + (CRLF + w) == CRLF + w;
    DigitsRun(k, 0, [48], CRLF + w);
    LineRuns(k, 0, [], w);
  }

  lemma EndFails(k: nat, trailer: seq<byte>)
    requires !LooksLikeEnd(trailer)
    ensures Run(SizeState(k, 0), End(trailer)) == Fail
  {
    var w := trailer + CRLF;
    assert w[0] == trailer[0] && (|trailer| > 1 ==> w[1] == trailer[1]) && (|trailer| == 1 ==> w[1] == CR);
    ClosingLineRuns(k, w);
    NoEndFails(k, w);
  }

  /** One chunk of content in front of something that fails. */
  lemma ContentFails(k: nat, data: seq<byte>, rest: seq<byte>)
    requires data != [] && |data| <= CHUNK_SIZE && Run(SizeState(k + 1, 0), rest) == Fail
    ensures Run(SizeState(k, 0), ChunkBytes(data) + rest) == Fail
  {
    TextIsValid(data);
    ChunkIsText(data, rest);
    ChunkRuns(k, Text(data), rest);
  }

  lemma {:induction false} WireFails(source: Source, k: nat, i: nat, m: nat, trailer: seq<byte>)
    requires i <= m && Fits(source) && FirstShort(source, m) && !Ends(source, m, trailer)
    ensures Run(SizeState(k, 0), ChunksFrom(source, i, m, trailer)) == Fail
    decreases m - i
  {
    if i == m {
      EndFails(k + 1, trailer);
      ContentFails(k, LoadAt(source, m), End(trailer));
    } else {
      assert |LoadAt(source, i)| == CHUNK_SIZE;
      WireFails(source, k + 1, i + 1, m, trailer);
      ContentFails(k, LoadAt(source, i), ChunksFrom(source, i + 1, m, trailer));
    }
  }

  /** The octets reported, without their chunk numbers. */
  function OctetsOf(events: seq<Event>): seq<byte> {
    if events == [] then []
    else (if events[0].Octet? then [events[0].value] else []) + OctetsOf(events[1..])
  }

  lemma {:induction false} OctetsOfJoin(a: seq<Event>, b: seq<Event>)
    ensures OctetsOf(a + b) == OctetsOf(a) + OctetsOf(b)
  {
    if a == [] {
      assert a + b == b;
      Associate([], [], OctetsOf(b));
    } else {
      assert (a + b)[1..] == a[1..] + b;
      OctetsOfJoin(a[1..], b);
      Associate(if a[0].Octet? then [a[0].value] else [], OctetsOf(a[1..]), OctetsOf(b));
    }
  }

  lemma {:induction false} OctetsOfChunk(k: nat, data: seq<byte>)
    ensures OctetsOf(Tagged(k, data)) == data
  {
    if data != [] {
      assert Tagged(k, data)[1..] == Tagged(k, data[1..]);
      OctetsOfChunk(k, data[1..]);
    }
  }

  lemma OctetsOfEvents(k: nat, c: ChunkText)
    ensures OctetsOf(ChunkEvents(k, c)) == c.data
  {
    OctetsOfChunk(k, c.data);
    var finish := [Finish(k, |c.data|)];
    assert finish[1..] == [];
    OctetsOfJoin(Tagged(k, c.data), finish);
    assert c.data + [] == c.data;
  }

  lemma {:induction false} BodyContent(source: Source, k: nat, i: nat, m: nat)
    requires i <= m
    ensures OctetsOf(BodyEvents(k, Texts(source, i, m), CLOSING)) == Content(source, i, m)
    decreases m - i
  {
    var texts := Texts(source, i, m);
    var data := LoadAt(source, i);
    if i == m {
      OctetsOfEvents(k, CLOSING);
      if data != [] {
        assert texts[1..] == [];
        OctetsOfEvents(k, texts[0]);
        OctetsOfEvents(k + 1, CLOSING);
        OctetsOfJoin(ChunkEvents(k, texts[0]), ChunkEvents(k + 1, CLOSING));
      }
      assert data + [] == data;
    } else {
      BodyContent(source, k + 1, i + 1, m);
      OctetsOfEvents(k, texts[0]);
      assert texts[1..] == Texts(source, i + 1, m);
      OctetsOfJoin(ChunkEvents(k, texts[0]), BodyEvents(k + 1, texts[1..], CLOSING));
    }
  }

  /** The content of a source whose loads behind number `n` are empty. */
  lemma {:induction false} ContentSplits(source: Source, i: nat, m: nat, n: nat)
    requires i <= m < n
    ensures Content(source, i, n) == Content(source, i, m) + Content(source, m + 1, n)
    decreases m - i
  {
    if i < m {
      ContentSplits(source, i + 1, m, n);
      Associate(LoadAt(source, i), Content(source, i + 1, m), Content(source, m + 1, n));
    } else {
      Associate(LoadAt(source, i), [], Content(source, m + 1, n));
    }
  }

  /** The decoder came to the end of a body with this content and left `rest` over. */
  ghost predicate Received(r: RunResult, content: seq<byte>, rest: seq<byte>) {
    r.Done? && r.state == INITIAL && OctetsOf(r.events) == content && r.rest == rest
  }

  /** What a decoder that expects no trailer fields makes of a body. */
  ghost predicate Decodes(r: RunResult, source: Source, m: nat, trailer: seq<byte>) {
    if Ends(source, m, trailer) then Received(r, Content(source, 0, m), LeftOver(source, m, trailer)) else r.Fail?
  }

  /**
   * A body, cut into any segments, is decoded to its content if and only if the last chunk is empty or the trailer
   * fields look like the end of the body, and is refused otherwise. Nothing is left over if and only if the last chunk
   * is not empty and there are no trailer fields.
   */
  lemma RoundTrip(source: Source, m: nat, trailer: seq<byte>, segments: seq<seq<byte>>)
    requires Fits(source) && FirstShort(source, m) && Flatten(segments) == Wire(source, m, trailer)
    ensures Decodes(RunSegments(INITIAL, segments), source, m, trailer)
    ensures Ends(source, m, trailer) && LeftOver(source, m, trailer) == [] <==> LoadAt(source, m) != [] && trailer == []
  {
    SegmentsAreInvisible(INITIAL, segments);
    if Ends(source, m, trailer) {
      WireIsBody(source, 0, m, trailer);
      TextsAreValid(source, 0, m);
      BodyRuns(0, Texts(source, 0, m), CLOSING, LeftOver(source, m, trailer));
      BodyContent(source, 0, 0, m);
    } else {
      WireFails(source, 0, 0, m, trailer);
    }
  }

  /** The content, from a source through any buffers that leave the last size token whole, and any segments. */
  method SendBody(body: ChunkBody, sizes: seq<nat>, ghost m: nat) returns (out: seq<byte>)
    requires body.Fields() == Initial(body.source, body.trailer) && Fits(body.source) && FirstShort(body.source, m)
    requires TokenWhole(body.source, m, body.trailer, sizes, |sizes|)
    requires |Wire(body.source, m, body.trailer)| <= Room(sizes, |sizes|)
    modifies body
    ensures forall segments :: Flatten(segments) == out ==>
              Decodes(RunSegments(INITIAL, segments), body.source, m, body.trailer)
  {
    out := EncodeAll(body, sizes);
    ghost var wire := Wire(body.source, m, body.trailer);
    assert wire[..|wire|] == wire;
    forall segments | Flatten(segments) == out
      ensures Decodes(RunSegments(INITIAL, segments), body.source, m, body.trailer)
    {
      RoundTrip(body.source, m, body.trailer, segments);
    }
  }

  /** Everything a source delivers arrives if and only if nothing follows the first load that does not fill its chunk. */
  lemma AllIsSentIff(source: Source, m: nat, n: nat, trailer: seq<byte>, segments: seq<seq<byte>>)
    requires Fits(source) && FirstShort(source, m) && m < n && Ends(source, m, trailer)
    requires Flatten(segments) == Wire(source, m, trailer)
    ensures var r := RunSegments(INITIAL, segments);
            r.Done? && (OctetsOf(r.events) == Content(source, 0, n) <==> Content(source, m + 1, n) == [])
  {
    RoundTrip(source, m, trailer, segments);
    ContentSplits(source, 0, m, n);
  }
}
