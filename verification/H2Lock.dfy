/**
 * The HEADERS/CONTINUATION lock over whole runs of the HTTP/2 frame decoder
 * (sections 4.3 and 6.10 of RFC 9113).
 */
module H2Lock {
  import opened Octets
  import opened H2Frame
  import opened H2Decoder
  import opened H2Segments
  import opened H2Boundary

  /** HEADERS or PUSH_PROMISE without END_HEADERS: the field block stays open. */
  predicate Opens(h: FrameHeader) {
    (h.frameType == HEADERS || h.frameType == PUSH_PROMISE) && !IsEndHeaders(h.flags)
  }

  /** CONTINUATION with END_HEADERS. */
  predicate Closes(h: FrameHeader) {
    h.frameType == CONTINUATION && IsEndHeaders(h.flags)
  }

  /** A closed block leaves nothing behind, an open one belongs to a stream. */
  predicate LockInv(c: Continuations) {
    if c.isEndHeaders then c == NO_CONTINUATION else c.streamId != 0
  }

  /** What is remembered after `item`. */
  function Next<P>(c: Continuations, item: Received<P>): Continuations {
    var h := item.header;
    if Closes(h) then NO_CONTINUATION
    else if Opens(h) && h.frameType == HEADERS then
      Continuations(h.flags, IsEndStream(h.flags), h.streamId, false, c.promisedStreamId)
    else if Opens(h) then
      Continuations(h.flags, c.isEndStream, h.streamId, false, PromisedId(h, item.payload))
    else c
  }

  /** `item` respects what is remembered in `c`. */
  ghost predicate Allowed<P>(c: Continuations, item: Received<P>) {
    var h := item.header;
    && !LockViolated(c, h)
    && (Opens(h) ==> h.streamId != 0 && item.kind.Partial?)
    && (Opens(h) && h.frameType == PUSH_PROMISE ==> PromisedId(h, item.payload) != 0)
    && (h.frameType == CONTINUATION && !IsEndHeaders(h.flags) ==> item.kind.Partial?)
    && (Closes(h) ==>
          && item.kind.Complete? && item.kind.frame.id == c.streamId && item.kind.frame.flags == c.flags
          && if c.promisedStreamId == 0 then item.kind.frame.payload.Headers?
             else item.kind.frame.payload.PushPromise?
                  && item.kind.frame.payload.promisedStreamId == c.promisedStreamId)
  }

  /** The frames take the lock from `c` to `d`, each of them allowed. */
  ghost predicate Follows<P>(c: Continuations, items: seq<Received<P>>, d: Continuations)
    decreases |items|
  {
    if items == [] then c == d
    else Allowed(c, items[0]) && Follows(Next(c, items[0]), items[1..], d)
  }

  lemma {:induction false} FollowsConcat<P>(
    c: Continuations, xs: seq<Received<P>>, d: Continuations, ys: seq<Received<P>>, e: Continuations)
    requires Follows(c, xs, d) && Follows(d, ys, e)
    ensures Follows(c, xs + ys, e)
    decreases |xs|
  {
    if xs == [] {
      assert xs + ys == ys;
    } else {
      FollowsConcat(Next(c, xs[0]), xs[1..], d, ys, e);
      assert (xs + ys)[1..] == xs[1..] + ys;
    }
  }

  /** One frame: what is reported respects the lock, and what is remembered is `Next`. */
  lemma FrameFollows<H, P>(hp: Hpack<H, P>, h: FrameHeader, c: Continuations, hpack: H, n: nat, p: seq<byte>)
    requires |p| == h.payloadLength && !LockViolated(c, h)
    requires DecodeFrame(hp, h, c, hpack, n, p).Ok?
    ensures var d := DecodeFrame(hp, h, c, hpack, n, p).value;
            Allowed(c, Received(h, p, d.kind)) && d.continuations == Next(c, Received(h, p, d.kind))
  {
  }

  lemma PayloadFollows<H, P>(hp: Hpack<H, P>, s: DecoderState<H>, buf: seq<byte>)
    requires Inv(s) && s.stage.PayloadStage? && PayloadStep(hp, s, buf).Ok? && PayloadStep(hp, s, buf).value.PayloadDone?
    ensures var step := PayloadStep(hp, s, buf).value;
            Allowed(s.continuations, step.item) && step.state.continuations == Next(s.continuations, step.item)
  {
    var end := s.header.payloadLength - s.offset;
    FrameFollows(hp, s.header, s.continuations, s.hpack, end, s.buffer + buf[..end]);
  }

  lemma FollowsOne<P>(c: Continuations, item: Received<P>, items: seq<Received<P>>, d: Continuations)
    requires Allowed(c, item) && Follows(Next(c, item), items, d)
    ensures Follows(c, [item] + items, d)
  {
    assert ([item] + items)[1..] == items;
  }

  lemma {:induction false} RunFollows<H, P>(hp: Hpack<H, P>, s: DecoderState<H>, buf: seq<byte>)
    requires Inv(s) && Run(hp, s, buf).Ok?
    ensures Follows(s.continuations, Run(hp, s, buf).value.0, Run(hp, s, buf).value.1.continuations)
    decreases Measure(s, buf)
  {
    if s.stage.HeaderStage? {
      var step := HeaderStep(s, buf).value;
      if step.HeaderDone? {
        RunFollows(hp, step.state, step.rest);
      }
    } else {
      var step := PayloadStep(hp, s, buf).value;
      if step.PayloadDone? {
        PayloadFollows(hp, s, buf);
        RunFollows(hp, step.state, step.rest);
        var rest := Run(hp, step.state, step.rest).value;
        FollowsOne(s.continuations, step.item, rest.0, rest.1.continuations);
      }
    }
  }

  /** However the input arrives, the lock is followed from the first frame to the last. */
  lemma {:induction false} SegmentsFollow<H, P>(hp: Hpack<H, P>, s: DecoderState<H>, segments: seq<seq<byte>>)
    requires Inv(s) && RunSegments(hp, s, segments).Ok?
    ensures var (items, t) := RunSegments(hp, s, segments).value;
            Follows(s.continuations, items, t.continuations)
    decreases |segments|
  {
    if segments != [] {
      var (items, t) := Run(hp, s, segments[0]).value;
      var (later, u) := RunSegments(hp, t, segments[1..]).value;
      RunFollows(hp, s, segments[0]);
      SegmentsFollow(hp, t, segments[1..]);
      FollowsConcat(s.continuations, items, t.continuations, later, u.continuations);
    }
  }

  // ---------------------------------------------------------------------------
  // What following the lock means, in terms of the frames alone.
  // ---------------------------------------------------------------------------

  /** The block opened by `items[i]` has not been closed before `items[j]`. */
  ghost predicate OpenSpan<P>(items: seq<Received<P>>, i: int, j: int) {
    0 <= i < j <= |items| && Opens(items[i].header) && forall k :: i < k < j ==> !Closes(items[k].header)
  }

  /** `item` continues the block that `opener` began, and a completed frame carries the opener's identity. */
  ghost predicate ContinuesBlock<P>(opener: Received<P>, item: Received<P>) {
    && item.header.frameType == CONTINUATION
    && item.header.streamId == opener.header.streamId
    && (!IsEndHeaders(item.header.flags) ==> item.kind.Partial?)
    && (IsEndHeaders(item.header.flags) ==>
          && item.kind.Complete?
          && item.kind.frame.id == opener.header.streamId
          && item.kind.frame.flags == opener.header.flags
          && if opener.header.frameType == HEADERS then item.kind.frame.payload.Headers?
             else item.kind.frame.payload.PushPromise?
                  && item.kind.frame.payload.promisedStreamId == PromisedId(opener.header, opener.payload))
  }

  /** `c` is what `opener` left behind. */
  ghost predicate LeftBy<P>(c: Continuations, opener: Received<P>) {
    && !c.isEndHeaders
    && c.streamId == opener.header.streamId != 0
    && c.flags == opener.header.flags
    && if opener.header.frameType == HEADERS then c.promisedStreamId == 0
       else c.promisedStreamId == PromisedId(opener.header, opener.payload) != 0
  }

  /** Cuts `Follows` in two at position `j`. */
  lemma {:induction false} FollowsAt<P>(c: Continuations, items: seq<Received<P>>, d: Continuations, j: nat)
    returns (m: Continuations)
    requires Follows(c, items, d) && j <= |items|
    ensures Follows(c, items[..j], m) && Follows(m, items[j..], d)
    decreases |items|
  {
    if j == 0 {
      m := c;
    } else {
      m := FollowsAt(Next(c, items[0]), items[1..], d, j - 1);
      assert items[..j][1..] == items[1..][..j - 1];
      assert items[1..][j - 1..] == items[j..];
    }
  }

  lemma {:induction false} LockInvKept<P>(c: Continuations, items: seq<Received<P>>, d: Continuations)
    requires LockInv(c) && Follows(c, items, d)
    ensures LockInv(d)
    decreases |items|
  {
    if items != [] {
      LockInvKept(Next(c, items[0]), items[1..], d);
    }
  }

  /** What an opener leaves behind stays until the block is closed. */
  lemma {:induction false} BlockStaysOpen<P>(
    opener: Received<P>, c: Continuations, items: seq<Received<P>>, d: Continuations)
    requires LeftBy(c, opener) && Follows(c, items, d)
    requires forall k :: 0 <= k < |items| ==> !Closes(items[k].header)
    ensures d == c
    decreases |items|
  {
    if items != [] {
      assert Next(c, items[0]) == c;
      BlockStaysOpen(opener, c, items[1..], d);
    }
  }

  /** While a block is open only its own CONTINUATION frames are accepted, and the opener's identity survives. */
  lemma OpenBlockIsLocked<P>(c: Continuations, items: seq<Received<P>>, d: Continuations, i: nat, j: nat)
    requires LockInv(c) && Follows(c, items, d)
    requires j < |items| && OpenSpan(items, i, j)
    ensures ContinuesBlock(items[i], items[j])
  {
    var before := FollowsAt(c, items, d, i);
    LockInvKept(c, items[..i], before);
    assert items[i..][0] == items[i] && items[i..][1..] == items[i + 1..];
    var left := Next(before, items[i]);
    assert LeftBy(left, items[i]);
    var n := j - (i + 1);
    var at := FollowsAt(left, items[i + 1..], d, n);
    assert items[i + 1..][..n] == items[i + 1..j] && items[i + 1..][n..] == items[j..];
    BlockStaysOpen(items[i], left, items[i + 1..j], at);
    assert items[j..][0] == items[j];
  }

  /** If something is remembered, some opener left it. */
  lemma {:induction false} OpenMeansOpened<P>(c: Continuations, items: seq<Received<P>>, d: Continuations)
    requires c == NO_CONTINUATION && Follows(c, items, d) && !d.isEndHeaders
    ensures exists i :: OpenSpan(items, i, |items|)
    decreases |items|
  {
    assert items != [];
    var n := |items| - 1;
    var m := FollowsAt(c, items, d, n);
    assert items[n..] == [items[n]];
    assert Follows(m, [items[n]], d) && [items[n]][1..] == [];
    assert d == Next(m, items[n]);
    if Opens(items[n].header) {
      assert OpenSpan(items, n, |items|);
    } else {
      OpenMeansOpened(c, items[..n], m);
      var i :| OpenSpan(items[..n], i, n);
      assert OpenSpan(items, i, |items|);
    }
  }

  /** A block is open at the end exactly when an opener was not closed. */
  lemma OpenIffOpened<P>(items: seq<Received<P>>, d: Continuations)
    requires Follows(NO_CONTINUATION, items, d)
    ensures !d.isEndHeaders <==> exists i :: OpenSpan(items, i, |items|)
  {
    if !d.isEndHeaders {
      OpenMeansOpened(NO_CONTINUATION, items, d);
    }
    if i :| OpenSpan(items, i, |items|) {
      var m := FollowsAt(NO_CONTINUATION, items, d, i);
      LockInvKept(NO_CONTINUATION, items[..i], m);
      assert items[i..][0] == items[i] && items[i..][1..] == items[i + 1..];
      BlockStaysOpen(items[i], Next(m, items[i]), items[i + 1..], d);
    }
  }

  /** A CONTINUATION of a block nobody opened. */
  ghost predicate Stray<P>(items: seq<Received<P>>, j: int) {
    0 <= j < |items| && items[j].header.frameType == CONTINUATION && forall i :: !OpenSpan(items, i, j)
  }

  /** A frame on stream 0 if the fragment ends a block, and nothing otherwise. */
  ghost predicate ReportsStray<P>(item: Received<P>) {
    if IsEndHeaders(item.header.flags) then
      item.kind.Complete? && item.kind.frame.id == 0 && item.kind.frame.flags == 0 && item.kind.frame.payload.Headers?
    else item.kind.Partial?
  }

  /** Section 6.10 of RFC 9113 asks for an error here; the decoder accepts the frame, and no block is open behind it. */
  lemma StrayContinuation<P>(items: seq<Received<P>>, d: Continuations, j: int)
    requires Follows(NO_CONTINUATION, items, d) && Stray(items, j)
    ensures ReportsStray(items[j]) && Follows(NO_CONTINUATION, items[j + 1..], d)
  {
    var m := FollowsAt(NO_CONTINUATION, items, d, j);
    LockInvKept(NO_CONTINUATION, items[..j], m);
    OpenIffOpened(items[..j], m);
    if i :| OpenSpan(items[..j], i, |items[..j]|) {
      assert OpenSpan(items, i, j);
    }
    assert items[j..][0] == items[j] && items[j..][1..] == items[j + 1..];
  }

  /** What HPACK makes of a fragment, and of the block if the fragment ends it. */
  ghost predicate HpackAccepts<H, P>(hp: Hpack<H, P>, hpack: H, p: seq<byte>, ends: bool) {
    hp.decode(hpack, p).Ok? && (ends ==> hp.finish(hp.decode(hpack, p).value).Ok?)
  }

  /**
   * A CONTINUATION frame that nobody asked for is accepted if and only if HPACK accepts its fragment, on every
   * stream. Then HPACK has taken it in, and nothing else has changed.
   */
  lemma StrayAcceptedIff<H, P>(hp: Hpack<H, P>, s: DecoderState<H>, flags: byte, id: nat, p: seq<byte>)
    requires AtBoundary(s) && s.continuations == NO_CONTINUATION && 0 < id < 0x8000_0000 && |p| <= s.maxFrameSize
    ensures var r := Run(hp, s, FrameBytes(CONTINUATION, flags, id, p));
            && (r.Ok? <==> HpackAccepts(hp, s.hpack, p, IsEndHeaders(flags)))
            && (r.Ok? ==>
                  && |r.value.0| == 1 && ReportsStray(r.value.0[0])
                  && r.value.0[0].header == FrameHeader(id, flags, CONTINUATION, |p|) && r.value.0[0].payload == p
                  && var fed := hp.decode(s.hpack, p).value;
                     r.value.1 == s.(hpack := if IsEndHeaders(flags) then hp.finish(fed).value.0 else fed))
  {
    var h := FrameHeader(id, flags, CONTINUATION, |p|);
    FrameDecodes(hp, s, CONTINUATION, flags, id, p, []);
    assert p + [] == p;
    var decoded := DecodeFrame(hp, h, s.continuations, s.hpack, |p|, p);
    if decoded.Ok? {
      NothingToDecode(hp, s.(hpack := decoded.value.hpack));
    }
  }

  /** The lock over whole runs, from a fresh decoder and however its input is cut. */
  lemma ContinuationLock<H, P>(hp: Hpack<H, P>, hpack: H, segments: seq<seq<byte>>)
    requires RunSegments(hp, Initial(hpack), segments).Ok?
    ensures var (items, t) := RunSegments(hp, Initial(hpack), segments).value;
            // while a block is open only its continuation is accepted, and a completed block keeps its opener's identity
            && (forall i, j :: j < |items| && OpenSpan(items, i, j) ==> ContinuesBlock(items[i], items[j]))
            // a closed block leaves nothing behind
            && LockInv(t.continuations)
            // a block is open at the end exactly when its opener was not followed by an end
            && (!t.continuations.isEndHeaders <==> exists i :: OpenSpan(items, i, |items|))
            // a CONTINUATION outside every block is reported on stream 0 if it ends one, and leaves no block open
            && (forall j :: Stray(items, j) ==>
                  ReportsStray(items[j]) && Follows(NO_CONTINUATION, items[j + 1..], t.continuations))
  {
    var (items, t) := RunSegments(hp, Initial(hpack), segments).value;
    var d := t.continuations;
    SegmentsFollow(hp, Initial(hpack), segments);
    forall i, j | j < |items| && OpenSpan(items, i, j) ensures ContinuesBlock(items[i], items[j]) {
      OpenBlockIsLocked(NO_CONTINUATION, items, d, i, j);
    }
    LockInvKept(NO_CONTINUATION, items, d);
    OpenIffOpened(items, d);
    forall j | Stray(items, j)
      ensures ReportsStray(items[j]) && Follows(NO_CONTINUATION, items[j + 1..], d)
    {
      StrayContinuation(items, d, j);
    }
  }
}
