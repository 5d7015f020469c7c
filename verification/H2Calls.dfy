/** Frames through the HTTP/2 encoder and one buffer after the other. */
module H2Calls {
  import opened Octets
  import opened Buffers
  import opened H2Wire
  import opened H2Control
  import opened H2Encoder
  import opened H2FrameEncoder

  /** A control frame under way gets through buffers of these sizes. */
  predicate ClearFrom(s: Encoder, sizes: seq<nat>)
    requires Valid(s)
  {
    Controls(s) ==>
      Resumes(s)
      && forall j :: 0 <= j <= |sizes| ==> !Forbidden(s.currentFrame.value.payload, SentOf(s) + Room(sizes, j))
  }

  /** No CONTINUATION frame is left: every call fills its buffer as long as something is pending. */
  predicate Steady(s: Encoder) {
    HeadersUnderWay(s) ==> s.hpackQueue == [] && !s.state.EncodingContinuationFrames?
  }

  lemma StaysSteady(s: Encoder, t: Encoder, room: nat)
    requires Steady(s) && Takes(s, t, room) && Follows(s, t)
    ensures Steady(t)
  {
  }

  /** What is known about the calls so far: `out` was written, and the frame can be gone on with. */
  ghost predicate Going(s: Encoder, t: Encoder, sizes: seq<nat>, i: nat, out: seq<byte>)
    requires i <= |sizes|
  {
    && Valid(s) && Valid(t) && Pending(s) == out + Pending(t)
    && (Steady(s) ==> Steady(t) && |out| == Min(Room(sizes, i), |Pending(s)|))
    && (Controls(t) ==>
          && Controls(s) && t.currentFrame == s.currentFrame
          && Resumes(t) && SentOf(t) == SentOf(s) + |out|)
  }

  lemma Starts(s: Encoder, sizes: seq<nat>)
    requires Valid(s) && ClearFrom(s, sizes)
    ensures Going(s, s, sizes, 0, [])
  {
    assert [] + Pending(s) == Pending(s);
  }

  /** One buffer. */
  method Offer(encoder: FrameEncoder, size: nat) returns (part: seq<byte>)
    requires Valid(encoder.Fields()) && Resumes(encoder.Fields())
    modifies encoder
    ensures Advances(old(encoder.Fields()), encoder.Fields(), size, |part|) && |part| <= size
    ensures old(Pending(encoder.Fields())) == part + Pending(encoder.Fields())
  {
    var buf := new byte[size](_ => 0);
    ghost var pending, zeros := Pending(encoder.Fields()), buf[..];
    var r := encoder.Encode(buf);
    MovedPart(pending, zeros, buf[..], r.n, Pending(encoder.Fields()));
    part := buf[..][..r.n];
  }

  lemma Goes(s: Encoder, t: Encoder, sizes: seq<nat>, i: nat, out: seq<byte>, part: seq<byte>, u: Encoder)
    requires i < |sizes| && Valid(s) && ClearFrom(s, sizes) && Going(s, t, sizes, i, out)
    requires Advances(t, u, sizes[i], |part|) && |part| <= sizes[i] && Pending(t) == part + Pending(u)
    ensures Going(s, u, sizes, i + 1, out + part)
  {
    Buffers.Turn(Pending(s), out, part, Pending(u));
    if Steady(s) {
      StaysSteady(t, u, sizes[i]);
    }
    if Controls(u) {
      SentAndPending(s);
      SentAndPending(u);
      assert SentOf(u) == SentOf(s) + Room(sizes, i + 1) || Pending(u) == [];
    }
  }

  // ---------------------------------------------------------------------------
  // How much room CONTINUATION frames cost. A call may stop short in front of each of them.
  // ---------------------------------------------------------------------------

  /** The room of `k` buffers of this size. */
  function Rooms(size: nat, k: int): nat {
    if k <= 0 then 0 else size + Rooms(size, k - 1)
  }

  lemma {:induction false} MoreRooms(size: nat, k: int, l: int)
    requires k <= l
    ensures Rooms(size, k) <= Rooms(size, l)
    ensures 0 <= k < l ==> Rooms(size, k) + size <= Rooms(size, l)
    decreases l - k
  {
    if k < l {
      MoreRooms(size, k, l - 1);
    }
  }

  /**
   * Until nothing is left (`rest`), the usable room was filled or lost. Of `k` fragments, `l` are with HPACK.
   */
  ghost predicate Covers(k: nat, l: nat, rest: seq<byte>, sizes: seq<nat>, most: nat, i: nat, n: nat)
    requires i <= |sizes|
  {
    && l <= k
    && (AtMost(sizes, most) && rest != [] ==> Usable(sizes, i) <= n + Rooms(most, k - l))
  }

  lemma Covering(k: nat, t: Encoder, u: Encoder, sizes: seq<nat>, most: nat, i: nat, n: nat, m: nat)
    requires i < |sizes| && Valid(t) && Advances(t, u, sizes[i], m)
    requires Covers(k, Fragments(t.hpackQueue), Pending(t), sizes, most, i, n)
    requires Pending(u) != [] ==> Pending(t) != []
    ensures Covers(k, Fragments(u.hpackQueue), Pending(u), sizes, most, i + 1, n + m)
  {
    MoreRooms(most, k - Fragments(t.hpackQueue), k - Fragments(u.hpackQueue));
  }

  /** All is out when there is usable room for it, and as much again as can be lost. */
  lemma AllCovered(octets: nat, k: nat, l: nat, rest: seq<byte>, sizes: seq<nat>, most: nat, n: nat)
    requires Covers(k, l, rest, sizes, most, |sizes|, n) && octets == n + |rest|
    requires AtMost(sizes, most) && octets + Rooms(most, k) <= Usable(sizes, |sizes|)
    ensures rest == []
  {
    MoreRooms(most, k - l, k);
  }

  /** Calls that stop short of their buffer take a fragment from HPACK; all others write `least` octets. */
  ghost predicate Spends(k: nat, l: nat, rest: seq<byte>, sizes: seq<nat>, least: nat, i: nat, n: nat) {
    AtLeast(sizes, least) && 9 <= least && rest != [] ==> Rooms(least, i - k + l) <= n
  }

  lemma Spending(k: nat, t: Encoder, u: Encoder, sizes: seq<nat>, least: nat, i: nat, n: nat, m: nat)
    requires i < |sizes| && Valid(t) && Advances(t, u, sizes[i], m)
    requires Spends(k, Fragments(t.hpackQueue), Pending(t), sizes, least, i, n)
    requires Pending(u) != [] ==> Pending(t) != []
    ensures Spends(k, Fragments(u.hpackQueue), Pending(u), sizes, least, i + 1, n + m)
  {
    MoreRooms(least, i - k + Fragments(u.hpackQueue), i - k + Fragments(t.hpackQueue));
  }

  /** All is out when there are enough calls for it, and one more for each CONTINUATION frame. */
  lemma AllSpent(octets: nat, k: nat, l: nat, rest: seq<byte>, sizes: seq<nat>, least: nat, n: nat)
    requires Spends(k, l, rest, sizes, least, |sizes|, n) && octets == n + |rest|
    requires AtLeast(sizes, least) && 9 <= least && octets <= Rooms(least, |sizes| - k)
    ensures rest == []
  {
    MoreRooms(least, |sizes| - k, |sizes| - k + l);
  }

  /**
   * Room for `octets` in spite of `k` CONTINUATION frames: what may be lost in front of them is there besides, or
   * there is a further call for each of them.
   */
  ghost predicate Ample(octets: nat, k: nat, sizes: seq<nat>, least: nat, most: nat) {
    || (AtMost(sizes, most) && octets + Rooms(most, k) <= Usable(sizes, |sizes|))
    || (AtLeast(sizes, least) && 9 <= least && octets <= Rooms(least, |sizes| - k))
  }

  /**
   * A caller that offers one buffer after the other. The octets are those of the frame, and as many as there is room
   * for, unless CONTINUATION frames are left; then they are all out once the room is ample.
   */
  method EncodeAll(encoder: FrameEncoder, sizes: seq<nat>, ghost least: nat, ghost most: nat) returns (out: seq<byte>)
    requires Valid(encoder.Fields()) && ClearFrom(encoder.Fields(), sizes)
    modifies encoder
    ensures Valid(encoder.Fields()) && out + Pending(encoder.Fields()) == old(Pending(encoder.Fields()))
    ensures old(Steady(encoder.Fields())) ==> |out| == Min(Room(sizes, |sizes|), |old(Pending(encoder.Fields()))|)
    ensures Ample(|old(Pending(encoder.Fields()))|, Fragments(old(encoder.hpackQueue)), sizes, least, most) ==>
              out == old(Pending(encoder.Fields()))
  {
    ghost var s := encoder.Fields();
    ghost var k := Fragments(s.hpackQueue);
    out := [];
    Starts(s, sizes);
    for i := 0 to |sizes|
      invariant Going(s, encoder.Fields(), sizes, i, out)
      invariant Spends(k, Fragments(encoder.hpackQueue), Pending(encoder.Fields()), sizes, least, i, |out|)
      invariant Covers(k, Fragments(encoder.hpackQueue), Pending(encoder.Fields()), sizes, most, i, |out|)
    {
      out := EncodeNext(encoder, sizes, i, s, k, least, most, out);
    }
    if Ample(|Pending(s)|, k, sizes, least, most) {
      AllOut(|Pending(s)|, k, Fragments(encoder.hpackQueue), Pending(encoder.Fields()), sizes, least, most, |out|);
    }
  }

  lemma AllOut(octets: nat, k: nat, l: nat, rest: seq<byte>, sizes: seq<nat>, least: nat, most: nat, n: nat)
    requires Spends(k, l, rest, sizes, least, |sizes|, n) && Covers(k, l, rest, sizes, most, |sizes|, n)
    requires octets == n + |rest| && Ample(octets, k, sizes, least, most)
    ensures rest == []
  {
    if AtMost(sizes, most) && octets + Rooms(most, k) <= Usable(sizes, |sizes|) {
      AllCovered(octets, k, l, rest, sizes, most, n);
    } else {
      AllSpent(octets, k, l, rest, sizes, least, n);
    }
  }

  /** Buffer number `i`, for a frame that was `s` before the first one. */
  method EncodeNext(
    encoder: FrameEncoder, sizes: seq<nat>, i: nat, ghost s: Encoder, ghost k: nat, ghost least: nat, ghost most: nat,
    out: seq<byte>)
    returns (all: seq<byte>)
    requires i < |sizes| && Valid(s) && ClearFrom(s, sizes) && Going(s, encoder.Fields(), sizes, i, out)
    requires Spends(k, Fragments(encoder.hpackQueue), Pending(encoder.Fields()), sizes, least, i, |out|)
    requires Covers(k, Fragments(encoder.hpackQueue), Pending(encoder.Fields()), sizes, most, i, |out|)
    modifies encoder
    ensures Going(s, encoder.Fields(), sizes, i + 1, all)
    ensures Spends(k, Fragments(encoder.hpackQueue), Pending(encoder.Fields()), sizes, least, i + 1, |all|)
    ensures Covers(k, Fragments(encoder.hpackQueue), Pending(encoder.Fields()), sizes, most, i + 1, |all|)
  {
    ghost var t := encoder.Fields();
    var part := Offer(encoder, sizes[i]);
    Goes(s, t, sizes, i, out, part, encoder.Fields());
    Spending(k, t, encoder.Fields(), sizes, least, i, |out|, |part|);
    Covering(k, t, encoder.Fields(), sizes, most, i, |out|, |part|);
    all := out + part;
  }

  /** What the calls wrote. */
  function Written(t: Option<Trace>): Option<seq<byte>> {
    if t.None? then None else Some(t.value.out)
  }

  /** The control frame that was set is under way, or out. */
  predicate UnderWay(s: Encoder, frame: OutFrame) {
    && Valid(s) && ControlReady(s) && s.currentFrame == Some(frame) && (Controls(s) || s.state.DataComplete?)
    && Running(frame, ProgressOf(s))
  }

  /** One call, with a buffer that holds `room`. */
  method WriteNext(encoder: FrameEncoder, ghost frame: OutFrame, room: seq<byte>, out: seq<byte>)
    returns (next: Option<seq<byte>>)
    requires UnderWay(encoder.Fields(), frame)
    modifies encoder
    ensures NextCall(frame, Trace(out, old(ProgressOf(encoder.Fields()))), room)
            == if next.None? then None else Some(Trace(next.value, ProgressOf(encoder.Fields())))
    ensures next.Some? ==> UnderWay(encoder.Fields(), frame)
  {
    var buf := new byte[|room|](k requires 0 <= k < |room| => room[k]);
    assert buf[..] == room;
    var r := encoder.Encode(buf);
    if r.Panic? {
      return None;
    }
    return Some(out + buf[..][..r.n]);
  }

  /**
   * A control frame through the buffers `rooms`, given with what they hold before: exactly the octets that `Calls`
   * says, right or wrong, or a panic.
   */
  method WriteControl(encoder: FrameEncoder, frame: OutFrame, rooms: seq<seq<byte>>) returns (out: Option<seq<byte>>)
    requires Common(encoder.Fields()) && IsControl(frame.payload)
    modifies encoder
    ensures out == Written(Calls(frame, rooms, |rooms|))
  {
    var accepted := encoder.SetFrame(frame);
    var written := [];
    for i := 0 to |rooms|
      invariant UnderWay(encoder.Fields(), frame)
      invariant Calls(frame, rooms, i) == Some(Trace(written, ProgressOf(encoder.Fields())))
    {
      var next := WriteNext(encoder, frame, rooms[i], written);
      if next.None? {
        PanicStays(frame, rooms, i + 1, |rooms|);
        return None;
      }
      written := next.value;
    }
    return Some(written);
  }
}
