/**
 * One WINDOW_UPDATE frame of HTTP/2 through any buffers (ylong_http/src/h2/encoder.rs). A payload that is picked up
 * starts over, and the frame counts as sent when four octets were written: a cut does no harm exactly when the
 * octets repeat themselves.
 */
module H2WindowUpdate {
  import opened Octets
  import opened Buffers
  import opened H2Frame
  import opened H2Wire
  import opened H2Control

  /** Octets `c` to `d` of a payload are there, and are its first ones again. */
  predicate Repeats(b: seq<byte>, c: nat, d: nat)
    requires c <= d
  {
    d <= |b| && b[c..d] == b[0..d - c]
  }

  /** What a buffer that starts behind octet `from` of the frame, within the payload, has to hold. */
  predicate Harmless(increment: nat, from: nat, size: nat) {
    10 <= from <= 12 ==> Repeats(Be(increment, 4), from - 9, from - 9 + size)
  }

  /** None of the first `k` buffers holds anything else. */
  predicate Survives(increment: nat, sizes: seq<nat>, k: nat)
    requires k <= |sizes|
  {
    k == 0 || (Survives(increment, sizes, k - 1) && Harmless(increment, Room(sizes, k - 1), sizes[k - 1]))
  }

  /** The octets are wrong, or too many. */
  predicate Wrong(frame: OutFrame, t: Option<Trace>)
    requires frame.payload.WindowUpdate?
  {
    t.Some? && (Differs(ControlWire(frame), t.value.out) || |t.value.out| > |ControlWire(frame)|)
  }

  lemma NeverPanics(frame: OutFrame, progress: Progress, buf: seq<byte>)
    requires frame.payload.WindowUpdate? && Running(frame, progress)
    ensures CallOn(frame, progress, buf).Some?
  {
  }

  lemma WrongForEver(frame: OutFrame, t: Trace, buf: seq<byte>)
    requires frame.payload.WindowUpdate? && Running(frame, t.progress) && Wrong(frame, Some(t))
    ensures Wrong(frame, NextCall(frame, t, buf))
  {
    NeverPanics(frame, t.progress, buf);
    var call := CallOn(frame, t.progress, buf).value;
    if Differs(ControlWire(frame), t.out) {
      DiffersForEver(ControlWire(frame), t.out, call.buf[..call.n]);
    }
  }

  /** A payload of which `e` octets were sent is behind octet `9 + e`. */
  lemma WithinPayload(frame: OutFrame, t: Trace, room: nat) returns (e: nat)
    requires frame.payload.WindowUpdate? && OnTrack(frame, Some(t), room) && 10 <= room <= 12
    ensures 1 <= e <= 3 && room == 9 + e == |t.out| && t.progress == InPayload(e)
    ensures |ControlWire(frame)| == 13 && t.out == ControlWire(frame)[..9 + e]
  {
    e := room - 9;
  }

  /** What is written behind it: the payload from its first octet on. */
  lemma StartsOver(frame: OutFrame, t: Trace, e: nat, buf: seq<byte>)
    requires frame.payload.WindowUpdate? && 1 <= e <= 3 && t.progress == InPayload(e)
    ensures var m := Min(|buf|, 4);
            NextCall(frame, t, buf)
            == Some(Trace(t.out + Be(frame.payload.increment, 4)[0..m],
                          if e + m == 4 then Sent else InPayload(e + m)))
  {
    var b, m := Be(frame.payload.increment, 4), Min(|buf|, 4);
    var call := PayloadOn(frame, InPayload(e), buf, 0);
    if buf == [] {
      assert call.buf[..0] == [] && b[0..0] == [];
    } else {
      PayloadOnIs(frame, e, buf, 0, 0, m);
      Front(call.buf, buf, b[0..m]);
    }
  }

  lemma WireFrom(frame: OutFrame, c: nat, d: nat)
    requires frame.payload.WindowUpdate? && c <= d <= 4
    ensures |ControlWire(frame)| == 13
    ensures ControlWire(frame)[..9 + c] + Be(frame.payload.increment, 4)[c..d] == ControlWire(frame)[..9 + d]
  {
    var h, b := ControlHeader(frame), Be(frame.payload.increment, 4);
    assert (h + b)[..9 + c] == h + b[..c] && (h + b)[..9 + d] == h + b[..d];
    assert b[..c] + b[c..d] == b[..d];
    Associate(h, b[..c], b[c..d]);
  }

  /** The octets repeat themselves: nobody notices. */
  lemma RepeatIsOnTrack(frame: OutFrame, t: Trace, room: nat, buf: seq<byte>)
    requires frame.payload.WindowUpdate? && OnTrack(frame, Some(t), room) && 10 <= room <= 12
    requires Repeats(Be(frame.payload.increment, 4), room - 9, room - 9 + |buf|)
    ensures OnTrack(frame, NextCall(frame, t, buf), room + |buf|)
  {
    var e := WithinPayload(frame, t, room);
    StartsOver(frame, t, e, buf);
    WireFrom(frame, e, e + |buf|);
  }

  /** An octet that is not the one due. */
  lemma FirstDifference(b: seq<byte>, c: nat, d: nat) returns (i: nat)
    requires c <= d <= |b| && b[c..d] != b[0..d - c]
    ensures i < d - c && b[c + i] != b[i]
  {
    i :| 0 <= i < d - c && b[c..d][i] != b[0..d - c][i];
  }

  lemma NoRepeatIsWrong(frame: OutFrame, t: Trace, room: nat, buf: seq<byte>)
    requires frame.payload.WindowUpdate? && OnTrack(frame, Some(t), room) && 10 <= room <= 12
    requires !Repeats(Be(frame.payload.increment, 4), room - 9, room - 9 + |buf|)
    ensures Wrong(frame, NextCall(frame, t, buf))
  {
    var e := WithinPayload(frame, t, room);
    StartsOver(frame, t, e, buf);
    if e + |buf| <= 4 {
      var b := Be(frame.payload.increment, 4);
      var i := FirstDifference(b, e, e + |buf|);
      assert ControlWire(frame)[9 + e + i] == b[e + i];
      DiffersAt(ControlWire(frame), t.out, b[0..|buf|], i);
    }
  }

  /** One more buffer. */
  lemma NextBuffer(frame: OutFrame, t: Trace, room: nat, buf: seq<byte>)
    requires frame.payload.WindowUpdate? && OnTrack(frame, Some(t), room)
    ensures if Harmless(frame.payload.increment, room, |buf|) then OnTrack(frame, NextCall(frame, t, buf), room + |buf|)
            else Wrong(frame, NextCall(frame, t, buf))
  {
    if 10 <= room <= 12 {
      if Harmless(frame.payload.increment, room, |buf|) {
        RepeatIsOnTrack(frame, t, room, buf);
      } else {
        NoRepeatIsWrong(frame, t, room, buf);
      }
    } else {
      NextOnTrack(frame, t, buf, room);
    }
  }

  /** What became of a frame so far. */
  datatype Fate = Right | Spoiled | Neither

  function FateOf(frame: OutFrame, t: Option<Trace>, room: nat): Fate
    requires frame.payload.WindowUpdate?
  {
    if OnTrack(frame, t, room) then Right
    else if Wrong(frame, t) && Running(frame, t.value.progress) then Spoiled
    else Neither
  }

  /** Right as long as no buffer did harm, and spoiled ever after. */
  function Expected(survives: bool): Fate {
    if survives then Right else Spoiled
  }

  lemma TrackIsNotWrong(frame: OutFrame, t: Option<Trace>, room: nat)
    requires frame.payload.WindowUpdate? && OnTrack(frame, t, room)
    ensures !Wrong(frame, t)
  {
  }

  lemma FateNext(frame: OutFrame, t: Trace, room: nat, survives: bool, buf: seq<byte>)
    requires frame.payload.WindowUpdate? && Running(frame, t.progress)
    requires FateOf(frame, Some(t), room) == Expected(survives)
    ensures FateOf(frame, NextCall(frame, t, buf), room + |buf|)
            == Expected(survives && Harmless(frame.payload.increment, room, |buf|))
  {
    var next := NextCall(frame, t, buf);
    if survives {
      NextBuffer(frame, t, room, buf);
    } else {
      WrongForEver(frame, t, buf);
    }
    if OnTrack(frame, next, room + |buf|) {
      TrackIsNotWrong(frame, next, room + |buf|);
    }
  }

  /** What is expected came true behind the first `k` buffers. */
  predicate CameTrue(frame: OutFrame, rooms: seq<seq<byte>>, sizes: seq<nat>, k: nat)
    requires frame.payload.WindowUpdate? && k <= |sizes| == |rooms|
  {
    && Calls(frame, rooms, k).Some?
    && FateOf(frame, Calls(frame, rooms, k), Room(sizes, k)) == Expected(Survives(frame.payload.increment, sizes, k))
  }

  lemma TrueNext(frame: OutFrame, rooms: seq<seq<byte>>, sizes: seq<nat>, k: nat, t: Trace)
    requires frame.payload.WindowUpdate? && Sized(rooms, sizes) && k < |sizes|
    requires Calls(frame, rooms, k) == Some(t)
    requires FateOf(frame, Some(t), Room(sizes, k)) == Expected(Survives(frame.payload.increment, sizes, k))
    ensures CameTrue(frame, rooms, sizes, k + 1)
  {
    NeverPanics(frame, t.progress, rooms[k]);
    FateNext(frame, t, Room(sizes, k), Survives(frame.payload.increment, sizes, k), rooms[k]);
    CallsNext(frame, rooms, k);
  }

  lemma {:induction false} SurvivesOrSpoiled(frame: OutFrame, rooms: seq<seq<byte>>, sizes: seq<nat>, k: nat)
    requires frame.payload.WindowUpdate? && Sized(rooms, sizes) && k <= |sizes|
    ensures CameTrue(frame, rooms, sizes, k)
  {
    if k == 0 {
      NewIsOnTrack(frame);
    } else {
      SurvivesOrSpoiled(frame, rooms, sizes, k - 1);
      TrueNext(frame, rooms, sizes, k - 1, Calls(frame, rooms, k - 1).value);
    }
  }

  /**
   * One WINDOW_UPDATE frame gets whole into buffers of these sizes if and only if every buffer that starts behind
   * octets 10 to 12 ends behind octet 13 at the latest, and what is due in it are the first octets of the increment.
   */
  lemma WindowUpdateSurvivesIff(frame: OutFrame, rooms: seq<seq<byte>>, sizes: seq<nat>)
    requires frame.payload.WindowUpdate? && Sized(rooms, sizes) && 13 <= Room(sizes, |sizes|)
    ensures Delivered(frame, rooms) <==> Survives(frame.payload.increment, sizes, |sizes|)
  {
    SurvivesOrSpoiled(frame, rooms, sizes, |sizes|);
    assert |ControlWire(frame)| == 13;
  }

  /** An increment of two equal halves survives a cut between them. */
  lemma HalvesSurvive(frame: OutFrame, rooms: seq<seq<byte>>)
    requires frame.payload == WindowUpdate(0x0102_0102) && Sized(rooms, [11, 2])
    ensures Delivered(frame, rooms)
  {
    var sizes: seq<nat> := [11, 2];
    HalvesRepeat(0x0102_0102);
    assert Room(sizes, 0) == 0 && Room(sizes, 1) == 11 && Room(sizes, 2) == 13;
    WindowUpdateSurvivesIff(frame, rooms, sizes);
  }

  lemma HalvesRepeat(increment: nat)
    requires increment == 0x0102_0102
    ensures Repeats(Be(increment, 4), 2, 4)
  {
    assert increment / 256 == 0x1_0201 && 0x1_0201 / 256 == 0x102 && 0x102 / 256 == 1;
    assert Digit(1, 0) == 1 && Digit(0x102, 1) == 1 && Digit(0x1_0201, 2) == 1 && Digit(increment, 3) == 1;
    assert Digit(0x102, 0) == 2 && Digit(0x1_0201, 1) == 2 && Digit(increment, 2) == 2;
    assert Digit(0x1_0201, 0) == 1 && Digit(increment, 1) == 1 && Digit(increment, 0) == 2;
    assert Be(increment, 4) == [1, 2, 1, 2];
  }
}
