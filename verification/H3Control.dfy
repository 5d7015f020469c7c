/** Which frames an HTTP/3 stream can deliver (section 7.2 of RFC 9114), over whole runs of the decoder. */
module H3Control {
  import opened Octets
  import opened H3Frame
  import opened H3Stream

  /** How many SETTINGS frames are among the events. */
  function SettingsCount(events: seq<Event>): nat {
    if events == [] then 0
    else (if events[0].Received? && events[0].frame.SettingsFrame? then 1 else 0) + SettingsCount(events[1..])
  }

  lemma {:induction false} SettingsCountJoin(a: seq<Event>, b: seq<Event>)
    ensures SettingsCount(a + b) == SettingsCount(a) + SettingsCount(b)
  {
    if a == [] {
      assert a + b == b;
    } else {
      assert (a + b)[1..] == a[1..] + b;
      SettingsCountJoin(a[1..], b);
    }
  }

  lemma {:induction false} DataHasNoSettings(data: seq<byte>)
    ensures SettingsCount(DataEvents(data)) == 0 && SettingsCount(InstructionEvents(data)) == 0
  {
    if data != [] {
      assert DataEvents(data)[1..] == DataEvents(data[1..]);
      assert InstructionEvents(data)[1..] == InstructionEvents(data[1..]);
      DataHasNoSettings(data[1..]);
    }
  }

  /** What every stream keeps to. */
  predicate Disciplined(s: Stream) {
    && (SettingsUnderWay(s) ==> s.ty.Control? && s.streamSet)
    && (s.streamSet ==> s.ty.Control?)
    && (s.phase.DataPhase? ==> s.ty.Request? || s.ty.Push?)
    && (s.phase.PayloadLenPhase? && FrameType(s) == DATA ==> s.ty.Request? || s.ty.Push?)
    && (s.phase.StreamTypePhase? <==> s.ty.Init?)
  }

  /** How many SETTINGS frames the stream may still report. */
  function Allowance(s: Stream): nat {
    if SettingsUnderWay(s) then 1
    else if (s.ty.Control? || s.ty.Init?) && !s.streamSet then 1
    else 0
  }

  lemma NewIsDisciplined(id: nat)
    ensures Disciplined(NewStream(id)) && Allowance(NewStream(id)) <= 1
    ensures IsBidirectional(id) ==> Allowance(NewStream(id)) == 0
  {
  }

  /** The stream behind a step, if there is one. */
  function NextStream(r: StepResult, s: Stream): Stream {
    if r.Go? then r.stream else if r.result.Waiting? then r.result.stream else s
  }

  function StepEvents(r: StepResult): seq<Event> {
    if r.Go? then r.events else if r.result.Waiting? then r.result.events else []
  }

  lemma StepIsDisciplined(s: Stream, u: seq<byte>)
    requires Disciplined(s)
    ensures var r := Step(s, u); Disciplined(NextStream(r, s))
  {
  }

  lemma OneEvent(e: Event)
    ensures SettingsCount([e]) == if e.Received? && e.frame.SettingsFrame? then 1 else 0
  {
    assert [e][1..] == [];
  }

  lemma StepReportsSettings(s: Stream, u: seq<byte>)
    ensures SettingsCount(StepEvents(Step(s, u))) <= if s.phase.SettingsPhase? && Step(s, u).Go? then 1 else 0
  {
    DataHasNoSettings(u);
    if s.phase.DataPhase? && Length(s) <= |u| {
      DataHasNoSettings(u[..Length(s)]);
    }
    if s.phase.SettingsPhase? || s.phase.VariablePhase? {
      var events := StepEvents(Step(s, u));
      if events != [] {
        OneEvent(events[0]);
      }
    }
  }

  lemma StepSpendsAllowance(s: Stream, u: seq<byte>)
    requires Disciplined(s)
    ensures var r := Step(s, u);
            (if s.phase.SettingsPhase? && r.Go? then 1 else 0) + Allowance(NextStream(r, s)) <= Allowance(s)
  {
  }

  /** A step uses up no more than the stream is allowed. */
  lemma StepSpends(s: Stream, u: seq<byte>)
    requires Disciplined(s)
    ensures var r := Step(s, u); SettingsCount(StepEvents(r)) + Allowance(NextStream(r, s)) <= Allowance(s)
  {
    StepReportsSettings(s, u);
    StepSpendsAllowance(s, u);
  }

  /** A run uses up no more than the stream is allowed. */
  lemma {:induction false} RunSpends(s: Stream, u: seq<byte>)
    requires Disciplined(s)
    ensures var r := Run(s, u);
            r.Waiting? ==> Disciplined(r.stream) && SettingsCount(r.events) + Allowance(r.stream) <= Allowance(s)
    decreases |u|, Rank(s)
  {
    StepDecreases(s, u);
    StepIsDisciplined(s, u);
    StepSpends(s, u);
    var step := Step(s, u);
    if step.Go? {
      RunSpends(step.stream, step.rest);
      var r := Run(step.stream, step.rest);
      if r.Waiting? {
        SettingsCountJoin(step.events, r.events);
      }
    }
  }

  /** However its octets are cut, a stream reports no more SETTINGS than it is allowed. */
  lemma {:induction false} SegmentsSpend(s: Stream, unread: seq<byte>, segments: seq<seq<byte>>)
    requires Disciplined(s)
    ensures var r := RunSegments(s, unread, segments);
            r.Waiting? ==> SettingsCount(r.events) <= Allowance(s) <= 1
    decreases |segments|
  {
    if segments != [] {
      RunSpends(s, unread + segments[0]);
      var first := Run(s, unread + segments[0]);
      if first.Waiting? {
        SegmentsSpend(first.stream, first.unread, segments[1..]);
        var later := RunSegments(first.stream, first.unread, segments[1..]);
        if later.Waiting? {
          SettingsCountJoin(first.events, later.events);
        }
      }
    }
  }

  /** Every stream reports SETTINGS at most once, and a request stream never. */
  lemma SettingsAtMostOnce(id: nat, segments: seq<seq<byte>>)
    ensures var r := RunSegments(NewStream(id), [], segments);
            r.Waiting? ==> SettingsCount(r.events) <= if IsBidirectional(id) then 0 else 1
  {
    NewIsDisciplined(id);
    SegmentsSpend(NewStream(id), [], segments);
  }

  /** No octet of data among the events. */
  predicate NoData(events: seq<Event>) {
    forall i :: 0 <= i < |events| ==> !events[i].DataOctet?
  }

  /** Neither a request nor a push stream, and not going to be one. */
  predicate NoMessages(s: Stream) {
    !s.ty.Init? && !s.ty.Request? && !s.ty.Push?
  }

  lemma {:induction false} RunDeliversNoData(s: Stream, u: seq<byte>)
    requires Disciplined(s) && NoMessages(s)
    ensures var r := Run(s, u); r.Waiting? ==> Disciplined(r.stream) && NoMessages(r.stream) && NoData(r.events)
    decreases |u|, Rank(s)
  {
    StepDecreases(s, u);
    StepIsDisciplined(s, u);
    var step := Step(s, u);
    if step.Go? {
      assert NoMessages(step.stream) && NoData(step.events);
      RunDeliversNoData(step.stream, step.rest);
    }
  }

  /** Only request and push streams deliver data, however the octets are cut. */
  lemma {:induction false} DeliversNoData(s: Stream, unread: seq<byte>, segments: seq<seq<byte>>)
    requires Disciplined(s) && NoMessages(s)
    ensures var r := RunSegments(s, unread, segments);
            r.Waiting? ==> NoMessages(r.stream) && NoData(r.events)
    decreases |segments|
  {
    if segments != [] {
      RunDeliversNoData(s, unread + segments[0]);
      var first := Run(s, unread + segments[0]);
      if first.Waiting? {
        DeliversNoData(first.stream, first.unread, segments[1..]);
      }
    }
  }
}
