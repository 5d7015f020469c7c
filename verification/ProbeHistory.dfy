/** What the probe table reports, told from the calls alone. */
module ProbeHistory {
  import opened Octets
  import opened ProbeTable

  /** A wait that was noted and not reported yet: since when, and by which thread. */
  datatype Wait = Wait(since: nat, thread: nat)

  /** The call concerns this connection, and there was a clock. */
  predicate Concerns(op: Operation, key: Key) {
    op.key == key && key != 0 && op.now != 0
  }

  /** The wait of the given code (2 to read, 3 to write) that is open on a connection after these calls. */
  function OpenWait(ops: seq<Operation>, key: Key, code: int): Option<Wait> {
    if ops == [] then None else
    var op, before := ops[|ops| - 1], OpenWait(ops[..|ops| - 1], key, code);
    if !Concerns(op, key) then before
    else if op.Remember? then if op.code == code then Some(Wait(op.now, op.thread)) else before
    else if before.Some? && before.value.since <= op.now then None
    else before
  }

  /** The connections that got a slot: those of the first 8192 that calls were made for. */
  function Admitted(ops: seq<Operation>): set<Key> {
    if ops == [] then {} else
    var op, before := ops[|ops| - 1], Admitted(ops[..|ops| - 1]);
    if !Concerns(op, op.key) || |before| == 8192 then before else before + {op.key}
  }

  /** The gap that ends now, if the wait is not from the future. */
  function Gap(wait: Option<Wait>, now: nat): Option<nat> {
    if wait.Some? && wait.value.since <= now then Some(now - wait.value.since) else None
  }

  /** What a retry reports: the read gap and the write gap that end with it, in this order. */
  function Told(ops: seq<Operation>, key: Key, now: nat, thread: nat): seq<Sample> {
    if key == 0 || now == 0 || key !in Admitted(ops) then [] else
    var read, write := OpenWait(ops, key, 2), OpenWait(ops, key, 3);
    (if Gap(read, now).Some? then [ReadGap(Gap(read, now).value, read.value.thread == thread)] else [])
    + (if Gap(write, now).Some? then [WriteGap(Gap(write, now).value, write.value.thread == thread)] else [])
  }

  // ---------------------------------------------------------------------------
  // The open waits are what the table holds.
  // ---------------------------------------------------------------------------

  /** A wait as an entry holds it: zero is no time. */
  predicate Holds(time: nat, thread: nat, wait: Option<Wait>) {
    if wait.None? then time == 0 else time == wait.value.since > 0 && thread == wait.value.thread
  }

  predicate EntryHolds(w: Wants, ops: seq<Operation>, key: Key) {
    && Holds(w.readTime, w.readThread, OpenWait(ops, key, 2))
    && Holds(w.writeTime, w.writeThread, OpenWait(ops, key, 3))
  }

  lemma {:induction false} MapAfterMore(m: map<Key, Wants>, ops: seq<Operation>, op: Operation)
    ensures MapAfterAll(m, ops + [op]) == MapAfterOp(MapAfterAll(m, ops), op)
    decreases |ops|
  {
    if ops == [] {
      assert ops + [op] == [op] && [op][1..] == [];
    } else {
      assert (ops + [op])[1..] == ops[1..] + [op];
      MapAfterMore(MapAfterOp(m, ops[0]), ops[1..], op);
    }
  }

  lemma OpenWaitMore(ops: seq<Operation>, op: Operation, key: Key, code: int)
    ensures var before := OpenWait(ops, key, code);
            OpenWait(ops + [op], key, code)
            == if !Concerns(op, key) then before
               else if op.Remember? then if op.code == code then Some(Wait(op.now, op.thread)) else before
               else if before.Some? && before.value.since <= op.now then None
               else before
  {
    assert (ops + [op])[..|ops|] == ops;
  }

  lemma EntryMore(w: Wants, ops: seq<Operation>, op: Operation, key: Key)
    requires EntryHolds(w, ops, key) && Concerns(op, key)
    ensures EntryHolds(NewWants(w, op), ops + [op], key)
  {
    OpenWaitMore(ops, op, key, 2);
    OpenWaitMore(ops, op, key, 3);
  }

  /** Nobody asked for this connection. */
  predicate Untouched(ops: seq<Operation>, key: Key) {
    forall i :: 0 <= i < |ops| ==> !Concerns(ops[i], key)
  }

  lemma {:induction false} UntouchedHasNoWait(ops: seq<Operation>, key: Key, code: int)
    requires Untouched(ops, key)
    ensures OpenWait(ops, key, code).None?
  {
    if ops != [] {
      UntouchedHasNoWait(ops[..|ops| - 1], key, code);
    }
  }

  lemma AdmittedMore(ops: seq<Operation>, op: Operation)
    ensures var before := Admitted(ops);
            Admitted(ops + [op]) == if !Concerns(op, op.key) || |before| == 8192 then before else before + {op.key}
  {
    assert (ops + [op])[..|ops|] == ops;
  }

  /** The map of a run holds the open waits of all connections that got a slot. */
  ghost predicate MapHolds(m: map<Key, Wants>, ops: seq<Operation>, key: Key) {
    && m.Keys == Admitted(ops)
    && (key in m ==> EntryHolds(m[key], ops, key))
    && (key !in m ==> |m| == 8192 || Untouched(ops, key))
  }

  lemma MapHoldsMore(m: map<Key, Wants>, ops: seq<Operation>, op: Operation, key: Key)
    requires MapHolds(m, ops, key)
    ensures MapHolds(MapAfterOp(m, op), ops + [op], key)
  {
    AdmittedMore(ops, op);
    assert |m| == |m.Keys|;
    if key in m && Concerns(op, key) {
      EntryMore(m[key], ops, op, key);
    } else {
      OpenWaitMore(ops, op, key, 2);
      OpenWaitMore(ops, op, key, 3);
      if Untouched(ops, key) {
        UntouchedHasNoWait(ops, key, 2);
        UntouchedHasNoWait(ops, key, 3);
      }
    }
  }

  lemma {:induction false} RunHolds(ops: seq<Operation>, key: Key)
    ensures MapHolds(MapAfterAll(map[], ops), ops, key)
  {
    if ops != [] {
      var last := |ops| - 1;
      assert ops == ops[..last] + [ops[last]];
      RunHolds(ops[..last], key);
      MapAfterMore(map[], ops[..last], ops[last]);
      MapHoldsMore(MapAfterAll(map[], ops[..last]), ops[..last], ops[last], key);
    }
  }

  lemma MapTells(m: map<Key, Wants>, ops: seq<Operation>, key: Key, now: nat, thread: nat)
    requires MapHolds(m, ops, key)
    ensures MapOutput(m, Consume(key, now, thread)) == Told(ops, key, now, thread)
  {
  }

  lemma NewIsEmpty()
    ensures Inv(New()) && View(New()) == map[]
  {
    NewInv();
  }

  /**
   * After any run on a new table, a retry reports the waits that are open on its connection, each with the time since
   * it was noted last, and nothing else; a connection without a slot reports nothing.
   */
  lemma OutputIsTold(ops: seq<Operation>, key: Key, now: nat, thread: nat)
    ensures Output(AfterAll(New(), ops), Consume(key, now, thread)) == Told(ops, key, now, thread)
  {
    NewIsEmpty();
    RunIsMapRun(New(), ops);
    OpIsMapOp(AfterAll(New(), ops), Consume(key, now, thread));
    RunHolds(ops, key);
    MapTells(MapAfterAll(map[], ops), ops, key, now, thread);
  }

  lemma {:induction false} WaitStaysOpen(ops: seq<Operation>, between: seq<Operation>, key: Key, code: int)
    requires Untouched(between, key)
    ensures OpenWait(ops + between, key, code) == OpenWait(ops, key, code)
  {
    if between == [] {
      assert ops + between == ops;
    } else {
      var last := |between| - 1;
      WaitStaysOpen(ops, between[..last], key, code);
      OpenWaitMore(ops + between[..last], between[last], key, code);
      assert ops + between == ops + between[..last] + [between[last]];
    }
  }

  /** A wait that was noted is reported by the next call on its connection, if that is a retry, and only once. */
  lemma WaitIsReportedOnce(ops: seq<Operation>, wait: Operation, between: seq<Operation>, now: nat, thread: nat)
    requires wait.Remember? && wait.code in {2, 3} && Concerns(wait, wait.key) && wait.now <= now
    requires Untouched(between, wait.key)
    ensures var all := ops + [wait] + between;
            && Gap(OpenWait(all, wait.key, wait.code), now) == Some(now - wait.now)
            && OpenWait(all + [Consume(wait.key, now, thread)], wait.key, wait.code).None?
  {
    OpenWaitMore(ops, wait, wait.key, wait.code);
    WaitStaysOpen(ops + [wait], between, wait.key, wait.code);
    OpenWaitMore(ops + [wait] + between, Consume(wait.key, now, thread), wait.key, wait.code);
  }
}
