/**
 * The open-addressing table of tools/https_proxy_bench/ssl_trace_preload.c, which remembers for
 * each connection when it last had to wait. Entries are found by linear probing and never deleted.
 */
module ProbeTable {
  import opened Octets

  const SLOTS := 8192

  /** A connection is known by its address; zero stands for none. */
  type Key = nat

  const NULL: Key := 0

  /** When, and on which thread, a connection last had to wait to read or to write; time zero is never. */
  datatype Wants = Wants(readTime: nat, readThread: nat, writeTime: nat, writeThread: nat)

  datatype Slot = Slot(key: Key, wants: Wants)

  const NO_WANTS := Wants(0, 0, 0, 0)
  const EMPTY := Slot(NULL, NO_WANTS)

  type Table = s: seq<Slot> | |s| == SLOTS witness seq(SLOTS, _ => EMPTY)

  /** Where probing for a key starts. */
  function Base(key: Key): (b: nat)
    ensures b < SLOTS
  {
    key / 16 % SLOTS
  }

  /** The slot `offset` steps behind `base`, around the end. */
  function Pos(base: nat, offset: nat): (i: nat)
    requires base < SLOTS && offset <= SLOTS
    ensures i == (base + offset) % SLOTS && i < SLOTS
  {
    if base + offset < SLOTS then base + offset else base + offset - SLOTS
  }

  /** How many steps behind `base` slot `i` is. */
  function Distance(base: nat, i: nat): (d: nat)
    requires base < SLOTS && i < SLOTS
    ensures d < SLOTS && Pos(base, d) == i
  {
    if base <= i then i - base else i + SLOTS - base
  }

  /** Probing for a key ends at its slot, at a free slot, or nowhere. */
  datatype Probe = Found(index: nat) | Free(index: nat) | Nowhere

  function ProbeFrom(t: Table, key: Key, offset: nat): (r: Probe)
    requires offset <= SLOTS
    ensures !r.Nowhere? ==> r.index < SLOTS
    decreases SLOTS - offset
  {
    if offset == SLOTS then Nowhere else
    var i := Pos(Base(key), offset);
    if t[i].key == key then Found(i)
    else if t[i].key == NULL then Free(i)
    else ProbeFrom(t, key, offset + 1)
  }

  function Find(t: Table, key: Key): (r: Probe)
    ensures !r.Nowhere? ==> r.index < SLOTS
  {
    ProbeFrom(t, key, 0)
  }

  // ---------------------------------------------------------------------------
  // What every table satisfies.
  // ---------------------------------------------------------------------------

  ghost predicate NoDuplicates(t: Table) {
    forall i, j :: 0 <= i < SLOTS && 0 <= j < SLOTS && t[i].key == t[j].key != NULL ==> i == j
  }

  /** Every slot that probing passes on its way to the key in slot `i` is occupied. */
  ghost predicate PathOccupied(t: Table, i: nat)
    requires i < SLOTS
  {
    var base := Base(t[i].key);
    forall offset :: 0 <= offset < Distance(base, i) ==> t[Pos(base, offset)].key != NULL
  }

  ghost predicate Inv(t: Table) {
    && NoDuplicates(t)
    && (forall i :: 0 <= i < SLOTS && t[i].key != NULL ==> PathOccupied(t, i))
    && (forall i :: 0 <= i < SLOTS && t[i].key == NULL ==> t[i] == EMPTY)
  }

  ghost predicate Full(t: Table) {
    forall i :: 0 <= i < SLOTS ==> t[i].key != NULL
  }

  ghost predicate Has(t: Table, key: Key) {
    exists i :: 0 <= i < SLOTS && t[i].key == key
  }

  function New(): Table {
    seq(SLOTS, _ => EMPTY)
  }

  lemma NewInv()
    ensures Inv(New())
  {
  }

  /** Everything that probing passes in its first `n` steps is occupied by other keys. */
  ghost predicate Passes(t: Table, key: Key, n: nat)
    requires n <= SLOTS
  {
    forall o :: 0 <= o < n ==> t[Pos(Base(key), o)].key !in {NULL, key}
  }

  ghost predicate Stops(t: Table, key: Key, r: Probe) {
    match r
    case Found(i) => i < SLOTS && t[i].key == key
    case Free(i) => i < SLOTS && t[i].key == NULL && Passes(t, key, Distance(Base(key), i))
    case Nowhere => Passes(t, key, SLOTS)
  }

  lemma {:induction false} ProbeStops(t: Table, key: Key, offset: nat)
    requires key != NULL && offset <= SLOTS && Passes(t, key, offset)
    ensures Stops(t, key, ProbeFrom(t, key, offset))
    decreases SLOTS - offset
  {
    if offset < SLOTS {
      var i := Pos(Base(key), offset);
      assert Distance(Base(key), i) == offset;
      if t[i].key != key && t[i].key != NULL {
        ProbeStops(t, key, offset + 1);
      }
    }
  }

  /** A key that is there is not passed, and no free slot is met before it. */
  lemma PresentIsFound(t: Table, key: Key, i: nat)
    requires Inv(t) && key != NULL && i < SLOTS && t[i].key == key
    ensures Find(t, key) == Found(i)
  {
    ProbeStops(t, key, 0);
    var base := Base(key);
    var d := Distance(base, i);
    assert t[Pos(base, d)].key == key && PathOccupied(t, i);
  }

  /** A key is found if and only if it is there; there is no place for it if and only if all slots have other keys. */
  lemma FindIff(t: Table, key: Key)
    requires Inv(t) && key != NULL
    ensures Find(t, key).Found? <==> Has(t, key)
    ensures Find(t, key).Nowhere? <==> Full(t) && !Has(t, key)
    ensures Stops(t, key, Find(t, key))
  {
    ProbeStops(t, key, 0);
    if Has(t, key) {
      var i :| 0 <= i < SLOTS && t[i].key == key;
      PresentIsFound(t, key, i);
    } else if Find(t, key).Nowhere? {
      forall i | 0 <= i < SLOTS ensures t[i].key != NULL {
        assert t[Pos(Base(key), Distance(Base(key), i))].key != NULL;
      }
    }
  }

  // ---------------------------------------------------------------------------
  // Claiming a slot.
  // ---------------------------------------------------------------------------

  /** The table after a look-up that claims a free slot for a key that is not there. */
  function Claimed(t: Table, key: Key): Table {
    var r := Find(t, key);
    if r.Free? then t[r.index := t[r.index].(key := key)] else t
  }

  /** No key ever moves or goes away. */
  ghost predicate Grows(t: Table, u: Table) {
    forall i :: 0 <= i < SLOTS && t[i].key != NULL ==> u[i].key == t[i].key
  }

  lemma PathStaysOccupied(t: Table, u: Table, i: nat)
    requires i < SLOTS && Grows(t, u) && u[i].key == t[i].key && PathOccupied(t, i)
    ensures PathOccupied(u, i)
  {
    var base := Base(t[i].key);
    forall o | 0 <= o < Distance(base, i) ensures u[Pos(base, o)].key != NULL {
      assert t[Pos(base, o)].key != NULL;
    }
  }

  lemma ClaimedInv(t: Table, key: Key)
    requires Inv(t) && key != NULL
    ensures Inv(Claimed(t, key)) && Grows(t, Claimed(t, key))
    ensures Has(Claimed(t, key), key) <==> !(Full(t) && !Has(t, key))
    ensures !Find(t, key).Nowhere? ==> Find(Claimed(t, key), key) == Found(Find(t, key).index)
  {
    FindIff(t, key);
    var r := Find(t, key);
    var u := Claimed(t, key);
    if r.Free? {
      forall i | 0 <= i < SLOTS && u[i].key != NULL ensures PathOccupied(u, i) {
        if i == r.index {
          var base := Base(key);
          forall o | 0 <= o < Distance(base, i) ensures u[Pos(base, o)].key != NULL {
            assert t[Pos(base, o)].key != NULL;
          }
        } else {
          PathStaysOccupied(t, u, i);
        }
      }
      assert u[r.index].key == key;
      PresentIsFound(u, key, r.index);
    }
  }

  // ---------------------------------------------------------------------------
  // The table as a finite map.
  // ---------------------------------------------------------------------------

  ghost function Keys(t: Table): set<Key> {
    set i | 0 <= i < SLOTS && t[i].key != NULL :: t[i].key
  }

  ghost function View(t: Table): map<Key, Wants>
    requires Inv(t)
  {
    map key | key in Keys(t) :: WantsOf(t, key)
  }

  ghost function WantsOf(t: Table, key: Key): Wants
    requires Inv(t) && key != NULL
  {
    var r := Find(t, key);
    if r.Found? then t[r.index].wants else NO_WANTS
  }

  lemma KeysAreThere(t: Table, key: Key)
    ensures key in Keys(t) <==> key != NULL && Has(t, key)
  {
  }

  /** What the entry of a key becomes: look it up, claim a slot if need be, and replace its contents. */
  function Put(t: Table, key: Key, wants: Wants): Table {
    var r := Find(t, key);
    if r.Nowhere? then t else t[r.index := Slot(key, wants)]
  }

  lemma PutInv(t: Table, key: Key, wants: Wants)
    requires Inv(t) && key != NULL
    ensures Inv(Put(t, key, wants)) && Grows(t, Put(t, key, wants))
    ensures forall i :: 0 <= i < SLOTS ==> Put(t, key, wants)[i].key == Claimed(t, key)[i].key
  {
    ClaimedInv(t, key);
    FindIff(t, key);
    var c, u := Claimed(t, key), Put(t, key, wants);
    forall i | 0 <= i < SLOTS && u[i].key != NULL ensures PathOccupied(u, i) {
      PathStaysOccupied(c, u, i);
    }
  }

  lemma WantsOfSlot(t: Table, i: nat)
    requires Inv(t) && i < SLOTS && t[i].key != NULL
    ensures WantsOf(t, t[i].key) == t[i].wants
  {
    PresentIsFound(t, t[i].key, i);
  }

  lemma PutKeys(t: Table, key: Key, wants: Wants, k: Key)
    requires Inv(t) && key != NULL && !Find(t, key).Nowhere?
    ensures k in Keys(Put(t, key, wants)) <==> k in Keys(t) || k == key
  {
    FindIff(t, key);
    var u := Put(t, key, wants);
    var r := Find(t, key);
    assert u[r.index].key == key;
    if k in Keys(t) {
      var i :| 0 <= i < SLOTS && t[i].key == k != NULL;
      assert u[i].key == k;
    }
    if k in Keys(u) && k != key {
      var i :| 0 <= i < SLOTS && u[i].key == k != NULL;
      assert t[i].key == k;
    }
  }

  lemma PutOthers(t: Table, key: Key, wants: Wants, k: Key)
    requires Inv(t) && key != NULL && !Find(t, key).Nowhere? && k in Keys(t) && k != key
    requires Inv(Put(t, key, wants))
    ensures WantsOf(Put(t, key, wants), k) == WantsOf(t, k)
  {
    FindIff(t, key);
    var i :| 0 <= i < SLOTS && t[i].key == k;
    WantsOfSlot(t, i);
    WantsOfSlot(Put(t, key, wants), i);
  }

  lemma PutItself(t: Table, key: Key, wants: Wants)
    requires Inv(t) && key != NULL && !Find(t, key).Nowhere? && Inv(Put(t, key, wants))
    ensures WantsOf(Put(t, key, wants), key) == wants
  {
    WantsOfSlot(Put(t, key, wants), Find(t, key).index);
  }

  lemma ViewIs(t: Table, m: map<Key, Wants>)
    requires Inv(t) && forall k :: k in m <==> k in Keys(t)
    requires forall k :: k in m ==> m[k] == WantsOf(t, k)
    ensures View(t) == m
  {
  }

  /** Putting an entry is what it is in a map, as long as there is a place for the key. */
  lemma PutIsUpdate(t: Table, key: Key, wants: Wants)
    requires Inv(t) && key != NULL
    ensures Inv(Put(t, key, wants))
    ensures View(Put(t, key, wants))
            == if Full(t) && key !in View(t) then View(t) else View(t)[key := wants]
  {
    PutInv(t, key, wants);
    FindIff(t, key);
    KeysAreThere(t, key);
    if !Find(t, key).Nowhere? {
      PutItself(t, key, wants);
      forall k ensures k in Keys(Put(t, key, wants)) <==> k in Keys(t) || k == key {
        PutKeys(t, key, wants, k);
      }
      forall k | k in Keys(t) && k != key ensures WantsOf(Put(t, key, wants), k) == WantsOf(t, k) {
        PutOthers(t, key, wants, k);
      }
      ViewIs(Put(t, key, wants), View(t)[key := wants]);
    }
  }

  // ---------------------------------------------------------------------------
  // The clients, and whole runs of them.
  // ---------------------------------------------------------------------------

  /** A wait that is over: for how long, and whether the thread is still the same. */
  datatype Sample = ReadGap(time: nat, sameThread: bool) | WriteGap(time: nat, sameThread: bool)

  datatype Operation =
    | Remember(key: Key, code: int, now: nat, thread: nat)
    | Consume(key: Key, now: nat, thread: nat)

  const WANT_READ := 2
  const WANT_WRITE := 3

  /** Without a clock or a connection nothing is done. */
  predicate Ignored(op: Operation) {
    op.now == 0 || op.key == NULL
  }

  function Remembered(w: Wants, code: int, now: nat, thread: nat): Wants {
    if code == WANT_READ then w.(readTime := now, readThread := thread)
    else if code == WANT_WRITE then w.(writeTime := now, writeThread := thread)
    else w
  }

  function Consumed(w: Wants, now: nat): Wants {
    w.(readTime := if 0 < w.readTime <= now then 0 else w.readTime,
       writeTime := if 0 < w.writeTime <= now then 0 else w.writeTime)
  }

  function Samples(w: Wants, now: nat, thread: nat): seq<Sample> {
    (if 0 < w.readTime <= now then [ReadGap(now - w.readTime, w.readThread == thread)] else [])
    + (if 0 < w.writeTime <= now then [WriteGap(now - w.writeTime, w.writeThread == thread)] else [])
  }

  /** The entry of a key, or what a new one holds. */
  function Entry(t: Table, key: Key): Wants {
    var r := Find(t, key);
    if r.Nowhere? then NO_WANTS else t[r.index].wants
  }

  function NewWants(w: Wants, op: Operation): Wants {
    match op
    case Remember(_, code, now, thread) => Remembered(w, code, now, thread)
    case Consume(_, now, _) => Consumed(w, now)
  }

  function AfterOp(t: Table, op: Operation): Table {
    if Ignored(op) then t else Put(t, op.key, NewWants(Entry(t, op.key), op))
  }

  function Output(t: Table, op: Operation): seq<Sample> {
    if Ignored(op) || op.Remember? || Find(t, op.key).Nowhere? then []
    else Samples(Entry(t, op.key), op.now, op.thread)
  }

  // ---------------------------------------------------------------------------
  // The same operations on a map that takes no new key once it has as many as there are slots.
  // ---------------------------------------------------------------------------

  function MapEntry(m: map<Key, Wants>, key: Key): Wants {
    if key in m then m[key] else NO_WANTS
  }

  function MapAfterOp(m: map<Key, Wants>, op: Operation): map<Key, Wants> {
    if Ignored(op) || (|m| == 8192 && op.key !in m) then m else m[op.key := NewWants(MapEntry(m, op.key), op)]
  }

  function MapOutput(m: map<Key, Wants>, op: Operation): seq<Sample> {
    if Ignored(op) || op.Remember? then [] else Samples(MapEntry(m, op.key), op.now, op.thread)
  }

  ghost function KeysUpTo(t: Table, n: nat): set<Key>
    requires n <= SLOTS
  {
    set i | 0 <= i < n && t[i].key != NULL :: t[i].key
  }

  lemma OneMoreKey(keys: set<Key>, key: Key)
    requires key !in keys
    ensures |keys + {key}| == |keys| + 1
  {
  }

  lemma OneMoreSlot(t: Table, n: nat)
    requires NoDuplicates(t) && n < SLOTS
    ensures |KeysUpTo(t, n + 1)| == |KeysUpTo(t, n)| + if t[n].key == NULL then 0 else 1
  {
    if t[n].key == NULL {
      assert KeysUpTo(t, n + 1) == KeysUpTo(t, n);
    } else {
      assert KeysUpTo(t, n + 1) == KeysUpTo(t, n) + {t[n].key};
      OneMoreKey(KeysUpTo(t, n), t[n].key);
    }
  }

  /** How many of the first `n` slots are taken. */
  ghost function Taken(t: Table, n: nat): (r: nat)
    requires n <= SLOTS
    ensures r <= n
  {
    if n == 0 then 0 else Taken(t, n - 1) + if t[n - 1].key == NULL then 0 else 1
  }

  lemma {:induction false} AllTakenIff(t: Table, n: nat)
    requires n <= SLOTS
    ensures Taken(t, n) == n <==> forall i :: 0 <= i < n ==> t[i].key != NULL
  {
    if n > 0 {
      AllTakenIff(t, n - 1);
    }
  }

  /** As many keys as slots that are taken. */
  lemma {:induction false} KeysCount(t: Table, n: nat)
    requires NoDuplicates(t) && n <= SLOTS
    ensures |KeysUpTo(t, n)| == Taken(t, n)
  {
    if n == 0 {
      assert KeysUpTo(t, 0) == {};
    } else {
      KeysCount(t, n - 1);
      OneMoreSlot(t, n - 1);
    }
  }

  /** The table is full if and only if there are as many keys as slots. */
  lemma FullIff(t: Table)
    requires Inv(t)
    ensures Full(t) <==> |View(t)| == 8192
  {
    KeysCount(t, SLOTS);
    AllTakenIff(t, SLOTS);
    assert View(t).Keys == Keys(t) == KeysUpTo(t, SLOTS);
    assert |View(t)| == |View(t).Keys|;
  }

  lemma EntryIsMapEntry(t: Table, key: Key)
    requires Inv(t) && key != NULL
    ensures Entry(t, key) == MapEntry(View(t), key)
  {
    FindIff(t, key);
    KeysAreThere(t, key);
  }

  /** Every operation does to the table, and reports, what it does to a map. */
  lemma OpIsMapOp(t: Table, op: Operation)
    requires Inv(t)
    ensures Inv(AfterOp(t, op)) && Grows(t, AfterOp(t, op))
    ensures View(AfterOp(t, op)) == MapAfterOp(View(t), op)
    ensures Output(t, op) == MapOutput(View(t), op)
  {
    if !Ignored(op) {
      FullIff(t);
      EntryIsMapEntry(t, op.key);
      PutInv(t, op.key, NewWants(Entry(t, op.key), op));
      PutIsUpdate(t, op.key, NewWants(Entry(t, op.key), op));
    }
  }

  function AfterAll(t: Table, ops: seq<Operation>): Table
    decreases |ops|
  {
    if ops == [] then t else AfterAll(AfterOp(t, ops[0]), ops[1..])
  }

  function Outputs(t: Table, ops: seq<Operation>): seq<seq<Sample>>
    decreases |ops|
  {
    if ops == [] then [] else [Output(t, ops[0])] + Outputs(AfterOp(t, ops[0]), ops[1..])
  }

  function MapAfterAll(m: map<Key, Wants>, ops: seq<Operation>): map<Key, Wants>
    decreases |ops|
  {
    if ops == [] then m else MapAfterAll(MapAfterOp(m, ops[0]), ops[1..])
  }

  function MapOutputs(m: map<Key, Wants>, ops: seq<Operation>): seq<seq<Sample>>
    decreases |ops|
  {
    if ops == [] then [] else [MapOutput(m, ops[0])] + MapOutputs(MapAfterOp(m, ops[0]), ops[1..])
  }

  /** A whole run on the table does, and reports, what it does on the map. */
  lemma {:induction false} RunIsMapRun(t: Table, ops: seq<Operation>)
    requires Inv(t)
    ensures Inv(AfterAll(t, ops)) && View(AfterAll(t, ops)) == MapAfterAll(View(t), ops)
    ensures Outputs(t, ops) == MapOutputs(View(t), ops)
    decreases |ops|
  {
    if ops != [] {
      OpIsMapOp(t, ops[0]);
      RunIsMapRun(AfterOp(t, ops[0]), ops[1..]);
    }
  }

  lemma {:induction false} RunGrows(t: Table, ops: seq<Operation>)
    requires Inv(t)
    ensures Inv(AfterAll(t, ops)) && Grows(t, AfterAll(t, ops))
    decreases |ops|
  {
    if ops != [] {
      OpIsMapOp(t, ops[0]);
      RunGrows(AfterOp(t, ops[0]), ops[1..]);
    }
  }

  /** Once a key has a slot, it is found in that slot ever after, and nowhere else. */
  lemma SlotIsForEver(t: Table, ops: seq<Operation>, key: Key, i: nat)
    requires Inv(t) && key != NULL && Find(t, key) == Found(i)
    ensures Find(AfterAll(t, ops), key) == Found(i)
  {
    FindIff(t, key);
    RunGrows(t, ops);
    PresentIsFound(AfterAll(t, ops), key, i);
  }

  /** The slot claimed for a key holds its entry. */
  lemma ClaimedAt(t: Table, key: Key)
    requires Inv(t) && key != NULL && !Find(t, key).Nowhere?
    ensures Claimed(t, key)[Find(t, key).index] == Slot(key, Entry(t, key))
  {
    FindIff(t, key);
  }

  // ---------------------------------------------------------------------------
  // The table in memory.
  // ---------------------------------------------------------------------------

  class RetryTable {
    const slots: array<Slot>

    ghost predicate Valid()
      reads this, slots
    {
      slots.Length == SLOTS && Inv(slots[..])
    }

    constructor ()
      ensures Valid() && fresh(slots) && slots[..] == New()
    {
      slots := new Slot[SLOTS](_ => EMPTY);
      new;
      NewInv();
      assert slots[..] == New();
    }

    /** The slot of a key; a free one is claimed for it, and `None` says that there is none. */
    method RetrySlot(key: Key) returns (r: Option<nat>)
      requires Valid() && key != NULL
      modifies slots
      ensures Valid() && slots[..] == Claimed(old(slots[..]), key)
      ensures r == if Find(old(slots[..]), key).Nowhere? then None else Some(Find(old(slots[..]), key).index)
      ensures r.None? <==> Full(old(slots[..])) && !Has(old(slots[..]), key)
    {
      ghost var t: Table := slots[..];
      FindIff(t, key);
      ClaimedInv(t, key);
      var base := Base(key);
      for offset := 0 to SLOTS
        invariant slots[..] == t && Find(t, key) == ProbeFrom(t, key, offset)
      {
        var i := (base + offset) % SLOTS;
        assert i == Pos(base, offset) && t[i] == slots[i];
        if slots[i].key == key {
          return Some(i);
        }
        if slots[i].key == NULL {
          slots[i] := slots[i].(key := key);
          return Some(i);
        }
      }
      return None;
    }

    /** Writes the entry in slot `i`, which was claimed for `key`. */
    method SetWants(key: Key, i: nat, wants: Wants, ghost t: Table)
      requires slots.Length == SLOTS && slots[..] == Claimed(t, key) && key != NULL
      requires !Find(t, key).Nowhere? && i == Find(t, key).index && slots[i].key == key
      modifies slots
      ensures slots[..] == Put(t, key, wants)
    {
      slots[i] := slots[i].(wants := wants);
      assert slots[..] == Claimed(t, key)[i := Slot(key, wants)];
    }

    method RememberWant(key: Key, code: int, now: nat, thread: nat)
      requires Valid()
      modifies slots
      ensures Valid() && slots[..] == AfterOp(old(slots[..]), Remember(key, code, now, thread))
    {
      OpIsMapOp(slots[..], Remember(key, code, now, thread));
      if now == 0 || key == NULL {
        return;
      }
      var slot := RetrySlot(key);
      if slot.Some? {
        ClaimedAt(old(slots[..]), key);
        var wants := slots[slot.value].wants;
        if code == WANT_READ {
          wants := wants.(readTime := now, readThread := thread);
        } else if code == WANT_WRITE {
          wants := wants.(writeTime := now, writeThread := thread);
        }
        SetWants(key, slot.value, wants, old(slots[..]));
      }
    }

    method ConsumeGap(key: Key, now: nat, thread: nat) returns (samples: seq<Sample>)
      requires Valid()
      modifies slots
      ensures Valid() && slots[..] == AfterOp(old(slots[..]), Consume(key, now, thread))
      ensures samples == Output(old(slots[..]), Consume(key, now, thread))
    {
      OpIsMapOp(slots[..], Consume(key, now, thread));
      samples := [];
      if now == 0 || key == NULL {
        return;
      }
      var slot := RetrySlot(key);
      if slot.Some? {
        ClaimedAt(old(slots[..]), key);
        var wants;
        wants, samples := TakeGaps(slots[slot.value].wants, now, thread);
        SetWants(key, slot.value, wants, old(slots[..]));
      }
    }

    static method TakeGaps(before: Wants, now: nat, thread: nat) returns (wants: Wants, samples: seq<Sample>)
      ensures wants == Consumed(before, now) && samples == Samples(before, now, thread)
    {
      wants, samples := before, [];
      if wants.readTime != 0 && now >= wants.readTime {
        samples := samples + [ReadGap(now - wants.readTime, wants.readThread == thread)];
        wants := wants.(readTime := 0);
      }
      if wants.writeTime != 0 && now >= wants.writeTime {
        samples := samples + [WriteGap(now - wants.writeTime, wants.writeThread == thread)];
        wants := wants.(writeTime := 0);
      }
    }
  }
}
