/** The benchmark's lookup table: one interface, two deletion policies. */
module LookupPolicy {
  import opened Types
  import opened Probing
  import Wrapping

  /** No slot in use has become empty. */
  ghost predicate NoneFreed(before: seq<Slot<()>>, after: seq<Slot<()>>) {
    |after| == |before| && forall i :: 0 <= i < |before| && before[i].state != Empty ==> after[i].state != Empty
  }

  /** A second entry for id has been written to a slot that was not occupied. */
  ghost predicate Duplicated(before: seq<Slot<()>>, after: seq<Slot<()>>, id: u64) {
    exists at :: 0 <= at < |before| && before[at].state != Occupied && after == before[at := Slot(id, (), Occupied)]
  }

  lemma {:induction false} StoreAt(slots: seq<Slot<()>>, home: u64 -> int, live: map<u64, ()>, id: u64, at: int,
                                   backwardShift: bool)
    requires Probing.Table(slots, home, live) && 0 <= at < |slots| && slots[at].state != Occupied &&
             Reachable(slots, home(id), at)
    requires |live| < |slots| && (backwardShift ==> NoTombstones(slots))
    ensures var after := slots[at := Slot(id, (), Occupied)];
            if id in live then Duplicated(slots, after, id) && !IsTable(after, home)
            else
              Probing.Table(after, home, live[id := ()]) && |live[id := ()]| <= |slots| &&
              (backwardShift ==> NoTombstones(after))
  {
    hide Probing.Table, Reachable, NoTombstones;
    StoreKeepsExactly(slots, home, live, id, (), at);
    if id !in live {
      Store(slots, home, live, id, (), at);
      assert live[id := ()].Keys == live.Keys + {id};
    }
  }

  lemma {:induction false} BuryAt(slots: seq<Slot<()>>, home: u64 -> int, live: map<u64, ()>, id: u64, at: int)
    requires Probing.Table(slots, home, live) && Has(slots, at, id) && |live| <= |slots|
    ensures var after := slots[at := slots[at].(state := Tombstone)];
            Probing.Table(after, home, live - {id}) && |live - {id}| <= |slots| && NoneFreed(slots, after)
  {
    hide Probing.Table;
    Bury(slots, home, live, id, at);
    assert (live - {id}).Keys == live.Keys - {id};
  }

  lemma {:induction false} NoneFreedYet(slots: seq<Slot<()>>, h: int, id: u64)
    ensures NoneFreed(slots, slots) && Probed(slots, h, 0, id)
  {}

  lemma {:induction false} ProbedOn(slots: seq<Slot<()>>, h: int, k: int, id: u64)
    requires Probed(slots, h, k, id) && 0 <= k && Used(slots, Probe(h, k, |slots|)) &&
             !Has(slots, Probe(h, k, |slots|), id)
    ensures Probed(slots, h, k + 1, id)
  {}

  /** Below capacity an id that is present can be erased under either policy. */
  lemma {:induction false} CanErase(t: Table, id: u64)
    requires t.Valid() && id in t.live && |t.live| < |t.slots|
    ensures t.EraseEnds(id)
  {
    hide Probing.Table, NoTombstones;
    if t.backwardShift { EmptySlot(t.slots, Homing(t.mix, |t.slots|), t.live); }
  }

  /** How far the scan for an id goes that meets it or an empty slot. */
  lemma {:induction false} ProbeEnds(slots: seq<Slot<()>>, home: u64 -> int, live: map<u64, ()>, id: u64)
    returns (j: int)
    requires Probing.Table(slots, home, live) && (HasEmpty(slots) || id in live)
    ensures 0 <= j < |slots| && (slots[Probe(home(id), j, |slots|)].state == Empty ||
                                 Has(slots, Probe(home(id), j, |slots|), id))
  {
    j := StopOnProbe(slots, home(id), id);
  }

  // ---------- When the scans of erase end ----------

  /** The outer scan, k slots from the id's home, finds the id or an empty slot. */
  predicate StopsAfter(slots: seq<Slot<()>>, h: int, id: u64, k: nat)
    requires |slots| > 0
  {
    var i := (h + k) % |slots|;
    slots[i].state == Empty || Has(slots, i, id)
  }

  /** The shifting scan, k slots beyond the hole, finds an empty slot. */
  predicate ShiftStopsAfter(slots: seq<Slot<()>>, hole: int, k: nat)
    requires |slots| > 0
  {
    slots[(hole + 1 + k) % |slots|].state == Empty
  }

  /** Erasing ends: the outer scan stops, and under backward shift the inner scan does too for an id that is present. */
  ghost predicate ScansEnd(slots: seq<Slot<()>>, h: int, id: u64, backwardShift: bool)
    requires |slots| > 0
  {
    (exists k: nat :: StopsAfter(slots, h, id, k)) &&
    (backwardShift ==> forall p :: Has(slots, p, id) ==> exists k: nat :: ShiftStopsAfter(slots, p, k))
  }

  /** The scans of erase end exactly if some slot is empty, or the id is present and the policy leaves tombstones. */
  lemma {:induction false} EraseEndsExactly(t: Table, id: u64)
    requires t.Valid()
    ensures ScansEnd(t.slots, t.Home(id), id, t.backwardShift) <==> t.EraseEnds(id)
  {
    var slots := t.slots;
    IdStored(slots, Homing(t.mix, |slots|), t.live, id);
    hide Probing.Table, NoTombstones, HasEmpty, StopsAfter, ShiftStopsAfter;
    ScanStops(slots, t.Home(id), id);
    forall p | Has(slots, p, id) ensures (exists k: nat :: ShiftStopsAfter(slots, p, k)) <==> HasEmpty(slots) {
      ShiftScanStops(slots, p);
    }
  }

  lemma {:induction false} IdStored(slots: seq<Slot<()>>, home: u64 -> int, live: map<u64, ()>, id: u64)
    requires Probing.Table(slots, home, live)
    ensures id in live <==> exists i :: Has(slots, i, id)
  {}

  /** The outer scan passes every slot, again and again. */
  lemma {:induction false} ScanStops(slots: seq<Slot<()>>, h: int, id: u64)
    requires 0 <= h < |slots|
    ensures (exists k: nat :: StopsAfter(slots, h, id, k)) <==> HasEmpty(slots) || exists i :: Has(slots, i, id)
  {
    forall i | 0 <= i < |slots| && (slots[i].state == Empty || Has(slots, i, id))
      ensures exists k: nat :: StopsAfter(slots, h, id, k)
    {
      CyclicReach(h, i, |slots|);
      assert StopsAfter(slots, h, id, Distance(h, i, |slots|));
    }
  }

  lemma {:induction false} ShiftScanStops(slots: seq<Slot<()>>, p: int)
    requires 0 <= p < |slots|
    ensures (exists k: nat :: ShiftStopsAfter(slots, p, k)) <==> HasEmpty(slots)
  {
    forall e | 0 <= e < |slots| && slots[e].state == Empty ensures exists k: nat :: ShiftStopsAfter(slots, p, k) {
      NextProbe(p, |slots|);
      var k := Distance((p + 1) % |slots|, e, |slots|);
      CyclicReach((p + 1) % |slots|, e, |slots|);
      AddMod(p + 1, k, |slots|);
      assert ShiftStopsAfter(slots, p, k);
    }
  }

  lemma {:induction false} CyclicReach(h: int, i: int, n: int)
    requires 0 <= h < n && 0 <= i < n
    ensures Distance(h, i, n) >= 0 && (h + Distance(h, i, n)) % n == i
  {
    if h > i {
      Wrapping.ModUnique(n, 1, i);
    } else {
      Wrapping.ModUnique(n, 0, i);
    }
  }

  lemma {:induction false} AddMod(a: int, k: int, n: int)
    requires n > 0
    ensures (a % n + k) % n == (a + k) % n
  {
    var q, r := (a % n + k) / n, (a % n + k) % n;
    Wrapping.Distribute(n, 1, a / n, q);
    Wrapping.ModUnique(n, a / n + q, r);
  }

  class Table {
    var slots: seq<Slot<()>>
    const backwardShift: bool
    /** The 64-bit mixer; nothing depends on which function it is. */
    const mix: u64 -> u64
    ghost var live: map<u64, ()>

    function Home(id: u64): int
      reads this`slots
      requires |slots| > 0
    {
      mix(id) % |slots|
    }

    ghost predicate Valid()
      reads this
    {
      |slots| > 0 && Probing.Table(slots, Homing(mix, |slots|), live) && |live| <= |slots| &&
      (backwardShift ==> NoTombstones(slots))
    }

    constructor (capacity: nat, backwardShift: bool, mix: u64 -> u64)
      requires capacity > 0
      ensures Valid() && live == map[] && |slots| == capacity && this.backwardShift == backwardShift && this.mix == mix
    {
      slots := seq(capacity, _ => Slot(0, (), Empty));
      this.backwardShift := backwardShift;
      this.mix := mix;
      live := map[];
      new;
      EmptyTable(slots, Homing(mix, capacity));
    }

    method Find(id: u64) returns (found: bool)
      requires Valid()
      ensures found <==> id in live
    {
      hide Probing.Table, NoTombstones;
      var position := Home(id);
      ghost var home := Homing(mix, |slots|);
      assert position == home(id);
      var probe := 0;
      while probe < |slots|
        invariant 0 <= probe <= |slots| && 0 <= position < |slots|
        invariant position == Probe(home(id), if probe == |slots| then 0 else probe, |slots|) || probe == |slots|
        invariant Probed(slots, home(id), probe, id)
      {
        var slot := slots[position];
        if slot.state == Empty {
          Absent(slots, home, live, id, probe);
          return false;
        }
        Present(slots, home, live, id, position);
        if slot.state == Occupied && slot.id == id {
          return true;
        }
        NextProbe(position, |slots|);
        position := (position + 1) % |slots|;
        probe := probe + 1;
      }
      Absent(slots, home, live, id, probe);
      return false;
    }

    /**
     Stores an id in the first tombstone of its probe, or else in the first empty slot; the table must have a
     slot that is not occupied. An absent id joins the table. A present one is stored a second time, after
     which the slots are no table any more.
     */
    method Insert(id: u64)
      requires Valid() && |live| < |slots|
      modifies this
      ensures |slots| == old(|slots|) && NoneFreed(old(slots), slots)
      ensures if id !in old(live) then Valid() && live == old(live)[id := ()]
              else live == old(live) && Duplicated(old(slots), slots, id) && !Valid()
    {
      hide Probing.Table, Reachable, NoTombstones;
      var position := Home(id);
      ghost var home := Homing(mix, |slots|);
      assert position == home(id);
      var firstTombstone := |slots|;
      var probe := 0;
      while probe < |slots|
        invariant 0 <= probe <= |slots| && 0 <= position < |slots| && slots == old(slots) && live == old(live)
        invariant probe < |slots| ==> position == Probe(home(id), probe, |slots|)
        invariant Unbroken(slots, home(id), probe)
        invariant firstTombstone == |slots| ==>
          forall j :: 0 <= j < probe ==> slots[Probe(home(id), j, |slots|)].state == Occupied
        invariant firstTombstone != |slots| ==>
          0 <= firstTombstone < |slots| && slots[firstTombstone].state == Tombstone &&
          Reachable(slots, home(id), firstTombstone)
      {
        var slot := slots[position];
        ProbedArc(slots, home(id), probe);
        if slot.state == Tombstone && firstTombstone == |slots| {
          firstTombstone := position;
        }
        if slot.state == Empty {
          ghost var at := if firstTombstone == |slots| then position else firstTombstone;
          StoreAt(slots, home, live, id, at, backwardShift);
          slots := slots[(if firstTombstone == |slots| then position else firstTombstone) := Slot(id, (), Occupied)];
          live := if id in live then live else live[id := ()];
          return;
        }
        NextProbe(position, |slots|);
        position := (position + 1) % |slots|;
        probe := probe + 1;
      }
      ghost var j := RoomOnProbe(slots, home, live, home(id));
      assert slots[Probe(home(id), j, |slots|)].state != Occupied;
      StoreAt(slots, home, live, id, firstTombstone, backwardShift);
      slots := slots[firstTombstone := Slot(id, (), Occupied)];
      live := if id in live then live else live[id := ()];
    }

    /** The scans end: an empty slot exists, or the policy leaves tombstones and the id is present. */
    ghost predicate EraseEnds(id: u64)
      reads this
    {
      HasEmpty(slots) || (!backwardShift && id in live)
    }

    /** The scan of Erase: where the id is, or the empty slot that proves it absent. */
    method Scan(id: u64) returns (position: int)
      requires Valid() && EraseEnds(id)
      ensures 0 <= position < |slots| && if id in live then Has(slots, position, id) else slots[position].state == Empty
    {
      hide Probing.Table, NoTombstones, Probed, HasEmpty;
      position := Home(id);
      ghost var home, probe := Homing(mix, |slots|), 0;
      assert position == home(id);
      NoneFreedYet(slots, home(id), id);
      ghost var last := ProbeEnds(slots, home, live, id);
      while slots[position].state != Empty
        invariant 0 <= probe <= last < |slots| && position == Probe(home(id), probe, |slots|) && 0 <= position < |slots|
        invariant Probed(slots, home(id), probe, id)
        decreases |slots| - probe
      {
        Present(slots, home, live, id, position);
        if slots[position].state == Occupied && slots[position].id == id {
          return;
        }
        ProbedOn(slots, home(id), probe, id);
        NextProbe(position, |slots|);
        position := (position + 1) % |slots|;
        probe := probe + 1;
      }
      Absent(slots, home, live, id, probe);
    }

    /** Removes an id if it is present. Where `EraseEnds` fails, the source scans for ever. */
    method Erase(id: u64)
      requires Valid() && EraseEnds(id)
      modifies this
      ensures Valid() && live == old(live) - {id} && |slots| == old(|slots|) &&
              (id !in old(live) ==> slots == old(slots))
      ensures !backwardShift ==> NoneFreed(old(slots), slots)
    {
      hide Probing.Table, NoTombstones, NoneFreed, HasEmpty;
      NoneFreedYet(slots, 0, id);
      var position := Scan(id);
      if slots[position].state == Empty {
        assert live - {id} == live;
        return;
      }
      if backwardShift {
        EraseWithShift(position, id);
      } else {
        BuryAt(slots, Homing(mix, |slots|), live, id, position);
        slots := slots[position := slots[position].(state := Tombstone)];
        live := live - {id};
      }
    }

    method EraseWithShift(start: int, ghost id: u64)
      requires Valid() && backwardShift && Has(slots, start, id) && HasEmpty(slots)
      modifies this
      ensures Valid() && live == old(live) - {id} && |slots| == old(|slots|)
    {
      hide Probing.Table, Shifting, Crosses, NoTombstones;
      ghost var home, rest := Homing(mix, |slots|), live - {id};
      ghost var e :| 0 <= e < |slots| && slots[e].state == Empty;
      ShiftStart(slots, home, live, id, start);
      var hole := start;
      var scan := (hole + 1) % |slots|;
      ShiftFacts(slots, home, rest, hole, scan);
      while slots[scan].state != Empty
        invariant |slots| == old(|slots|) && 0 <= scan < |slots| && Used(slots, hole) && live == old(live)
        invariant Shifting(slots, home, rest, hole, scan) && 0 <= e < |slots| && slots[e].state == Empty
        decreases Distance(scan, e, |slots|)
      {
        ShiftStep(slots, home, rest, hole, scan, e);
        var crosses := Crosses(hole, scan, Home(slots[scan].id));
        assert crosses == Crosses(hole, scan, home(slots[scan].id));
        if crosses {
          slots := slots[hole := slots[scan]];
          hole := scan;
        }
        scan := (scan + 1) % |slots|;
      }
      ShiftEnd(slots, home, rest, hole, scan, Slot(0, (), Empty));
      slots := slots[hole := Slot(0, (), Empty)];
      live := rest;
    }
  }

  // ---------- Both policies give the same answers ----------

  datatype Operation = FindId(id: u64) | InsertId(id: u64) | EraseId(id: u64)

  /** The ids present after an operation. */
  function After(op: Operation, live: set<u64>): set<u64> {
    match op
    case FindId(_) => live
    case InsertId(id) => live + {id}
    case EraseId(id) => live - {id}
  }

  /** Absent ids are inserted, present ids erased, and the table never fills up. */
  predicate Admissible(ops: seq<Operation>, live: set<u64>, capacity: nat) {
    |live| < capacity &&
    (ops == [] ||
     ((match ops[0]
       case FindId(_) => true
       case InsertId(id) => id !in live
       case EraseId(id) => id in live) &&
      Admissible(ops[1..], After(ops[0], live), capacity)))
  }

  /** What a set would answer to the find operations. */
  function Answers(ops: seq<Operation>, live: set<u64>): seq<bool> {
    if ops == [] then []
    else (if ops[0].FindId? then [ops[0].id in live] else []) + Answers(ops[1..], After(ops[0], live))
  }

  /** Whether an id is present after the first k operations: the last insertion or deletion of it decides. */
  predicate Stored(ops: seq<Operation>, live: set<u64>, k: nat, id: u64)
    requires k <= |ops|
  {
    if k == 0 then id in live
    else if ops[k - 1] == InsertId(id) then true
    else if ops[k - 1] == EraseId(id) then false
    else Stored(ops, live, k - 1, id)
  }

  /** How many of the first k operations are finds. */
  function Finds(ops: seq<Operation>, k: nat): nat
    requires k <= |ops|
  {
    if k == 0 then 0 else Finds(ops, k - 1) + if ops[k - 1].FindId? then 1 else 0
  }

  lemma {:induction false} FromSecond(ops: seq<Operation>, live: set<u64>, k: nat, id: u64)
    requires 1 <= k <= |ops|
    ensures Stored(ops, live, k, id) <==> Stored(ops[1..], After(ops[0], live), k - 1, id)
    ensures Finds(ops, k) == Finds(ops[1..], k - 1) + if ops[0].FindId? then 1 else 0
    decreases k
  {
    if k == 1 {
      assert Finds(ops, 0) == 0;
    } else {
      FromSecond(ops, live, k - 1, id);
      assert ops[1..][k - 2] == ops[k - 1];
    }
  }

  /** The answers are one per find, in order: whether the last insertion or deletion of its id inserted it. */
  lemma {:induction false} AnswersExactly(ops: seq<Operation>, live: set<u64>, k: nat)
    requires k < |ops|
    ensures |Answers(ops, live)| == Finds(ops, |ops|)
    ensures ops[k].FindId? ==>
      Finds(ops, k) < |Answers(ops, live)| && (Answers(ops, live)[Finds(ops, k)] <==> Stored(ops, live, k, ops[k].id))
    decreases |ops|
  {
    hide After;
    var rest, live' := ops[1..], After(ops[0], live);
    FromSecond(ops, live, |ops|, 0);
    if k > 0 {
      FromSecond(ops, live, k, if ops[k].FindId? then ops[k].id else 0);
      AnswersExactly(rest, live', k - 1);
      assert rest[k - 1] == ops[k];
    } else if rest != [] {
      AnswersExactly(rest, live', 0);
    } else {
      AnswersEnd(live');
      assert Finds(rest, 0) == 0;
    }
  }

  lemma {:induction false} AdmissibleStep(ops: seq<Operation>, k: nat, live: set<u64>, capacity: nat)
    requires k < |ops| && Admissible(ops[k..], live, capacity)
    ensures |live| < capacity
    ensures ops[k].InsertId? ==> ops[k].id !in live
    ensures ops[k].EraseId? ==> ops[k].id in live
    ensures Admissible(ops[k + 1..], After(ops[k], live), capacity)
    ensures Answers(ops[k..], live) ==
            (if ops[k].FindId? then [ops[k].id in live] else []) + Answers(ops[k + 1..], After(ops[k], live))
  {
    assert ops[k..][0] == ops[k] && ops[k..][1..] == ops[k + 1..];
  }

  method PerformOne(t: Table, op: Operation) returns (answer: seq<bool>)
    requires t.Valid() && |t.live| < |t.slots|
    requires (op.InsertId? ==> op.id !in t.live) && (op.EraseId? ==> op.id in t.live)
    modifies t
    ensures t.Valid() && |t.slots| == old(|t.slots|) && t.live.Keys == After(op, old(t.live.Keys))
    ensures answer == if op.FindId? then [op.id in old(t.live)] else []
    ensures !t.backwardShift ==> NoneFreed(old(t.slots), t.slots)
  {
    hide Probing.Table, NoTombstones, Table.Valid, Table.EraseEnds, NoneFreed;
    NoneFreedYet(t.slots, 0, 0);
    answer := [];
    match op {
      case FindId(id) =>
        var found := t.Find(id);
        answer := [found];
      case InsertId(id) =>
        t.Insert(id);
      case EraseId(id) =>
        CanErase(t, id);
        t.Erase(id);
    }
  }

  method Perform(t: Table, ops: seq<Operation>) returns (answers: seq<bool>)
    requires t.Valid() && Admissible(ops, t.live.Keys, |t.slots|)
    modifies t
    ensures t.Valid() && answers == Answers(ops, old(t.live.Keys))
    ensures !t.backwardShift ==> NoneFreed(old(t.slots), t.slots)
  {
    hide Probing.Table, NoTombstones, Admissible, Answers, Table.Valid, After;
    answers := [];
    ghost var capacity, start := |t.slots|, t.live.Keys;
    assert ops[0..] == ops;
    for k := 0 to |ops|
      invariant t.Valid() && Admissible(ops[k..], t.live.Keys, capacity) && |t.slots| == capacity
      invariant answers + Answers(ops[k..], t.live.Keys) == Answers(ops, start)
      invariant !t.backwardShift ==> NoneFreed(old(t.slots), t.slots)
    {
      ghost var rest := Answers(ops[k + 1..], After(ops[k], t.live.Keys));
      AdmissibleStep(ops, k, t.live.Keys, capacity);
      assert |t.live| == |t.live.Keys|;
      var answer := PerformOne(t, ops[k]);
      assert answers + (answer + rest) == (answers + answer) + rest;
      answers := answers + answer;
    }
    assert ops[|ops|..] == [];
    AnswersEnd(t.live.Keys);
  }

  lemma AnswersEnd(live: set<u64>)
    ensures Answers([], live) == []
  {}

  /** Backward shift always leaves an empty slot, so every probe of it ends early; tombstones never give a slot back. */
  lemma {:induction false} ShiftKeepsRoom(t: Table)
    requires t.Valid() && t.backwardShift && |t.live| < |t.slots|
    ensures exists i :: 0 <= i < |t.slots| && t.slots[i].state == Empty
  {
    EmptySlot(t.slots, Homing(t.mix, |t.slots|), t.live);
  }

  lemma {:induction false} HomeInUse(t: Table, id: u64)
    requires t.Valid() && id in t.live
    ensures |t.slots| > 0 && Used(t.slots, t.mix(id) % |t.slots|)
  {
    hide Probing.Table, NoTombstones;
    HomeUsed(t.slots, Homing(t.mix, |t.slots|), t.live, id);
  }

  /**
   Under tombstones, inserting and erasing one id after another fills the table for good, if every slot is
   the home of some id: no slot is empty at the end, although never more than one id was present.
   */
  method Saturate(ids: seq<u64>, mix: u64 -> u64) returns (t: Table)
    requires |ids| >= 2 && forall i :: 0 <= i < |ids| ==> mix(ids[i]) % |ids| == i
    ensures fresh(t) && t.Valid() && !t.backwardShift && t.live == map[] && |t.slots| == |ids|
    ensures forall i :: 0 <= i < |ids| ==> t.slots[i].state != Empty
  {
    hide Probing.Table, NoTombstones, Table.Valid, Table.EraseEnds, HasEmpty, Homing;
    t := new Table(|ids|, false, mix);
    for k := 0 to |ids|
      invariant t.Valid() && fresh(t) && !t.backwardShift && t.mix == mix && t.live == map[] && |t.slots| == |ids|
      invariant forall i :: 0 <= i < k ==> t.slots[i].state != Empty
    {
      t.Insert(ids[k]);
      HomeInUse(t, ids[k]);
      CanErase(t, ids[k]);
      t.Erase(ids[k]);
      assert map[ids[k] := ()] - {ids[k]} == map[];
    }
  }

  /** Whatever the hash function, the two deletion policies cannot be told apart by find. */
  method ComparePolicies(capacity: nat, mix: u64 -> u64, ops: seq<Operation>)
    returns (shifted: seq<bool>, buried: seq<bool>)
    requires capacity > 0 && Admissible(ops, {}, capacity)
    ensures shifted == buried == Answers(ops, {})
  {
    var a := new Table(capacity, true, mix);
    shifted := Perform(a, ops);
    var b := new Table(capacity, false, mix);
    buried := Perform(b, ops);
  }

  /** The benchmark's churn loop: each cycle misses, inserts, hits and erases, so `sink` grows by one a cycle. */
  method Run(backwardShift: bool, operations: u64, mix: u64 -> u64, sink: u64) returns (sink': u64)
    ensures sink' == Wrap64(sink + operations)
  {
    hide Probing.Table, NoTombstones, Wrap64, Table.Valid, Table.EraseEnds, NoneFreed;
    sink' := sink;
    WrapOnce(sink);
    var table := new Table(4093, backwardShift, mix);
    var id := 1;
    while id <= operations
      invariant 1 <= id <= operations + 1 && table.Valid() && table.live == map[] && |table.slots| == 4093 &&
                fresh(table)
      invariant sink' == Wrap64(sink + (id - 1))
    {
      WrapTwice(sink, id - 1);
      var before := table.Find(id);
      sink' := Wrap64(sink' + if before then 1 else 0);
      table.Insert(id);
      var after := table.Find(id);
      sink' := Wrap64(sink' + if after then 1 else 0);
      CanErase(table, id);
      table.Erase(id);
      assert map[id := ()] - {id} == map[];
      id := id + 1;
    }
  }

  lemma WrapOnce(a: u64)
    ensures Wrap64(a) == a && Wrap64(a + 0) == a
  {}

  lemma WrapTwice(a: int, b: int)
    ensures Wrap64(Wrap64(a + b) + 0) == Wrap64(a + b)
    ensures Wrap64(Wrap64(a + b) + 1) == Wrap64(a + (b + 1))
  {}
}
