/**
 Open addressing with linear probing, for an arbitrary hash function. A table represents a map from ids
 to values; deletion either leaves a tombstone or shifts later entries back.
 */
module Probing {
  import opened Types

  datatype SlotState = Empty | Occupied | Tombstone

  datatype Slot<V> = Slot(id: u64, value: V, state: SlotState)

  /** Position i lies on the cyclic way from a up to, but not including, b. */
  predicate InArc(a: int, i: int, b: int) {
    if a <= b then a <= i < b else i >= a || i < b
  }

  /** The k-th position probed from h in a table of n slots. */
  function Probe(h: int, k: int, n: int): int { if h + k < n then h + k else h + k - n }

  /** How many probes from h reach position i. */
  function Distance(h: int, i: int, n: int): int { if h <= i then i - h else i - h + n }

  ghost predicate Homes(home: u64 -> int, n: int) {
    forall id: u64 :: 0 <= home(id) < n
  }

  /** The source's hash: a 64-bit mixer, then the remainder by the table size. */
  function Homing(mix: u64 -> u64, n: int): u64 -> int
    requires n > 0
  {
    (id: u64) => mix(id) % n
  }

  predicate Used<V>(slots: seq<Slot<V>>, i: int) { 0 <= i < |slots| && slots[i].state != Empty }

  predicate Has<V>(slots: seq<Slot<V>>, i: int, id: u64) {
    0 <= i < |slots| && slots[i].state == Occupied && slots[i].id == id
  }

  predicate SameEntry<V>(a: Slot<V>, b: Slot<V>) {
    a.state == Occupied && b.state == Occupied && a.id == b.id
  }

  /** Every slot between an entry's home and the entry itself is in use, so a probe does not stop early. */
  ghost predicate Reachable<V>(slots: seq<Slot<V>>, from: int, to: int) {
    forall i :: 0 <= i < |slots| && InArc(from, i, to) ==> Used(slots, i)
  }

  /** The slots hold exactly the entries of m, each once and each reachable from its home. */
  ghost predicate Table<V>(slots: seq<Slot<V>>, home: u64 -> int, m: map<u64, V>) {
    Homes(home, |slots|) &&
    (forall i :: 0 <= i < |slots| && slots[i].state == Occupied ==>
       slots[i].id in m && slots[i].value == m[slots[i].id] && Reachable(slots, home(slots[i].id), i)) &&
    (forall i, j :: 0 <= i < |slots| && 0 <= j < |slots| && SameEntry(slots[i], slots[j]) ==> i == j) &&
    (forall id :: id in m ==> exists i :: Has(slots, i, id))
  }

  ghost predicate IsTable<V(!new)>(slots: seq<Slot<V>>, home: u64 -> int) { exists m :: Table(slots, home, m) }

  ghost predicate NoTombstones<V>(slots: seq<Slot<V>>) {
    forall i :: 0 <= i < |slots| ==> slots[i].state != Tombstone
  }

  lemma {:induction false} NextProbe(pos: int, n: int)
    requires 0 <= pos < n
    ensures (pos + 1) % n == (if pos + 1 == n then 0 else pos + 1)
  {
    if pos + 1 < n {
      assert (pos + 1) % n == pos + 1;
    } else {
      assert n % n == 0;
    }
  }

  /** Probing has inspected k slots from h and met neither an empty slot nor the id. */
  ghost predicate Probed<V>(slots: seq<Slot<V>>, h: int, k: int, id: u64) {
    forall j :: 0 <= j < k ==> Used(slots, Probe(h, j, |slots|)) && !Has(slots, Probe(h, j, |slots|), id)
  }

  /** Meeting an empty slot, or having seen the whole table, means that the id is absent. */
  lemma {:induction false} Absent<V>(slots: seq<Slot<V>>, home: u64 -> int, m: map<u64, V>, id: u64, k: int)
    requires Table(slots, home, m) && Probed(slots, home(id), k, id) && 0 <= k <= |slots|
    requires k == |slots| || !Used(slots, Probe(home(id), k, |slots|))
    ensures id !in m
  {
    if id in m {
      var i :| Has(slots, i, id);
      var n := |slots|;
      var d := Distance(home(id), i, n);
      assert Probe(home(id), d, n) == i;
      assert k < d ==> InArc(home(id), Probe(home(id), k, n), i);
    }
  }

  /** A slot that holds the id holds what the map says. */
  lemma {:induction false} Present<V>(slots: seq<Slot<V>>, home: u64 -> int, m: map<u64, V>, id: u64, i: int)
    requires Table(slots, home, m)
    ensures Has(slots, i, id) ==> id in m && slots[i].value == m[id]
  {}

  /** Probing has passed k slots from h, none of them empty. */
  ghost predicate Unbroken<V>(slots: seq<Slot<V>>, h: int, k: int) {
    forall j :: 0 <= j < k ==> Used(slots, Probe(h, j, |slots|))
  }

  /** The probed stretch is the arc from the home to the current position. */
  lemma {:induction false} ProbedArc<V>(slots: seq<Slot<V>>, h: int, k: int)
    requires Unbroken(slots, h, k) && 0 <= h < |slots| && 0 <= k < |slots|
    ensures Reachable(slots, h, Probe(h, k, |slots|))
  {
    var n := |slots|;
    forall i | 0 <= i < n && InArc(h, i, Probe(h, k, n)) ensures Used(slots, i) {
      var d := Distance(h, i, n);
      assert Probe(h, d, n) == i && 0 <= d < k;
    }
  }

  /** Storing an absent id in a free slot that its probe reaches. */
  lemma {:induction false} Store<V>(slots: seq<Slot<V>>, home: u64 -> int, m: map<u64, V>, id: u64, v: V, at: int)
    requires Table(slots, home, m) && id !in m && 0 <= at < |slots| && slots[at].state != Occupied
    requires Reachable(slots, home(id), at)
    ensures Table(slots[at := Slot(id, v, Occupied)], home, m[id := v])
    ensures NoTombstones(slots) ==> NoTombstones(slots[at := Slot(id, v, Occupied)])
  {
    var after := slots[at := Slot(id, v, Occupied)];
    forall i | 0 <= i < |after| && after[i].state == Occupied
      ensures after[i].id in m[id := v] && after[i].value == m[id := v][after[i].id] &&
              Reachable(after, home(after[i].id), i)
    {
      assert Reachable(slots, home(after[i].id), i);
      forall j | 0 <= j < |after| && InArc(home(after[i].id), j, i) ensures Used(after, j) {
        assert Used(slots, j) || j == at;
      }
    }
    assert Has(after, at, id);
    forall x | x in m && x != id ensures exists i :: Has(after, i, x) {
      var i :| Has(slots, i, x);
      assert Has(after, i, x);
    }
  }

  /** Storing an id in a free slot that its probe reaches keeps the slots a table exactly if the id was absent. */
  lemma {:induction false} StoreKeepsExactly<V(!new)>(slots: seq<Slot<V>>, home: u64 -> int, m: map<u64, V>, id: u64,
                                                      v: V, at: int)
    requires Table(slots, home, m) && 0 <= at < |slots| && slots[at].state != Occupied && Reachable(slots, home(id), at)
    ensures IsTable(slots[at := Slot(id, v, Occupied)], home) <==> id !in m
  {
    if id in m {
      var i :| Has(slots, i, id);
      SecondCopy(slots[at := Slot(id, v, Occupied)], id, i, at, home);
    } else {
      Store(slots, home, m, id, v, at);
    }
  }

  lemma {:induction false} SecondCopy<V(!new)>(slots: seq<Slot<V>>, id: u64, i: int, j: int, home: u64 -> int)
    requires Has(slots, i, id) && Has(slots, j, id) && i != j
    ensures !IsTable(slots, home)
  {
    assert SameEntry(slots[i], slots[j]);
  }

  /** Marking an entry deleted keeps every probe sequence intact. */
  lemma {:induction false} Bury<V>(slots: seq<Slot<V>>, home: u64 -> int, m: map<u64, V>, id: u64, at: int)
    requires Table(slots, home, m) && Has(slots, at, id)
    ensures Table(slots[at := slots[at].(state := Tombstone)], home, m - {id})
  {
    var after := slots[at := slots[at].(state := Tombstone)];
    forall i | 0 <= i < |after| && after[i].state == Occupied
      ensures after[i].id in m - {id} && after[i].value == (m - {id})[after[i].id] &&
              Reachable(after, home(after[i].id), i)
    {
      assert Reachable(slots, home(after[i].id), i);
      forall j | 0 <= j < |after| && InArc(home(after[i].id), j, i) ensures Used(after, j) {
        assert Used(slots, j);
      }
    }
    forall x | x in m - {id} ensures exists i :: Has(after, i, x) {
      var i :| Has(slots, i, x);
      assert Has(after, i, x);
    }
  }

  // ---------- Backward-shift deletion ----------

  /** The source's test whether the entry at `scan` with home `home` may move to the hole. */
  predicate Crosses(hole: int, scan: int, home: int) {
    if hole <= scan then home <= hole || home > scan else home <= hole && home > scan
  }

  lemma {:induction false} CrossesIsArc(hole: int, scan: int, home: int)
    requires hole != scan
    ensures Crosses(hole, scan, home) <==> InArc(home, hole, scan)
  {}

  /**
   While entries shift back: the table without what the hole holds represents m, the hole still counts
   as used, and no entry between the hole and `scan` needs the hole.
   */
  ghost predicate Shifting<V>(slots: seq<Slot<V>>, home: u64 -> int, m: map<u64, V>, hole: int, scan: int) {
    Homes(home, |slots|) && NoTombstones(slots) && Used(slots, hole) && 0 <= scan < |slots| && scan != hole &&
    (forall i :: 0 <= i < |slots| && i != hole && slots[i].state == Occupied ==>
       slots[i].id in m && slots[i].value == m[slots[i].id] && Reachable(slots, home(slots[i].id), i)) &&
    (forall i, j :: 0 <= i < |slots| && 0 <= j < |slots| && i != hole && j != hole && SameEntry(slots[i], slots[j]) ==>
       i == j) &&
    (forall id :: id in m ==> exists i :: i != hole && Has(slots, i, id)) &&
    (forall i :: 0 <= i < |slots| && i != hole && InArc(hole, i, scan) ==>
       Used(slots, i) && !InArc(home(slots[i].id), hole, i))
  }

  lemma {:induction false} ShiftStart<V>(slots: seq<Slot<V>>, home: u64 -> int, m: map<u64, V>, id: u64, hole: int)
    requires Table(slots, home, m) && NoTombstones(slots) && Has(slots, hole, id)
    requires exists e :: 0 <= e < |slots| && slots[e].state == Empty
    ensures Shifting(slots, home, m - {id}, hole, (hole + 1) % |slots|)
  {
    NextProbe(hole, |slots|);
    forall x | x in m - {id} ensures exists i :: i != hole && Has(slots, i, x) {
      var i :| Has(slots, i, x);
      assert i != hole && Has(slots, i, x);
    }
  }

  lemma {:induction false} ShiftFacts<V>(slots: seq<Slot<V>>, home: u64 -> int, m: map<u64, V>, hole: int, scan: int)
    requires Shifting(slots, home, m, hole, scan)
    ensures 0 <= scan < |slots| && Used(slots, hole)
  {}

  /** The scan moves on without meeting the hole again, towards an empty slot e. */
  lemma {:induction false} ScanAdvances<V>(slots: seq<Slot<V>>, home: u64 -> int, m: map<u64, V>, hole: int, scan: int,
                                           e: int)
    requires Shifting(slots, home, m, hole, scan) && Used(slots, scan) && 0 <= e < |slots| && slots[e].state == Empty
    ensures (scan + 1) % |slots| == Probe(scan, 1, |slots|) && Probe(scan, 1, |slots|) != hole
    ensures Distance(Probe(scan, 1, |slots|), e, |slots|) < Distance(scan, e, |slots|)
  {
    NextProbe(scan, |slots|);
    assert Probe(scan, 1, |slots|) == hole ==> InArc(hole, e, scan);
  }

  lemma {:induction false} ShiftSkip<V>(slots: seq<Slot<V>>, home: u64 -> int, m: map<u64, V>, hole: int, scan: int)
    requires Shifting(slots, home, m, hole, scan) && Used(slots, scan) && !Crosses(hole, scan, home(slots[scan].id))
    requires Probe(scan, 1, |slots|) != hole
    ensures Shifting(slots, home, m, hole, Probe(scan, 1, |slots|))
  {
    CrossesIsArc(hole, scan, home(slots[scan].id));
    var next := Probe(scan, 1, |slots|);
    forall i | 0 <= i < |slots| && i != hole && InArc(hole, i, next)
      ensures Used(slots, i) && !InArc(home(slots[i].id), hole, i)
    {
      assert i == scan || InArc(hole, i, scan);
    }
  }

  lemma {:induction false} ShiftMove<V>(slots: seq<Slot<V>>, home: u64 -> int, m: map<u64, V>, hole: int, scan: int)
    requires Shifting(slots, home, m, hole, scan) && Used(slots, scan) && Crosses(hole, scan, home(slots[scan].id))
    requires Probe(scan, 1, |slots|) != scan
    ensures Shifting(slots[hole := slots[scan]], home, m, scan, Probe(scan, 1, |slots|))
  {
    var after := slots[hole := slots[scan]];
    CrossesIsArc(hole, scan, home(slots[scan].id));
    forall i | 0 <= i < |after| && i != scan && after[i].state == Occupied
      ensures after[i].id in m && after[i].value == m[after[i].id] && Reachable(after, home(after[i].id), i)
    {
      var from := if i == hole then scan else i;
      assert Reachable(slots, home(slots[from].id), from);
      forall j | 0 <= j < |after| && InArc(home(after[i].id), j, i) ensures Used(after, j) {
        assert InArc(home(after[i].id), j, from);
        assert Used(slots, j);
      }
    }
    forall id | id in m ensures exists i :: i != scan && Has(after, i, id) {
      var i :| i != hole && Has(slots, i, id);
      assert Has(after, if i == scan then hole else i, id);
    }
  }

  /** One turn of the shifting loop, whichever way its test goes. */
  lemma {:induction false} ShiftStep<V>(slots: seq<Slot<V>>, home: u64 -> int, m: map<u64, V>, hole: int, scan: int,
                                        e: int)
    requires Shifting(slots, home, m, hole, scan) && 0 <= scan < |slots| && slots[scan].state != Empty
    requires 0 <= e < |slots| && slots[e].state == Empty && 0 <= hole < |slots|
    ensures var crosses, next := Crosses(hole, scan, home(slots[scan].id)), (scan + 1) % |slots|;
            var hole', after := if crosses then scan else hole, if crosses then slots[hole := slots[scan]] else slots;
            Shifting(after, home, m, hole', next) && 0 <= next < |slots| && Used(after, hole') &&
            after[e].state == Empty &&
            Distance(next, e, |slots|) < Distance(scan, e, |slots|)
  {
    ScanAdvances(slots, home, m, hole, scan, e);
    ShiftFacts(slots, home, m, hole, scan);
    assert e != hole;
    hide Shifting;
    var next := Probe(scan, 1, |slots|);
    if Crosses(hole, scan, home(slots[scan].id)) {
      assert next != scan by {
        assert scan != e;
      }
      ShiftMove(slots, home, m, hole, scan);
      ShiftFacts(slots[hole := slots[scan]], home, m, scan, next);
    } else {
      ShiftSkip(slots, home, m, hole, scan);
      ShiftFacts(slots, home, m, hole, next);
    }
  }

  /** The scan has met an empty slot: blanking the hole now breaks no probe sequence. */
  lemma {:induction false} ShiftEnd<V>(slots: seq<Slot<V>>, home: u64 -> int, m: map<u64, V>, hole: int, scan: int,
                                       blank: Slot<V>)
    requires Shifting(slots, home, m, hole, scan) && slots[scan].state == Empty && blank.state == Empty
    ensures Table(slots[hole := blank], home, m) && NoTombstones(slots[hole := blank])
  {
    var after := slots[hole := blank];
    forall i | 0 <= i < |after| && after[i].state == Occupied
      ensures after[i].id in m && after[i].value == m[after[i].id] && Reachable(after, home(after[i].id), i)
    {
      var h := home(slots[i].id);
      assert Reachable(slots, h, i);
      assert InArc(h, hole, i) && !InArc(hole, i, scan) ==> InArc(h, scan, i);
    }
    forall id | id in m ensures exists i :: Has(after, i, id) {
      var i :| i != hole && Has(slots, i, id);
      assert Has(after, i, id);
    }
  }

  // ---------- Room ----------

  /** The ids of the first k slots. */
  function IdsOf<V>(slots: seq<Slot<V>>, k: nat): set<u64>
    requires k <= |slots|
  {
    set i | 0 <= i < k :: slots[i].id
  }

  lemma {:induction false} DistinctIds<V>(slots: seq<Slot<V>>, k: nat)
    requires k <= |slots|
    requires forall i, j :: 0 <= i < k && 0 <= j < k && slots[i].id == slots[j].id ==> i == j
    ensures |IdsOf(slots, k)| == k
  {
    if k > 0 {
      DistinctIds(slots, k - 1);
      assert IdsOf(slots, k) == IdsOf(slots, k - 1) + {slots[k - 1].id};
    }
  }

  lemma {:induction false} SubsetCardinality(a: set<u64>, b: set<u64>)
    requires a <= b
    ensures |a| <= |b|
  {
    if a != {} {
      var x :| x in a;
      SubsetCardinality(a - {x}, b - {x});
    }
  }

  /** A table with more slots than entries has a slot that is not occupied. */
  lemma {:induction false} Room<V>(slots: seq<Slot<V>>, home: u64 -> int, m: map<u64, V>)
    requires Table(slots, home, m) && |m| < |slots|
    ensures exists i :: 0 <= i < |slots| && slots[i].state != Occupied
  {
    if forall i :: 0 <= i < |slots| ==> slots[i].state == Occupied {
      DistinctIds(slots, |slots|);
      SubsetCardinality(IdsOf(slots, |slots|), m.Keys);
      assert false;
    }
  }

  lemma {:induction false} EmptyTable<V>(slots: seq<Slot<V>>, home: u64 -> int)
    requires Homes(home, |slots|) && forall i :: 0 <= i < |slots| ==> slots[i].state == Empty
    ensures Table(slots, home, map[]) && NoTombstones(slots)
  {}

  /** A probe of the whole table passes a slot that is not occupied, if there is one. */
  lemma {:induction false} RoomOnProbe<V>(slots: seq<Slot<V>>, home: u64 -> int, m: map<u64, V>, h: int)
    returns (j: int)
    requires Table(slots, home, m) && |m| < |slots| && 0 <= h < |slots|
    ensures 0 <= j < |slots| && slots[Probe(h, j, |slots|)].state != Occupied
  {
    Room(slots, home, m);
    var i :| 0 <= i < |slots| && slots[i].state != Occupied;
    j := Distance(h, i, |slots|);
  }

  /** A probe that looks for an id meets it or an empty slot within one pass, if either exists. */
  lemma {:induction false} StopOnProbe<V>(slots: seq<Slot<V>>, h: int, id: u64) returns (j: int)
    requires 0 <= h < |slots| && (HasEmpty(slots) || exists i :: Has(slots, i, id))
    ensures 0 <= j < |slots| && (slots[Probe(h, j, |slots|)].state == Empty || Has(slots, Probe(h, j, |slots|), id))
  {
    var i :| 0 <= i < |slots| && (slots[i].state == Empty || Has(slots, i, id));
    j := Distance(h, i, |slots|);
  }

  ghost predicate HasEmpty<V>(slots: seq<Slot<V>>) { exists e :: 0 <= e < |slots| && slots[e].state == Empty }

  /** The home of every entry is in use. */
  lemma {:induction false} HomeUsed<V>(slots: seq<Slot<V>>, home: u64 -> int, m: map<u64, V>, id: u64)
    requires Table(slots, home, m) && id in m
    ensures Used(slots, home(id))
  {
    var i :| Has(slots, i, id);
    assert Reachable(slots, home(id), i);
    assert home(id) != i ==> InArc(home(id), home(id), i);
  }

  /** Without tombstones, a table with more slots than entries has an empty slot. */
  lemma {:induction false} EmptySlot<V>(slots: seq<Slot<V>>, home: u64 -> int, m: map<u64, V>)
    requires Table(slots, home, m) && NoTombstones(slots) && |m| < |slots|
    ensures exists e :: 0 <= e < |slots| && slots[e].state == Empty
  {
    Room(slots, home, m);
  }

  lemma {:induction false} NoTombstoneAt<V>(slots: seq<Slot<V>>, i: int)
    requires NoTombstones(slots) && 0 <= i < |slots|
    ensures slots[i].state != Tombstone
  {}

  /** Without tombstones, a probe of the whole table meets an empty slot, if there are more slots than entries. */
  lemma {:induction false} EmptyOnProbe<V>(slots: seq<Slot<V>>, home: u64 -> int, m: map<u64, V>, h: int)
    returns (j: int)
    requires Table(slots, home, m) && NoTombstones(slots) && |m| < |slots| && 0 <= h < |slots|
    ensures 0 <= j < |slots| && slots[Probe(h, j, |slots|)].state == Empty
  {
    j := RoomOnProbe(slots, home, m, h);
  }
}
