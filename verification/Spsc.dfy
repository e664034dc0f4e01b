/**
 The single-producer single-consumer ring as one thread at a time sees it: a bounded queue on two wrapping
 64-bit counters. Interleaving.dfy runs the same code on two threads.
 */
module Spsc {
  import opened Types
  import opened Wrapping

  class SpscRing<T(0)> {
    const bits: nat
    const storage: array<T>
    var producerHead: u64
    var consumerTail: u64

    ghost predicate Valid()
      reads this
    {
      1 <= bits <= 63 && storage.Length == Pow2(bits) && Wrap64(producerHead - consumerTail) <= Pow2(bits)
    }

    /** The queued items, oldest first. */
    ghost function Contents(): seq<T>
      requires Valid()
      reads this, storage
    {
      Window(storage[..], consumerTail, Wrap64(producerHead - consumerTail), bits)
    }

    /** The capacity is a power of two, at least two. */
    constructor (bits: nat)
      requires 1 <= bits <= 63
      ensures Valid() && Contents() == [] && fresh(storage) && this.bits == bits
    {
      this.bits := bits;
      storage := new T[Pow2(bits)];
      producerHead, consumerTail := 0, 0;
    }

    method TryPush(value: T) returns (ok: bool)
      requires Valid()
      modifies this`producerHead, storage
      ensures Valid() && (ok <==> |old(Contents())| < Pow2(bits))
      ensures Contents() == old(Contents()) + if ok then [value] else []
    {
      hide Pow2, Wrap64, Window;
      var head: int := producerHead;
      if Wrap64(head - consumerTail) >= Pow2(bits) {
        return false;
      }
      Capacities(bits);
      PushCounter(head, consumerTail, bits);
      WindowPush(storage[..], consumerTail, Wrap64(head - consumerTail), bits, value);
      ghost var before := storage[..];
      storage[SlotOf(head, bits)] := value;
      producerHead := Wrap64(head + 1);
      assert storage[..] == before[SlotOf(head, bits) := value];
      return true;
    }

    method TryPop() returns (output: Option<T>)
      requires Valid()
      modifies this`consumerTail
      ensures Valid() && (output.None? <==> old(Contents()) == [])
      ensures if output.Some? then old(Contents()) == [output.value] + Contents() else Contents() == old(Contents())
    {
      hide Pow2, Window;
      var tail: int := consumerTail;
      PopCounter(producerHead, tail);
      if tail == producerHead {
        return None;
      }
      WindowPop(storage[..], tail, Wrap64(producerHead - tail), bits);
      output := Some(storage[SlotOf(tail, bits)]);
      consumerTail := Wrap64(tail + 1);
    }

    method IsEmpty() returns (empty: bool)
      requires Valid()
      ensures empty <==> Contents() == []
    {
      hide Pow2;
      return consumerTail == producerHead;
    }
  }

  /** `counter & mask`: the slot of a counter value. */
  function SlotOf(counter: int, bits: nat): (slot: int)
    ensures 0 <= slot < Pow2(bits)
  {
    Wrap64(counter) % Pow2(bits)
  }

  lemma {:induction false} Capacities(bits: nat)
    requires bits <= 63
    ensures Pow2(bits) <= U64_MODULUS / 2
  {
    Pow2Of64();
    Pow2Monotone(bits, 63);
  }

  /** The slots of counters less than a capacity apart differ, even across the wrap. */
  lemma {:induction false} SlotsDiffer(a: int, b: int, bits: nat)
    requires bits <= 63 && a < b < a + Pow2(bits)
    ensures SlotOf(a, bits) != SlotOf(b, bits)
  {
    WrapSlot(a, bits);
    WrapSlot(b, bits);
    if a % Pow2(bits) == b % Pow2(bits) {
      SlotsApart(a, b, Pow2(bits));
    }
  }

  /** The n items that start at the given counter. */
  function Window<T>(slots: seq<T>, from: int, n: nat, bits: nat): (w: seq<T>)
    requires |slots| == Pow2(bits)
    ensures |w| == n
  {
    seq(n, i => slots[SlotOf(from + i, bits)])
  }

  lemma {:induction false} PushCounter(head: u64, tail: u64, bits: nat)
    requires Wrap64(head - tail) < Pow2(bits) <= U64_MODULUS / 2
    ensures Wrap64(Wrap64(head + 1) - tail) == Wrap64(head - tail) + 1
    ensures SlotOf(tail + Wrap64(head - tail), bits) == SlotOf(head, bits)
  {
    hide Pow2, Wrap64;
    var h: int, t: int := head, tail;
    WrapSum(h - t, t);
    WrapSum(h + 1, -t);
    WrapSum(h - t, 1);
    WrapSmall(Wrap64(h - t) + 1);
  }

  lemma {:induction false} PopCounter(head: u64, tail: u64)
    ensures head == tail <==> Wrap64(head - tail) == 0
    ensures head != tail ==> Wrap64(head - Wrap64(tail + 1)) == Wrap64(head - tail) - 1
  {}

  lemma {:induction false} WindowPush<T>(slots: seq<T>, tail: int, n: nat, bits: nat, value: T)
    requires |slots| == Pow2(bits) && n < Pow2(bits) && bits <= 63
    ensures Window(slots[SlotOf(tail + n, bits) := value], tail, n + 1, bits) == Window(slots, tail, n, bits) + [value]
  {
    hide Pow2;
    var after := slots[SlotOf(tail + n, bits) := value];
    var w, w' := Window(slots, tail, n, bits), Window(after, tail, n + 1, bits);
    forall i | 0 <= i < n ensures w'[i] == w[i] {
      SlotsDiffer(tail + i, tail + n, bits);
    }
    assert w' == w + [value];
  }

  lemma {:induction false} WindowPop<T>(slots: seq<T>, tail: int, n: nat, bits: nat)
    requires |slots| == Pow2(bits) && n > 0
    ensures Window(slots, tail, n, bits) == [slots[SlotOf(tail, bits)]] + Window(slots, Wrap64(tail + 1), n - 1, bits)
  {
    hide Pow2;
    var w, rest := Window(slots, tail, n, bits), Window(slots, Wrap64(tail + 1), n - 1, bits);
    forall i | 0 <= i < n - 1 ensures rest[i] == w[i + 1] {
      SlotWrapped(tail + 1, i, bits);
    }
  }

  lemma {:induction false} SlotWrapped(x: int, i: int, bits: nat)
    ensures SlotOf(Wrap64(x) + i, bits) == SlotOf(x + i, bits)
  {
    WrapSum(x, i);
  }
}
