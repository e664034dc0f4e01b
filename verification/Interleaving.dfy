/**
 The ring run by two threads. Each load, slot access and publication of `try_push` and `try_pop` is a step
 of its own, in any interleaving. A load of the other thread's counter may return any value published so
 far that is not older than the last one seen. A slot read may return any value written to the slot, except
 one that the acquired counter shows to be overwritten: the write happened before the publication seen.
 */
module Interleaving {
  import opened Types
  import opened Wrapping
  import opened Spsc

  datatype Producer<T> =
    | Ready
    | Sampled(value: T, tail: nat)      // has loaded both counters
    | Stored                            // has written the slot, not yet published

  datatype Consumer<T> =
    | Waiting
    | Looked(head: nat)                 // has loaded both counters
    | Fetched(value: T)                 // has read the slot, not yet published

  /**
   `log` lists all values written to slots, in order; write number n goes to slot `SlotOf(n)`. `head` and `tail`
   count publications without wrapping; memory holds them modulo 2^64, and the tests of the code see only that.
   */
  datatype Sys<T> = Sys(bits: nat, log: seq<T>, head: nat, tail: nat, producer: Producer<T>, consumer: Consumer<T>,
                        seenTail: nat, seenHead: nat, popped: seq<T>)

  datatype Step<T> =
    | Sample(value: T, tail: nat)
    | Refuse
    | Store
    | Publish
    | Look(head: nat)
    | FindEmpty
    | Fetch(version: nat)
    | Release

  function Initial<T>(bits: nat): Sys<T> { Sys(bits, [], 0, 0, Ready, Waiting, 0, 0, []) }

  /** The producer's test: `head - tail >= Capacity` on 64-bit counters. */
  predicate Full<T>(s: Sys<T>, tail: nat) { Wrap64(Wrap64(s.head) - Wrap64(tail)) >= Pow2(s.bits) }

  /** Write number n of the log may be what a read of the consumer's slot returns. */
  ghost predicate MaySee<T>(s: Sys<T>, head: nat, n: nat) {
    n < |s.log| && SlotOf(n, s.bits) == SlotOf(s.tail, s.bits) &&
    forall m: nat :: n < m < head ==> SlotOf(m, s.bits) != SlotOf(s.tail, s.bits)
  }

  ghost predicate Enabled<T>(s: Sys<T>, step: Step<T>) {
    match step
    case Sample(_, tail) => s.producer.Ready? && s.seenTail <= tail <= s.tail
    case Refuse => s.producer.Sampled? && Full(s, s.producer.tail)
    case Store => s.producer.Sampled? && !Full(s, s.producer.tail)
    case Publish => s.producer.Stored?
    case Look(head) => s.consumer.Waiting? && s.seenHead <= head <= s.head
    case FindEmpty => s.consumer.Looked? && Wrap64(s.tail) == Wrap64(s.consumer.head)
    case Fetch(n) => s.consumer.Looked? && Wrap64(s.tail) != Wrap64(s.consumer.head) && MaySee(s, s.consumer.head, n)
    case Release => s.consumer.Fetched?
  }

  function Take<T>(s: Sys<T>, step: Step<T>): Sys<T>
    requires Enabled(s, step)
  {
    match step
    case Sample(v, tail) => s.(producer := Sampled(v, tail), seenTail := tail)
    case Refuse => s.(producer := Ready)
    case Store => s.(producer := Stored, log := s.log + [s.producer.value])
    case Publish => s.(producer := Ready, head := s.head + 1)
    case Look(head) => s.(consumer := Looked(head), seenHead := head)
    case FindEmpty => s.(consumer := Waiting)
    case Fetch(n) => s.(consumer := Fetched(s.log[n]))
    case Release => s.(consumer := Waiting, tail := s.tail + 1, popped := s.popped + [s.consumer.value])
  }

  /** The steps of a run are enabled one after the other. */
  ghost predicate IsRun<T>(s: Sys<T>, steps: seq<Step<T>>)
    decreases |steps|
  {
    steps == [] || (Enabled(s, steps[0]) && IsRun(Take(s, steps[0]), steps[1..]))
  }

  ghost function After<T>(s: Sys<T>, steps: seq<Step<T>>): Sys<T>
    requires IsRun(s, steps)
    decreases |steps|
  {
    if steps == [] then s else After(Take(s, steps[0]), steps[1..])
  }

  /** What every step of either thread keeps. */
  ghost predicate Inv<T>(s: Sys<T>) {
    1 <= s.bits <= 63 && |s.log| == s.head + (if s.producer.Stored? then 1 else 0) &&
    s.seenTail <= s.tail <= s.seenHead <= s.head && |s.log| <= s.seenTail + Pow2(s.bits) &&
    (s.producer.Sampled? ==> s.producer.tail == s.seenTail) &&
    (s.consumer.Looked? ==> s.consumer.head == s.seenHead) &&
    (s.consumer.Fetched? ==> s.tail < s.seenHead && s.consumer.value == s.log[s.tail]) &&
    s.popped == s.log[..s.tail]
  }

  /** The wrapped tests of both threads decide what the unwrapped counters say. */
  lemma {:induction false} TestsExact<T>(s: Sys<T>)
    requires Inv(s)
    ensures s.producer.Sampled? ==> (Full(s, s.producer.tail) <==> s.head == s.seenTail + Pow2(s.bits))
    ensures s.consumer.Looked? ==> (Wrap64(s.tail) == Wrap64(s.consumer.head) <==> s.tail == s.seenHead)
  {
    hide Pow2, Wrap64;
    Capacities(s.bits);
    if s.producer.Sampled? { WrapDifference(s.head, s.seenTail); }
    if s.consumer.Looked? { WrapEqual(s.consumer.head, s.tail); }
  }

  /** Race freedom of the consumer: a slot read has only one possible result, the oldest item not yet popped. */
  lemma {:induction false} OnlyOneVersion<T>(s: Sys<T>, n: nat)
    requires Inv(s) && s.consumer.Looked? && s.tail < s.seenHead
    ensures MaySee(s, s.consumer.head, n) <==> n == s.tail
  {
    hide Pow2;
    assert n > s.tail && n < |s.log| ==> SlotOf(n, s.bits) != SlotOf(s.tail, s.bits) by {
      if s.tail < n < |s.log| { SlotsDiffer(s.tail, n, s.bits); }
    }
    forall m: nat | s.tail < m < s.consumer.head ensures SlotOf(m, s.bits) != SlotOf(s.tail, s.bits) {
      SlotsDiffer(s.tail, m, s.bits);
    }
  }

  /** Race freedom of the producer: every earlier item of the slot it writes has been popped. */
  lemma {:induction false} OverwritesOnlyPopped<T>(s: Sys<T>, n: nat)
    requires Inv(s) && Enabled(s, Step<T>.Store) && n < |s.log| && SlotOf(n, s.bits) == SlotOf(s.head, s.bits)
    ensures n < s.seenTail
  {
    TestsExact(s);
    hide Pow2;
    if n >= s.seenTail { SlotsDiffer(n, s.head, s.bits); }
  }

  lemma {:induction false} StepKeeps<T>(s: Sys<T>, step: Step<T>)
    requires Inv(s) && Enabled(s, step)
    ensures Inv(Take(s, step)) && Take(s, step).bits == s.bits
  {
    TestsExact(s);
    if step.Fetch? { OnlyOneVersion(s, step.version); }
    hide Pow2, Wrap64;
  }

  lemma {:induction false} RunsKeep<T>(s: Sys<T>, steps: seq<Step<T>>)
    requires Inv(s) && IsRun(s, steps)
    ensures Inv(After(s, steps)) && After(s, steps).bits == s.bits
    decreases |steps|
  {
    hide Inv, Enabled;
    if steps != [] {
      StepKeeps(s, steps[0]);
      RunsKeep(Take(s, steps[0]), steps[1..]);
    }
  }

  /** The values of the accepted pushes, in order: those whose item has been published. */
  ghost function Pushed<T>(s: Sys<T>): seq<T>
    requires s.head <= |s.log|
  {
    s.log[..s.head]
  }

  /**
   Safety of every interleaving: what has been popped is a prefix of what has been pushed, in order and
   without loss or duplication, and never more than the capacity is in flight.
   */
  lemma {:induction false} FifoSafety<T>(bits: nat, steps: seq<Step<T>>)
    requires 1 <= bits <= 63 && IsRun(Initial<T>(bits), steps)
    ensures var s := After(Initial<T>(bits), steps);
            s.head <= |s.log| && s.popped <= Pushed(s) && |Pushed(s)| - |s.popped| <= Pow2(bits)
  {
    RunsKeep(Initial<T>(bits), steps);
  }

  /** A refusal on a current view of the other counter is truthful, and both threads cannot be refused at once. */
  lemma {:induction false} NeverBothStuck<T>(s: Sys<T>)
    requires Inv(s) && s.producer.Sampled? && s.producer.tail == s.tail && s.consumer.Looked? &&
             s.consumer.head == s.head
    ensures Enabled(s, Step<T>.Refuse) <==> s.head == s.tail + Pow2(s.bits)
    ensures Enabled(s, Step<T>.FindEmpty) <==> s.head == s.tail
    ensures !(Enabled(s, Step<T>.Refuse) && Enabled(s, Step<T>.FindEmpty))
  {
    TestsExact(s);
    hide Pow2, Wrap64;
  }
}
