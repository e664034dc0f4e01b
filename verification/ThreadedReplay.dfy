/**
 Threaded replay: one thread decodes and pushes every message, retrying while the ring is full, and then
 sets a flag; the other pops and processes until it has seen the flag and then an empty ring.
 */
module ThreadedReplay {
  import opened Types
  import opened Wrapping
  import opened Spsc
  import opened Interleaving
  import opened Messages
  import opened BookSpec
  import opened Processing

  /** Where the consumer stands in `while (!done || !empty()) try_pop()`. */
  datatype Phase = Checking | SawDone | Popping | Left

  /** What the consumer has processed is `ring.popped`: it processes each message right after popping it. */
  datatype Replay<T> = Replay(ring: Sys<T>, todo: seq<T>, done: bool, phase: Phase)

  datatype Move<T> =
    | Produce(step: Step<T>)
    | Finish
    | Check(seen: bool)
    | TestEmpty(head: nat)
    | Consume(step: Step<T>)

  function Start<T>(bits: nat, messages: seq<T>): Replay<T> { Replay(Initial(bits), messages, false, Checking) }

  /**
   The flag may be seen late but not early. Seeing it synchronises: all pushes happened before it was set, so
   later loads of the producer's counter return its last value.
   */
  ghost predicate Allowed<T>(r: Replay<T>, m: Move<T>) {
    match m
    case Produce(step) =>
      Enabled(r.ring, step) && !r.done &&
      (match step
       case Sample(v, _) => r.todo != [] && v == r.todo[0]
       case Refuse => true
       case Store => true
       case Publish => r.todo != []
       case _ => false)
    case Finish => !r.done && r.ring.producer.Ready? && r.todo == []
    case Check(seen) => r.phase.Checking? && (seen ==> r.done)
    case TestEmpty(head) => r.phase.SawDone? && r.ring.seenHead <= head <= r.ring.head
    case Consume(step) =>
      r.phase.Popping? && Enabled(r.ring, step) &&
      (step.Look? || step.FindEmpty? || step.Fetch? || step.Release?)
  }

  function Perform<T>(r: Replay<T>, m: Move<T>): Replay<T>
    requires Allowed(r, m)
  {
    match m
    case Produce(step) => r.(ring := Take(r.ring, step), todo := if step.Publish? then r.todo[1..] else r.todo)
    case Finish => r.(done := true)
    case Check(seen) => if seen then r.(phase := SawDone, ring := r.ring.(seenHead := r.ring.head))
      else r.(phase := Popping)
    case TestEmpty(head) =>
      r.(phase := if Wrap64(r.ring.tail) == Wrap64(head) then Left else Popping, ring := r.ring.(seenHead := head))
    case Consume(step) => r.(ring := Take(r.ring, step), phase := if step.FindEmpty? ||
                             step.Release? then Checking else Popping)
  }

  ghost predicate IsReplay<T>(r: Replay<T>, moves: seq<Move<T>>)
    decreases |moves|
  {
    moves == [] || (Allowed(r, moves[0]) && IsReplay(Perform(r, moves[0]), moves[1..]))
  }

  ghost function Outcome<T>(r: Replay<T>, moves: seq<Move<T>>): Replay<T>
    requires IsReplay(r, moves)
    decreases |moves|
  {
    if moves == [] then r else Outcome(Perform(r, moves[0]), moves[1..])
  }

  ghost predicate ReplayInv<T>(r: Replay<T>, messages: seq<T>) {
    Inv(r.ring) && Pushed(r.ring) + r.todo == messages &&
    (r.ring.producer.Sampled? ==> r.todo != [] && r.ring.producer.value == r.todo[0]) &&
    (r.ring.producer.Stored? ==> r.todo != [] && r.ring.log[r.ring.head] == r.todo[0]) &&
    (r.done ==> r.ring.producer.Ready? && r.todo == []) &&
    (!r.phase.Popping? ==> r.ring.consumer.Waiting?) &&
    (r.phase.SawDone? ==> r.done && r.ring.seenHead == r.ring.head) &&
    (r.phase.Left? ==> r.done && r.ring.tail == r.ring.head)
  }

  lemma {:induction false} PushedKept<T>(s: Sys<T>, step: Step<T>)
    requires Inv(s) && Enabled(s, step)
    ensures Inv(Take(s, step))
    ensures step.Publish? ==> Pushed(Take(s, step)) == Pushed(s) + [s.log[s.head]]
    ensures !step.Publish? ==> Pushed(Take(s, step)) == Pushed(s)
  {
    hide Wrap64, Pow2, MaySee;
    StepKeeps(s, step);
  }

  lemma {:induction false} EmptyTest<T>(s: Sys<T>, head: nat)
    requires Inv(s) && s.seenHead <= head <= s.head
    ensures Wrap64(s.tail) == Wrap64(head) <==> s.tail == head
  {
    hide Wrap64, Pow2;
    Capacities(s.bits);
    WrapEqual(head, s.tail);
  }

  lemma {:induction false} MoveKeeps<T>(r: Replay<T>, m: Move<T>, messages: seq<T>)
    requires ReplayInv(r, messages) && Allowed(r, m)
    ensures ReplayInv(Perform(r, m), messages)
  {
    hide Wrap64, Pow2, MaySee, Pushed;
    match m
    case Produce(step) =>
      PushedKept(r.ring, step);
      if step.Publish? {
        assert Pushed(r.ring) + [r.todo[0]] + r.todo[1..] == Pushed(r.ring) + r.todo;
      }
    case Consume(step) => PushedKept(r.ring, step);
    case TestEmpty(head) =>
      EmptyTest(r.ring, head);
      PushedSame(r.ring, head);
    case Check(seen) => PushedSame(r.ring, r.ring.head);
    case Finish =>
  }

  lemma {:induction false} PushedSame<T>(s: Sys<T>, seen: nat)
    requires s.head <= |s.log|
    ensures Pushed(s.(seenHead := seen)) == Pushed(s)
  {}

  lemma {:induction false} ReplayKeeps<T>(r: Replay<T>, moves: seq<Move<T>>, messages: seq<T>)
    requires ReplayInv(r, messages) && IsReplay(r, moves)
    ensures ReplayInv(Outcome(r, moves), messages)
    decreases |moves|
  {
    hide ReplayInv, Allowed;
    if moves != [] {
      MoveKeeps(r, moves[0], messages);
      ReplayKeeps(Perform(r, moves[0]), moves[1..], messages);
    }
  }

  lemma {:induction false} StartInv<T>(bits: nat, messages: seq<T>)
    requires 1 <= bits <= 63
    ensures ReplayInv(Start(bits, messages), messages)
  {
    hide Pow2;
    assert Pushed(Initial<T>(bits)) == [];
  }

  /**
   In every interleaving the consumer has processed a prefix of the decoded messages, in order; when it
   leaves its loop it has processed all of them.
   */
  lemma {:induction false} NothingLost<T>(bits: nat, messages: seq<T>, moves: seq<Move<T>>)
    requires 1 <= bits <= 63 && IsReplay(Start(bits, messages), moves)
    ensures var r := Outcome(Start(bits, messages), moves);
            r.ring.popped <= messages && (r.phase.Left? ==> r.ring.popped == messages)
  {
    hide Pow2, Allowed;
    StartInv(bits, messages);
    ReplayKeeps(Start(bits, messages), moves, messages);
    var r := Outcome(Start(bits, messages), moves);
    assert messages[..|Pushed(r.ring)|] == Pushed(r.ring);
    assert r.ring.popped == Pushed(r.ring)[..r.ring.tail];
  }

  /** Threaded replay ends with the book and the counters of single-threaded replay. */
  lemma {:induction false} SameAsSingleThreaded(bits: nat, messages: seq<Message>, moves: seq<Move<Message>>, d: Desk,
                                                lim: Limits, symbol: seq<u8>)
    requires 1 <= bits <= 63 && IsReplay(Start(bits, messages), moves) &&
             Outcome(Start(bits, messages), moves).phase.Left?
    ensures ReplayAll(d, lim, symbol, Outcome(Start(bits, messages), moves).ring.popped) ==
              ReplayAll(d, lim, symbol, messages)
  {
    NothingLost(bits, messages, moves);
  }

  // ---------- Progress ----------

  /** A move that a scheduler with current views would make, the producer first. */
  ghost function Scheduled<T>(r: Replay<T>): Move<T>
    requires Inv(r.ring)
  {
    var s := r.ring;
    if s.producer.Stored? then Produce(Publish)
    else if s.producer.Sampled? then (if Full(s, s.producer.tail) then Produce(Refuse) else Produce(Store))
    else if !r.done && r.todo == [] then Finish
    else if !r.done && s.head < s.tail + Pow2(s.bits) then Produce(Sample(r.todo[0], s.tail))
    else
      match r.phase
      case Checking => Check(r.done)
      case SawDone => TestEmpty(s.head)
      case Popping =>
        (match s.consumer
         case Waiting => Consume(Look(s.head))
         case Looked(head) => if Wrap64(s.tail) == Wrap64(head) then Consume(FindEmpty) else Consume(Fetch(s.tail))
         case Fetched(_) => Consume(Release))
      case Left => Finish
  }

  /** Messages still to be pushed and popped, and the flag still to be set. */
  function Work<T>(r: Replay<T>, messages: seq<T>): int {
    |r.todo| + |messages| - r.ring.tail + (if r.done then 0 else 1)
  }

  ghost function ProducerRank<T>(s: Sys<T>): nat {
    match s.producer
    case Sampled(_, tail) => if Full(s, tail) then 3 else 1
    case Ready => 2
    case Stored => 0
  }

  ghost function ConsumerRank<T>(r: Replay<T>): nat {
    var empty := r.ring.tail == r.ring.head;
    match r.phase
    case Left => 0
    case Checking => if empty then 3 else 6
    case SawDone => if empty then 2 else 5
    case Popping =>
      (match r.ring.consumer
       case Waiting => if empty then 5 else 4
       case Looked(head) => if empty then 4 else if r.ring.tail == head then 7 else 3
       case Fetched(_) => 2)
  }

  lemma {:induction false} ScheduledProgress<T>(r: Replay<T>, messages: seq<T>)
    requires ReplayInv(r, messages) && !r.phase.Left?
    ensures Inv(r.ring)
    ensures var m := Scheduled(r);
            Allowed(r, m) &&
            (var r' := Perform(r, m);
             0 <= Work(r', messages) <= Work(r, messages) &&
             (Work(r', messages) < Work(r, messages) || ProducerRank(r'.ring) < ProducerRank(r.ring) ||
              (ProducerRank(r'.ring) == ProducerRank(r.ring) && ConsumerRank(r') < ConsumerRank(r))))
  {
    TestsExact(r.ring);
    EmptyTest(r.ring, r.ring.head);
    if r.ring.consumer.Looked? && r.ring.tail < r.ring.seenHead { OnlyOneVersion(r.ring, r.ring.tail); }
    SampleAccepted(r.ring);
    hide Wrap64, MaySee;
    assert |Pushed(r.ring)| == r.ring.head;
    assert |messages| == r.ring.head + |r.todo|;
  }

  /** A view taken while there is room is not refused. */
  lemma {:induction false} SampleAccepted<T>(s: Sys<T>)
    requires Inv(s)
    ensures s.head < s.tail + Pow2(s.bits) ==> !Full(s, s.tail)
  {
    hide Pow2, Wrap64;
    Capacities(s.bits);
    WrapDifference(s.head, s.tail);
  }

  /** No deadlock and no inescapable spinning: from every reachable state the replay can run to its end. */
  lemma {:induction false} CanFinish<T>(r: Replay<T>, messages: seq<T>) returns (moves: seq<Move<T>>)
    requires ReplayInv(r, messages)
    ensures IsReplay(r, moves) && Outcome(r, moves).phase.Left?
    decreases Work(r, messages), ProducerRank(r.ring), ConsumerRank(r)
  {
    hide ReplayInv, Work, ProducerRank, ConsumerRank, Scheduled, Allowed;
    if r.phase.Left? {
      moves := [];
    } else {
      ScheduledProgress(r, messages);
      var m := Scheduled(r);
      MoveKeeps(r, m, messages);
      var rest := CanFinish(Perform(r, m), messages);
      moves := [m] + rest;
      assert moves[1..] == rest;
    }
  }
}
