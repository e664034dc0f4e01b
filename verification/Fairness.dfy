/**
 Liveness of the threaded replay. A run goes on for ever, possibly idling; it is weakly fair to both threads,
 and what one thread publishes the other sees eventually. Every such run reaches the end of the consumer's loop.
 */
module Fairness {
  import opened Types
  import opened Wrapping
  import opened Interleaving
  import opened ThreadedReplay

  /** The state before each instant, and the move made then, if any. */
  datatype Trace<T> = Trace(state: nat -> Replay<T>, move: nat -> Option<Move<T>>)

  ghost predicate Moves<T>(t: Trace<T>, i: nat) {
    match t.move(i)
    case None => t.state(i + 1) == t.state(i)
    case Some(m) => Allowed(t.state(i), m) && t.state(i + 1) == Perform(t.state(i), m)
  }

  predicate ByProducer<T>(m: Move<T>) { m.Produce? || m.Finish? }

  ghost predicate CanMove<T(!new)>(r: Replay<T>, producer: bool) {
    exists m: Move<T> :: ByProducer(m) == producer && Allowed(r, m)
  }

  /** Instant j finds the thread disabled, or it moves. */
  ghost predicate Served<T(!new)>(t: Trace<T>, producer: bool, j: nat) {
    !CanMove(t.state(j), producer) || (t.move(j).Some? && ByProducer(t.move(j).value) == producer)
  }

  /** Weak fairness: from any instant on, each thread is served again. */
  ghost predicate Fair<T(!new)>(t: Trace<T>) {
    forall i: nat, producer: bool :: ServedFrom(t, producer, i)
  }

  ghost predicate ServedFrom<T(!new)>(t: Trace<T>, producer: bool, i: nat) {
    exists j :: i <= j && Served(t, producer, j)
  }

  /** The move's load of the other thread's counter or flag is at least as recent as in r. */
  predicate Sees<T>(m: Move<T>, r: Replay<T>) {
    match m
    case Produce(Sample(_, tail)) => r.ring.tail <= tail
    case Consume(Look(head)) => r.ring.head <= head
    case TestEmpty(head) => r.ring.head <= head
    case Check(seen) => r.done ==> seen
    case _ => true
  }

  ghost predicate SeesAt<T>(t: Trace<T>, j: nat, r: Replay<T>) { t.move(j).Some? ==> Sees(t.move(j).value, r) }

  ghost predicate SeenFrom<T>(t: Trace<T>, b: nat, r: Replay<T>) { forall j :: b <= j ==> SeesAt(t, j, r) }

  /** Each publication is seen by all loads from some instant on. */
  ghost predicate Visible<T>(t: Trace<T>) {
    forall i: nat :: SeenSometime(t, i)
  }

  ghost predicate SeenSometime<T>(t: Trace<T>, i: nat) { exists b: nat :: SeenFrom(t, b, t.state(i)) }

  ghost predicate FairRun<T(!new)>(t: Trace<T>, bits: nat, messages: seq<T>) {
    t.state(0) == Start(bits, messages) && (forall i: nat :: Moves(t, i)) && Fair(t) && Visible(t)
  }

  // ---------- No thread is ever disabled before its end ----------

  lemma {:induction false} ProducerEnabled<T(!new)>(r: Replay<T>, messages: seq<T>)
    requires ReplayInv(r, messages) && !r.done
    ensures CanMove(r, true)
  {
    hide Wrap64, Pow2;
    var m: Move<T> :=
      match r.ring.producer
      case Stored => Produce(Publish)
      case Sampled(_, tail) => if Full(r.ring, tail) then Produce(Refuse) else Produce(Store)
      case Ready => if r.todo == [] then Finish else Produce(Sample(r.todo[0], r.ring.tail));
    assert ByProducer(m) && Allowed(r, m);
  }

  lemma {:induction false} ConsumerEnabled<T(!new)>(r: Replay<T>, messages: seq<T>)
    requires ReplayInv(r, messages) && !r.phase.Left?
    ensures CanMove(r, false)
  {
    TestsExact(r.ring);
    if r.ring.consumer.Looked? && r.ring.tail < r.ring.seenHead { OnlyOneVersion(r.ring, r.ring.tail); }
    hide Wrap64, Pow2, MaySee;
    var m: Move<T> :=
      match r.phase
      case Checking => Check(r.done)
      case SawDone => TestEmpty(r.ring.head)
      case Popping =>
        (match r.ring.consumer
         case Waiting => Consume(Look(r.ring.head))
         case Looked(head) =>
           if Wrap64(r.ring.tail) == Wrap64(head) then Consume(FindEmpty) else Consume(Fetch(r.ring.tail))
         case Fetched(_) => Consume(Release));
    assert !ByProducer(m) && Allowed(r, m);
  }

  // ---------- Progress ----------

  /** The thread that must move next for the work to shrink is the producer. */
  predicate ProducersTurn<T>(r: Replay<T>) { !r.done && r.ring.tail == r.ring.head }

  ghost function Rank<T>(r: Replay<T>): nat {
    if ProducersTurn(r) then ProducerRank(r.ring) else ConsumerRank(r)
  }

  /**
   One move on a current view: the work shrinks, or it is still the same thread's turn and that thread's move
   lowers its rank.
   */
  lemma {:induction false} MoveProgress<T>(r: Replay<T>, m: Move<T>, messages: seq<T>)
    requires ReplayInv(r, messages) && Allowed(r, m) && !r.phase.Left?
    ensures var r' := Perform(r, m);
            0 <= Work(r', messages) <= Work(r, messages) &&
            (Work(r', messages) == Work(r, messages) ==>
               r'.done == r.done && r'.ring.tail == r.ring.tail && r'.ring.head == r.ring.head) &&
            (Work(r', messages) == Work(r, messages) && Sees(m, r) && !r'.phase.Left? ==>
               if ByProducer(m) == ProducersTurn(r) then Rank(r') < Rank(r) else Rank(r') == Rank(r))
  {
    TestsExact(r.ring);
    EmptyTest(r.ring, r.ring.head);
    SampleAccepted(r.ring);
    hide Wrap64, MaySee;
    assert |Pushed(r.ring)| == r.ring.head;
    assert |messages| == r.ring.head + |r.todo|;
  }

  ghost predicate SameStage<T>(a: Replay<T>, b: Replay<T>) {
    a.done == b.done && a.ring.tail == b.ring.tail && a.ring.head == b.ring.head
  }

  lemma {:induction false} InvAt<T(!new)>(t: Trace<T>, bits: nat, messages: seq<T>, i: nat)
    requires 1 <= bits <= 63 && FairRun(t, bits, messages)
    ensures ReplayInv(t.state(i), messages)
  {
    hide ReplayInv, Allowed, Fair, Visible;
    if i == 0 {
      StartInv(bits, messages);
    } else {
      InvAt(t, bits, messages, i - 1);
      assert Moves(t, i - 1);
      if t.move(i - 1).Some? { MoveKeeps(t.state(i - 1), t.move(i - 1).value, messages); }
    }
  }

  /** Instant k, not before i, is at the end or has less work left than instant i. */
  ghost predicate Ahead<T>(t: Trace<T>, messages: seq<T>, i: nat, k: nat) {
    i <= k && (t.state(k).phase.Left? || Work(t.state(k), messages) < Work(t.state(i), messages))
  }

  ghost predicate GetsAhead<T>(t: Trace<T>, messages: seq<T>, i: nat) { exists k :: Ahead(t, messages, i, k) }

  /** What cannot change between i and j while nothing gets ahead. */
  ghost predicate Waiting<T>(t: Trace<T>, messages: seq<T>, i: nat, j: nat) {
    i <= j && !t.state(j).phase.Left? && Work(t.state(j), messages) == Work(t.state(i), messages) &&
    SameStage(t.state(j), t.state(i))
  }

  lemma {:induction false} Idles<T(!new)>(t: Trace<T>, bits: nat, messages: seq<T>, i: nat, j: nat)
    requires 1 <= bits <= 63 && FairRun(t, bits, messages) && Waiting(t, messages, i, j)
    ensures GetsAhead(t, messages, i) || Waiting(t, messages, i, j + 1)
    ensures GetsAhead(t, messages, i) || !SeesAt(t, j, t.state(i)) ||
            Rank(t.state(j + 1)) < Rank(t.state(j)) ||
            (Rank(t.state(j + 1)) == Rank(t.state(j)) &&
             !(t.move(j).Some? && ByProducer(t.move(j).value) == ProducersTurn(t.state(j))))
  {
    hide ReplayInv, Allowed, Fair, Visible, Rank, Work;
    InvAt(t, bits, messages, j);
    assert Moves(t, j);
    if t.move(j).Some? {
      var m := t.move(j).value;
      MoveProgress(t.state(j), m, messages);
      assert SeesAt(t, j, t.state(i)) ==> Sees(m, t.state(j));
      if !Waiting(t, messages, i, j + 1) { assert Ahead(t, messages, i, j + 1); }
    }
  }

  /** While nothing gets ahead and views are current, the rank does not rise. */
  lemma {:induction false} RankKept<T(!new)>(t: Trace<T>, bits: nat, messages: seq<T>, i: nat, b: nat, j: nat, k: nat)
    requires 1 <= bits <= 63 && FairRun(t, bits, messages)
    requires Waiting(t, messages, i, j) && b <= j <= k && SeenFrom(t, b, t.state(i))
    ensures GetsAhead(t, messages, i) || (Waiting(t, messages, i, k) && Rank(t.state(k)) <= Rank(t.state(j)))
    decreases k - j
  {
    hide FairRun, Waiting, GetsAhead, Rank, SeesAt;
    if j < k {
      Idles(t, bits, messages, i, j);
      assert SeesAt(t, j, t.state(i));
      if !GetsAhead(t, messages, i) { RankKept(t, bits, messages, i, b, j + 1, k); }
    }
  }

  /** The next turn of the thread that must move. */
  lemma {:induction false} NextTurn<T(!new)>(t: Trace<T>, bits: nat, messages: seq<T>, j: nat) returns (k: nat)
    requires 1 <= bits <= 63 && FairRun(t, bits, messages)
    ensures j <= k && Served(t, ProducersTurn(t.state(j)), k)
  {
    hide Served;
    assert ServedFrom(t, ProducersTurn(t.state(j)), j);
    k :| j <= k && Served(t, ProducersTurn(t.state(j)), k);
  }

  lemma {:induction false} ServedMoves<T(!new)>(t: Trace<T>, bits: nat, messages: seq<T>, i: nat, j: nat)
    requires 1 <= bits <= 63 && FairRun(t, bits, messages)
    requires Waiting(t, messages, i, j) && Served(t, ProducersTurn(t.state(i)), j)
    ensures t.move(j).Some? && ByProducer(t.move(j).value) == ProducersTurn(t.state(j)) == ProducersTurn(t.state(i))
  {
    hide ReplayInv, FairRun, CanMove;
    InvAt(t, bits, messages, j);
    if ProducersTurn(t.state(i)) {
      ProducerEnabled(t.state(j), messages);
    } else {
      ConsumerEnabled(t.state(j), messages);
    }
  }

  /** Once the other thread's publications are visible, the thread whose turn it is gets ahead. */
  lemma {:induction false} TurnsRunOut<T(!new)>(t: Trace<T>, bits: nat, messages: seq<T>, i: nat, b: nat, j: nat)
    requires 1 <= bits <= 63 && FairRun(t, bits, messages)
    requires Waiting(t, messages, i, j) && b <= j && SeenFrom(t, b, t.state(i))
    ensures GetsAhead(t, messages, i)
    decreases Rank(t.state(j))
  {
    hide FairRun, GetsAhead, Rank, SeesAt, Served, Work;
    var k := NextTurn(t, bits, messages, j);
    RankKept(t, bits, messages, i, b, j, k);
    if !GetsAhead(t, messages, i) {
      ServedMoves(t, bits, messages, i, k);
      Idles(t, bits, messages, i, k);
      assert SeesAt(t, k, t.state(i));
      TurnsRunOut(t, bits, messages, i, b, k + 1);
    }
  }

  lemma {:induction false} WaitsOn<T(!new)>(t: Trace<T>, bits: nat, messages: seq<T>, i: nat, k: nat)
    requires 1 <= bits <= 63 && FairRun(t, bits, messages) && i <= k && !t.state(i).phase.Left?
    ensures GetsAhead(t, messages, i) || Waiting(t, messages, i, k)
    decreases k - i
  {
    hide FairRun, GetsAhead, Rank, SeesAt;
    if i < k {
      WaitsOn(t, bits, messages, i, k - 1);
      if !GetsAhead(t, messages, i) { Idles(t, bits, messages, i, k - 1); }
    }
  }

  lemma {:induction false} SomeoneGetsAhead<T(!new)>(t: Trace<T>, bits: nat, messages: seq<T>, i: nat)
    requires 1 <= bits <= 63 && FairRun(t, bits, messages) && !t.state(i).phase.Left?
    ensures GetsAhead(t, messages, i)
  {
    hide Fair, GetsAhead, Waiting, SeesAt, SeenFrom;
    assert SeenSometime(t, i);
    var b: nat :| SeenFrom(t, b, t.state(i));
    var j := if b < i then i else b;
    WaitsOn(t, bits, messages, i, j);
    if !GetsAhead(t, messages, i) { TurnsRunOut(t, bits, messages, i, b, j); }
  }

  lemma {:induction false} EndsFrom<T(!new)>(t: Trace<T>, bits: nat, messages: seq<T>, i: nat) returns (k: nat)
    requires 1 <= bits <= 63 && FairRun(t, bits, messages)
    ensures i <= k && t.state(k).phase.Left?
    decreases Work(t.state(i), messages)
  {
    hide FairRun, Work;
    if t.state(i).phase.Left? {
      k := i;
    } else {
      SomeoneGetsAhead(t, bits, messages, i);
      var j :| Ahead(t, messages, i, j);
      if t.state(j).phase.Left? {
        k := j;
      } else {
        WorkLeft(t, bits, messages, i);
        WorkLeft(t, bits, messages, j);
        k := EndsFrom(t, bits, messages, j);
      }
    }
  }

  lemma {:induction false} WorkLeft<T(!new)>(t: Trace<T>, bits: nat, messages: seq<T>, i: nat)
    requires 1 <= bits <= 63 && FairRun(t, bits, messages)
    ensures Work(t.state(i), messages) >= 0
  {
    hide FairRun;
    InvAt(t, bits, messages, i);
    assert |Pushed(t.state(i).ring)| == t.state(i).ring.head;
  }

  /** Liveness: the consumer leaves its loop in every weakly fair run, with every message processed in order. */
  lemma {:induction false} EveryFairRunEnds<T(!new)>(t: Trace<T>, bits: nat, messages: seq<T>)
    requires 1 <= bits <= 63 && FairRun(t, bits, messages)
    ensures exists k :: t.state(k).phase.Left? && t.state(k).ring.popped == messages
  {
    hide FairRun;
    var k := EndsFrom(t, bits, messages, 0);
    InvAt(t, bits, messages, k);
    var ring := t.state(k).ring;
    assert Pushed(ring) + t.state(k).todo == Pushed(ring);
    assert ring.log[..ring.tail] == Pushed(ring);
  }

  // ---------- Such runs exist ----------

  /** The state after the first i moves of a finished replay; it idles afterwards. */
  ghost function StateAfter<T>(r: Replay<T>, moves: seq<Move<T>>, i: nat): Replay<T>
    requires IsReplay(r, moves)
    decreases i
  {
    if i == 0 || moves == [] then r else StateAfter(Perform(r, moves[0]), moves[1..], i - 1)
  }

  lemma {:induction false} StateAfterMoves<T>(r: Replay<T>, moves: seq<Move<T>>, i: nat)
    requires IsReplay(r, moves)
    ensures if i < |moves| then
              Allowed(StateAfter(r, moves, i), moves[i]) &&
              StateAfter(r, moves, i + 1) == Perform(StateAfter(r, moves, i), moves[i])
            else StateAfter(r, moves, i) == Outcome(r, moves)
    decreases i
  {
    hide Allowed;
    if moves != [] && i > 0 { StateAfterMoves(Perform(r, moves[0]), moves[1..], i - 1); }
  }

  lemma {:induction false} EndIsQuiet<T(!new)>(r: Replay<T>, producer: bool)
    requires r.done && r.phase.Left?
    ensures !CanMove(r, producer)
  {}

  /** The definition is not empty: the finite schedule that ends the replay, followed by idling, is a fair run. */
  lemma {:induction false} FairRunsExist<T(!new)>(bits: nat, messages: seq<T>) returns (t: Trace<T>)
    requires 1 <= bits <= 63
    ensures FairRun(t, bits, messages)
  {
    hide Allowed, IsReplay, CanMove, ReplayInv;
    var start := Start(bits, messages);
    StartInv(bits, messages);
    var moves := CanFinish(start, messages);
    var n := |moves|;
    t := Trace(i => StateAfter(start, moves, i), i => if 0 <= i < n then Some(moves[i]) else None);
    forall i: nat ensures Moves(t, i) {
      StateAfterMoves(start, moves, i);
      StateAfterMoves(start, moves, i + 1);
    }
    forall i: nat, producer: bool ensures ServedFrom(t, producer, i) {
      var j := if i < n then n else i;
      StateAfterMoves(start, moves, j);
      Finished(start, moves, messages);
      EndIsQuiet(t.state(j), producer);
      assert Served(t, producer, j);
    }
    forall i: nat ensures SeenSometime(t, i) {
      assert SeenFrom(t, n, t.state(i));
    }
  }

  lemma {:induction false} Finished<T>(r: Replay<T>, moves: seq<Move<T>>, messages: seq<T>)
    requires ReplayInv(r, messages) && IsReplay(r, moves) && Outcome(r, moves).phase.Left?
    ensures Outcome(r, moves).done
  {
    ReplayKeeps(r, moves, messages);
    hide IsReplay, Outcome;
  }
}
