# A verified model of the ITCH order book

This project models a single-symbol NASDAQ ITCH order-book engine in Dafny and proves that it does what it
is for: the fixed-capacity book and its four interlocking structures, the ring between decoder and book, the
file framing, the MoldUDP64 decoder with its sequence gate, the wire format, and the generated benchmark feed.

`dafny verify dfyconfig.toml` checks everything.

## What is modelled

**The order book** (`OrderBooks.dfy` and the theory files it uses). The class `OrderBook` has the source's
fields and methods: two AVL trees with parent pointers in one level array, doubly linked FIFO queues through
the order array, an open-addressed lookup table with backward-shift deletion, and two index free lists. Its
ghost fields name the trees, the free lists and the abstract book that these arrays represent. `BookSpec.dfy` is
that abstract book: a map of orders and, for each side and price, the queue of order ids. Every public
operation is proved to refine it, return code included, and to leave every array, list and tree exactly as
it was when it returns an error. `BookLaws.dfy`, `Priority.dfy` and `Depth.dfy` then prove what runs of the
abstract book keep: conservation of shares, time priority, what replace refuses, what depth queries answer.

The proofs follow the structures. `LevelTree.dfy` relates the link fields to a mathematical tree and, for
loops that climb, to the path above a node; `AvlBalance.dfy`, `Rotations.dfy`, `Rebalance.dfy`,
`Splice.dfy`, `Successor.dfy` and `Removal.dfy` are the AVL argument; `Probing.dfy` is linear probing for an
arbitrary hash function; `Pools.dfy` and `Fifo.dfy` are the free lists and queues; `Represent.dfy`,
`Compose.dfy` and `Depart.dfy` put them together; `Walk.dfy` is the in-order walk of a depth query. `Cost.dfy`
bounds the loops over the trees: methods count their turns in a ghost result, and `MaxHeight(n)` is the greatest
height of an AVL tree with n levels, which is logarithmic in n.

Where a method is proved against a function, a relation that does not use that function says what it means, and
a lemma proves the two equal for all inputs: `Effects.dfy` and `Counters.dfy` for operations, messages and
counters, `DepthEntries.dfy` for quotes, `WireTable.dfy` for the wire format, `FrameCounts.dfy` for files,
`Epochs.dfy` and `Datagrams.dfy` for the sequence gate and datagrams, `GeneratedFeed.dfy` for the generator.

**The ring and threaded replay** (`Spsc.dfy`, `Interleaving.dfy`, `ThreadedReplay.dfy`, `Fairness.dfy`). The ring
is a class for its sequential meaning, and a state machine for two threads: each counter load, slot access
and publication is a step. A load of the other thread's counter may be stale, but not older than the last value
that thread saw (coherence). A slot read may return any value ever written to the slot unless the acquired
counter shows a later write; the proof is that one value remains. Counters wrap modulo 2^64. Liveness is over
infinite runs that are weakly fair and in which every publication is seen eventually.

**Decoders** (`Framing.dfy`, `FramedDecoders.dfy`, `Mold.dfy`, `MoldDecoders.dfy`, `Sequencing.dfy`,
`Capture.dfy`, `CaptureGate.dfy`, `Wire.dfy`, `Encoding.dfy`). The classes and loops of the source are proved
against functions on byte strings: byte-by-byte framing, splitting a datagram, fields at fixed offsets.

**The generator** (`Writers.dfy`, `Feeds.dfy`, `WorkloadBook.dfy`, `Benchmark.dfy`) and the **lookup benchmark**
(`LookupPolicy.dfy`).

## Conventions

- `Order*` is an index into the order array and `nullptr` is `NONE` (-1), like the source's `none`.
- `std::vector` fields that the book updates are `seq` fields that the methods reassign; `std::array` buffers
  and the caller's depth buffer are arrays. A parameter passed by reference is an in- and an out-parameter.
- A callback is the list of what it is called with, in order.
- 64-bit and 32-bit unsigned arithmetic wraps where the source's does (`Wrap64`, `Wrap32`), and the height is
  cast to int8 (`Int8`). `x & (2^k - 1)` is `x % 2^k`.
- The bit mixer of the hash is an arbitrary function of 64-bit numbers; the remainder by the table size is
  modelled. Nothing depends on its values.
- The order of checks and all error codes are the source's. The error branches that cannot be taken (a failing
  lookup insertion in add, a failing erase within replace) are proved unreachable.

## Where the code differs from what one would expect

- `replace` refuses a new price when no level is free, even if erasing the old order would free one.
  `Priority.ReplaceMeets` gives the exact condition and `Priority.ReplaceRefusesLoneMove` an instance.
- A rewind packet that straddles the expected number is not delivered but still advances it.
  `Sequencing.ContiguousExactly` gives the exact condition and `Sequencing.StraddlingLoses` an instance.
- `'h'` (operational halt) is declared 21 bytes long, but its reader takes 20: the byte after the stock is
  read as the action, and the last byte is never read (`Wire.FieldsTile`). The repository's README says that
  exact wire lengths are validated, which is true of the length but not of what is read.

## Model

| member | source | states |
|---|---|---|
| `OrderBooks.OrderBook.Update` | src/order_book.cpp:123-126 | only the stored height of one level changes; it becomes one more than the larger child height, cast to int8 |
| `OrderBooks.OrderBook.ReplaceChild` | src/order_book.cpp:127-136 | exactly the root or one child link, and the new child's parent link, are redirected |
| `OrderBooks.OrderBook.RotateLeft` | src/order_book.cpp:137-147 | the six link writes and both refreshed heights of a left rotation, and nothing else in the level array |
| `OrderBooks.OrderBook.RotateRight` | src/order_book.cpp:148-158 | the six link writes and both refreshed heights of a right rotation, and nothing else in the level array |
| `OrderBooks.OrderBook.FixLeftHeavy` | src/order_book.cpp:164-167 | single or double rotation replaces a left-heavy subtree by the rebalanced one with exact heights, touching only that subtree and the link above it |
| `OrderBooks.OrderBook.FixRightHeavy` | src/order_book.cpp:168-171 | the same for a right-heavy subtree, with the double rotation exactly when its right child leans left |
| `OrderBooks.OrderBook.RebalanceUp` | src/order_book.cpp:159-175 | from a node whose one child moved in height by at most one, climbing to the root restores a whole AVL tree: mutual links, exact heights, balance, the same nodes in the same price order; other levels are untouched; the loop takes at most MaxHeight(levels of the tree) turns |
| `AvlBalance.HeightBound` | src/order_book.cpp:14-19 | a balanced tree over at most INT32_MAX levels is at most 44 high, by the Fibonacci bound on its size |
| `AvlBalance.Int8Exact` | src/order_book.cpp:123-126 | the int8 cast keeps every height from 0 to 127, so with the bound above it never loses value |
| `AvlBalance.RebalancedIsBalanced` | src/order_book.cpp:161-172 | the rotations chosen by the two height tests restore balance and move the subtree height by at most one, so the caller's parent is again off by at most one |
| `AvlBalance.RebalancedKeepsOrder` | src/order_book.cpp:161-172 | the rotations keep the in-order sequence and the node set |
| `Rotations.RotateLeftLinks` | src/order_book.cpp:137-147 | after a left rotation anywhere in a tree, subtree and context are again mutually linked with exact heights |
| `Rebalance.ClimbStep` | src/order_book.cpp:159-175 | one turn of the loop turns a disturbed node into a disturbed parent, or a finished AVL tree at the root |
| `Rebalance.ClimbFacts` | src/order_book.cpp:159-162 | inside the loop, also in transient states, both child heights stay at most 44 and differ by at most 2 |
| `Cost.Logarithmic` | README.md:142 | MaxHeight(n), which bounds the turns of the tree loops, is at most 2 log2(n + 1) + 1: 2 to the power of half of it is at most n + 1 |
| `Cost.DescentCost` | docs/architecture.md:17-24 | a walk down an AVL tree, counting the node it has reached, is never longer than the greatest height an AVL tree of so many nodes can have |
| `Cost.ClimbCost` | docs/architecture.md:17-24 | the same for the climb of the rebalancing loop, although the tree is out of balance at the node where it stands |
| `Cost.MaxHeightBound` | src/order_book.cpp:14-19 | within INT32_MAX levels none of these bounds exceeds 44 |
| `OrderBooks.OrderBook.LevelFind` | src/order_book.cpp:176-182 | finds the level of a price in one side's tree, or shows that no level of the tree has it, in at most MaxHeight(levels of the tree) turns |
| `OrderBooks.OrderBook.Extreme` | src/order_book.cpp:228-235 | the first or last level of a subtree in price order, with its place in the tree, following one link per level of depth |
| `OrderBooks.OrderBook.LevelAcquire` | src/order_book.cpp:183-194 | pops the free list: exactly the first free slot becomes a fresh level; on exhaustion nothing changes |
| `OrderBooks.OrderBook.LevelRelease` | src/order_book.cpp:195-201 | pushes a blanked slot on the free list; nothing else changes |
| `OrderBooks.OrderBook.Attach` | src/order_book.cpp:211-226 | inserts a level for a price that the tree lacks: again an AVL tree in strict price order, with exactly that level more |
| `OrderBooks.OrderBook.LevelGetOrAdd` | src/order_book.cpp:202-227 | found: nothing changes; pool empty: the error and nothing changes; otherwise exactly one more price in that side's tree, and trees and pool stay sound and disjoint; at most 3 * MaxHeight(levels of the side) turns of its loops |
| `OrderBooks.OrderBook.SpliceSuccessor` | src/order_book.cpp:245-259 | the exact writes of the two-children removal, for a successor that is or is not the right child |
| `OrderBooks.OrderBook.UnlinkLevel` | src/order_book.cpp:238-259 | each of the three removal cases leaves the tree linked but for one disturbed node, from which rebalancing starts |
| `OrderBooks.OrderBook.LevelRemove` | src/order_book.cpp:236-262 | exactly the given level leaves its side's tree and goes to the front of the free list; both trees stay AVL, in strict price order and disjoint from the pool; at most 2 * MaxHeight(levels of the side) turns of its loops |
| `Successor.ReplaceBySuccessor` | src/order_book.cpp:245-259 | putting the successor in the removed node's place keeps links, heights and balance but for one hole, and drops exactly the removed node from the price order |
| `LevelIndex.AttachDone` | src/order_book.cpp:220-226 | the inserted level stands at its place in strict price order |
| `OrderBooks.OrderBook.LevelFor` | src/order_book.cpp:202-227 | the same, seen from the abstract book: the price has a level, or it is absent and the pool is empty |
| `OrderBooks.OrderBook.LookupFind` | src/order_book.cpp:51-59 | returns exactly what the represented map holds for the id, for every hash function |
| `OrderBooks.OrderBook.LookupInsert` | src/order_book.cpp:62-79 | succeeds exactly on absent ids and then represents the map with the entry added; otherwise nothing changes |
| `OrderBooks.OrderBook.LookupErase` | src/order_book.cpp:80-102 | represents the map without the id, and every other entry is found as before; no tombstone appears |
| `OrderBooks.OrderBook.ShiftBack` | src/order_book.cpp:86-99 | the backward-shift scan terminates and closes the hole, across the wrap of the table |
| `Probing.Absent` | src/order_book.cpp:53-58 | a probe that meets an empty slot, or has seen the table, proves the id absent |
| `Probing.ShiftStep` | src/order_book.cpp:88-97 | one turn of the scan keeps every remaining entry reachable, whichever way the crossing test goes, and comes closer to an empty slot |
| `Probing.ShiftEnd` | src/order_book.cpp:98 | blanking the hole at the end breaks no probe chain |
| `Probing.EmptyOnProbe` | src/order_book.cpp:27-28 | with fewer entries than slots and no tombstones, every probe of the whole table meets an empty slot |
| `OrderBooks.OrderBook.AcquireOrder` | src/order_book.cpp:104-113 | the first free slot is blanked and marked active; on exhaustion nothing changes |
| `OrderBooks.OrderBook.ReleaseOrder` | src/order_book.cpp:114-120 | the slot is blanked and becomes the first free one |
| `Compose.AcquireUndone` | src/order_book.cpp:104-120 | releasing a slot just acquired restores order array, free list and its head exactly |
| `Compose.ActiveCounts` | src/order_book.cpp:183-201 | active orders and levels equal capacity minus free-list length, and the sizes of the abstract maps |
| `OrderBooks.OrderBook.Append` | src/order_book.cpp:264-274 | the exact order and level arrays after linking an order in at the tail |
| `OrderBooks.OrderBook.Unlink` | src/order_book.cpp:275-286 | the exact order and level arrays after taking an order out of its queue |
| `Fifo.AppendQueued` | src/order_book.cpp:264-274 | the doubly linked queue becomes the old queue with the order at its end |
| `Fifo.UnlinkQueued` | src/order_book.cpp:275-286 | the doubly linked queue becomes the old queue without that one position, at the ends and in the middle |
| `Fifo.NoOverflow` | src/order_book.cpp:264-286 | no queue's 64-bit total or 32-bit count can overflow |
| `Represent.EnqueueOk` | src/order_book.cpp:300-311 | after appending, every level's queue, aggregates, ids and index entries match the abstract book with the order at the end of its price |
| `Represent.ReduceOk` | src/order_book.cpp:314-318 | after shares are taken off, every queue, aggregate and entry matches the abstract book with the smaller quantity |
| `Represent.DequeueOk` | src/order_book.cpp:335-344 | after unlinking and releasing, every queue, aggregate and entry matches the abstract book without the order |
| `Compose.CoreGrows` | src/order_book.cpp:202-227 | adding a price keeps trees, pools and all existing queues representing the same book |
| `Compose.CoreShrinks` | src/order_book.cpp:236-262 | dropping an empty price keeps trees, pools and all remaining queues representing the same book |
| `OrderBooks.OrderBook.Fill` | src/order_book.cpp:300-304 | exactly the acquired slot receives the new order's fields |
| `OrderBooks.OrderBook.Enter` | src/order_book.cpp:300-312 | fills in, indexes and queues an acquired slot; the source's lookup_full branch is proved unreachable here, because the lookup insertion cannot fail |
| `OrderBooks.OrderBook.Add` | src/order_book.cpp:288-313 | refines the abstract add, return code included; every error leaves arrays, trees, table, queues and free lists exactly as they were |
| `OrderBooks.OrderBook.Detach` | src/order_book.cpp:335-344 | takes an order out of its queue, the table and the order array |
| `OrderBooks.OrderBook.DropIfEmpty` | src/order_book.cpp:335-347 | removes the level exactly when its queue has become empty |
| `OrderBooks.OrderBook.Discard` | src/order_book.cpp:319-327 | the end that reduce and erase share: the abstract book without the order, the level gone with its last order |
| `OrderBooks.OrderBook.Reduce` | src/order_book.cpp:314-329 | refines the abstract execution: refusal of zero or too many shares, partial and full reduction |
| `OrderBooks.OrderBook.Execute` | src/order_book.cpp:330-333 | refines the abstract execution, return code and failure atomicity included; Effects.ReduceExactly says what that answers and does |
| `OrderBooks.OrderBook.Cancel` | src/order_book.cpp:334 | cancelling refines the same abstract operation as executing, which Effects.ReduceExactly characterises |
| `OrderBooks.OrderBook.Erase` | src/order_book.cpp:335-347 | refines the abstract erase, return code and failure atomicity included |
| `OrderBooks.OrderBook.Replace` | src/order_book.cpp:348-361 | refines the abstract replace: all or nothing, with the source's order of checks |
| `Depart.ReplaceDone` | src/order_book.cpp:358-360 | once the four checks have passed, the internal erase and add cannot fail, also for the same id, a lone order and full pools |
| `OrderBooks.OrderBook.Find` | src/order_book.cpp:60 | returns the resting order with its side, price and quantity, and nothing for an absent id |
| `OrderBooks.OrderBook.constructor` | src/order_book.cpp:23-37 | from the empty pools and table that the loops set up: the invariant holds for the empty book, with max(8, 2 * max_orders + 1) slots |
| `OrderBooks.OrderBook.Create` | src/order_book.cpp:14-26 | construction succeeds exactly for capacities between 1 and INT32_MAX and symbols of at most eight bytes |
| `OrderBooks.OrderBook.Run` | src/order_book.cpp:288-361 | every run of commands from any valid state is the abstract run: all return codes and the final book |
| `BookSpec.ApplyKeeps` | src/order_book.cpp:288-361 | every abstract command keeps orders and queues consistent and within capacity; a refused one changes nothing |
| `BookSpec.ReplaceKeeps` | src/order_book.cpp:354-360 | after the checks of replace, adding to the book without the old order gives exactly replace's outcome |
| `Effects.AddExactly` | src/order_book.cpp:288-313 | the outcome of an add, both ways: each error exactly under its condition in the order of checks; on success the order with its side, price and quantity stands last at its price and nothing else has changed |
| `Effects.ReduceExactly` | src/order_book.cpp:314-334 | the outcome of an execution or cancel, both ways: unknown_order exactly if the id does not rest, invalid_quantity exactly if it rests and the shares are 0 or more than it has, otherwise exactly those shares come off it, and with the last of them it leaves its place |
| `Effects.EraseExactly` | src/order_book.cpp:335-347 | the outcome of an erase, both ways: unknown_order exactly if the id does not rest, otherwise the order leaves its place, its price goes if it was alone there, and nothing else changes |
| `Effects.ReplaceExactly` | src/order_book.cpp:348-361 | the outcome of a replace, both ways: each error exactly under its condition in the order of checks; on success the old order has gone and the new one stands last at its price on the same side |
| `Effects.CommandExactly` | src/order_book.cpp:288-361 | every command has exactly the outcome stated for its kind |
| `Effects.RunExactly` | src/order_book.cpp:288-361 | in every run, answer number i and the book after it are those stated for command i on the book that the commands before it have left |
| `BookLaws.RunKeeps` | src/order_book.cpp:288-361 | over every abstract run the book stays consistent and within capacity and every command is answered; that no answer is lookup_full is part of the abstract operations by construction, and OrderBooks.OrderBook.Enter shows it of the program |
| `BookLaws.Conservation` | src/order_book.cpp:264-361 | over every run and on each side, shares resting = shares before + added - executed, cancelled, erased and replaced away |
| `Priority.TimePriority` | src/order_book.cpp:264-286 | over every run, an order that is neither erased nor replaced stays ahead of every order behind it |
| `Priority.NewOrdersLast` | src/order_book.cpp:310-361 | an added order, and the new order of a replace, stands behind every order of its price that stays |
| `Priority.AddUndone` | src/order_book.cpp:288-347 | erasing, or executing in full, an order just added restores the book exactly |
| `Priority.ReplaceMeets` | src/order_book.cpp:356-360 | replace equals the transaction erase-then-add if and only if it is not a lone order moving to a new price while all levels are in use |
| `Priority.ReplaceRefusesLoneMove` | src/order_book.cpp:356-357 | a one-level book in which replace refuses what erase-then-add would do |
| `OrderBooks.OrderBook.AddMatching` | src/order_book.cpp:363-376 | adds of other symbols are refused without any change |
| `OrderBooks.OrderBook.Process` | src/order_book.cpp:367-395 | refines the interpretation of each message kind, which Effects.MessageExactly characterises field by field, and counts it once as accepted, ignored or rejected |
| `OrderBooks.OrderBook.Count` | src/order_book.cpp:388-393 | which counter each return code moves, on wrapping 64-bit counters |
| `OrderBooks.OrderBook.ProcessAll` | src/order_book.cpp:367-395 | every stream of messages leaves the abstract book and the counters of its replay |
| `Effects.MatchesExactly` | src/order_book.cpp:362-366 | a stock is taken exactly if the book has no symbol or the eight bytes are the symbol padded with spaces |
| `Effects.MessageExactly` | src/order_book.cpp:367-395 | every message of every kind, both ways: which fields ask for which operation, and the exact outcome of it; other kinds change nothing |
| `Effects.AcceptedAdd` | src/order_book.cpp:369-376 | an accepted add, attributed or not, leaves the order under its id with its side, price and quantity, last in the queue of its price |
| `Effects.SameOutcome` | src/order_book.cpp:369-382 | an attributed add does exactly what the plain add does, and an execution at a price what an execution and a cancel of the same shares do |
| `Counters.CountersExactly` | src/order_book.cpp:388-393 | accepted, ignored and rejected grow by exactly the number of successes, of unknown or foreign orders, and of all other failures |
| `Processing.ReplayKeeps` | src/order_book.cpp:367-395 | over every stream the book stays consistent and the three counters add up to the number of messages |
| `Processing.SymbolFilter` | README.md:101 | if every order id belongs to one symbol, replaying a whole market's feed leaves the book of its own symbol's messages |
| `Counters.ForeignIgnored` | README.md:101 | a message about another symbol's order is answered wrong_symbol or unknown_order and changes nothing |
| `Counters.WholeMarket` | README.md:101 | if every order id belongs to one symbol, a whole market's feed leaves the book and the rejected count of the symbol's own messages; messages about other orders raise only ignored, messages about no order only accepted |
| `OrderBooks.OrderBook.Nearest` | src/order_book.cpp:408 | the walk starts at the level of rank 0 in best-first order, or the side is empty, after at most MaxHeight(levels of the side) links |
| `OrderBooks.OrderBook.Beyond` | src/order_book.cpp:413-435 | one step of the walk, down or up parent links, reaches exactly the level of the next rank in best-first order, or the end; the links it follows are paid for by 2 and the fall of a potential |
| `OrderBooks.OrderBook.Depth` | src/order_book.cpp:407-438 | writes the best min(out.size, levels) prices, best first, with exact totals and counts, leaves the rest of the buffer alone, and follows at most 2 * n + MaxHeight(levels of the side) links for n entries |
| `OrderBooks.OrderBook.BestBid` | src/order_book.cpp:397-401 | the best bid of the abstract book, or the empty quote exactly if there is none |
| `OrderBooks.OrderBook.BestAsk` | src/order_book.cpp:402-406 | the best ask of the abstract book, or the empty quote exactly if there is none |
| `Walk.LevelQuotes` | src/order_book.cpp:264-286 | each level's total and count are exactly the shares and the number of its abstract queue |
| `Walk.DepthFromOrder` | src/order_book.cpp:407-438 | the in-order sequence of the tree answers the depth query of the abstract book |
| `Walk.AtCost` | docs/architecture.md:24 | a depth walk never stands deeper than the greatest height an AVL tree of the side's levels can have |
| `Depth.DepthUnique` | src/order_book.cpp:407-438 | the book determines the answer to a depth query |
| `Depth.DepthPrefix` | src/order_book.cpp:407-438 | a query for fewer entries returns a prefix |
| `Depth.BestIsFirst` | src/order_book.cpp:397-438 | the first depth entry is the best quote; both are empty together |
| `DepthEntries.DepthExactly` | src/order_book.cpp:407-438 | a depth answer, both ways, said of the resting orders alone: each entry sums the shares and counts the orders at its price, bids fall and asks rise, and every order is at a listed price or worse than all of a full list |
| `DepthEntries.BestExactly` | src/order_book.cpp:396-406 | the best quote, both ways: the highest bid or lowest ask among the resting orders with the shares and number of orders there, or zeros if none rest |
| `BookLaws.DepthTotals` | src/order_book.cpp:407-438 | a depth query with room to spare adds up to all shares resting on the side |
| `LookupPolicy.Table.Find` | benchmarks/lookup_policy_benchmark.cpp:21-31 | answers membership, with tombstones or without empty slots alike |
| `LookupPolicy.Table.Insert` | benchmarks/lookup_policy_benchmark.cpp:33-50 | with room left, an absent id joins the table in the first tombstone of its probe or the first empty slot; a present id is stored a second time, after which the slots are no table |
| `Probing.StoreKeepsExactly` | benchmarks/lookup_policy_benchmark.cpp:33-50 | storing an id in a reachable free slot keeps a table if and only if the id was absent |
| `LookupPolicy.Table.Erase` | benchmarks/lookup_policy_benchmark.cpp:52-63 | removes a present id and leaves the slots alone for an absent one, wherever its scans end; under tombstones no slot ever becomes empty again |
| `LookupPolicy.Table.Scan` | benchmarks/lookup_policy_benchmark.cpp:52-63 | finds the slot of a present id, or the empty slot that proves an id absent |
| `LookupPolicy.EraseEndsExactly` | benchmarks/lookup_policy_benchmark.cpp:52-83 | the scans of erase end if and only if some slot is empty, or the id is present and the policy leaves tombstones; otherwise they go round for ever |
| `LookupPolicy.Table.EraseWithShift` | benchmarks/lookup_policy_benchmark.cpp:73-83 | backward-shift deletion for an arbitrary hash |
| `LookupPolicy.Perform` | benchmarks/lookup_policy_benchmark.cpp:21-83 | any admissible sequence of operations is answered as a set would answer it |
| `LookupPolicy.AnswersExactly` | benchmarks/lookup_policy_benchmark.cpp:21-83 | the answers are one per find, in order: whether the last insertion or deletion of its id was an insertion |
| `LookupPolicy.ComparePolicies` | benchmarks/lookup_policy_benchmark.cpp:21-83 | starting empty, both deletion policies give the same answers to every admissible sequence |
| `LookupPolicy.ShiftKeepsRoom` | benchmarks/lookup_policy_benchmark.cpp:73-83 | below capacity, a backward-shift table always has an empty slot |
| `LookupPolicy.Saturate` | benchmarks/lookup_policy_benchmark.cpp:52-63 | for every hash under which each slot is some id's home, a run with at most one id present leaves a tombstone table without an empty slot |
| `LookupPolicy.Run` | benchmarks/lookup_policy_benchmark.cpp:89-99 | the churn loop adds exactly one hit per cycle to the sink under either policy |
| `Spsc.SpscRing.TryPush` | include/queue/spsc_ring.hpp:21-27 | appends to the queue exactly when it holds fewer than the capacity, on wrapping counters |
| `Spsc.SpscRing.TryPop` | include/queue/spsc_ring.hpp:37-43 | takes the oldest item exactly when there is one, on wrapping counters |
| `Spsc.SpscRing.IsEmpty` | include/queue/spsc_ring.hpp:45-48 | the counters are equal exactly when the queue is empty |
| `Interleaving.StepKeeps` | include/queue/spsc_ring.hpp:21-43 | every step of either thread, with stale views of the other counter, keeps the invariant |
| `Interleaving.FifoSafety` | include/queue/spsc_ring.hpp:21-43 | in every interleaving the popped items are a prefix of the pushed ones and at most the capacity is in flight |
| `Interleaving.OnlyOneVersion` | include/queue/spsc_ring.hpp:39-40 | acquiring the producer's counter leaves one possible result for the slot read: the oldest item not yet popped |
| `Interleaving.OverwritesOnlyPopped` | include/queue/spsc_ring.hpp:23-24 | a slot is written only when every earlier item in it has been popped |
| `Interleaving.TestsExact` | include/queue/spsc_ring.hpp:23-39 | the full and empty tests on wrapped counters decide what the unwrapped counters say |
| `Interleaving.NeverBothStuck` | include/queue/spsc_ring.hpp:23-39 | on current views, full and empty are reported truthfully and never both |
| `ThreadedReplay.NothingLost` | src/replay.cpp:106-137 | in every interleaving the consumer has processed a prefix of the decoded messages; when it leaves its loop it has processed them all |
| `ThreadedReplay.SameAsSingleThreaded` | src/replay.cpp:106-137 | threaded replay ends with the book and counters of single-threaded replay |
| `ThreadedReplay.MoveKeeps` | src/replay.cpp:114-136 | every move of producer, flag and consumer keeps the replay invariant |
| `ThreadedReplay.CanFinish` | src/pcap.cpp:362-383 | from every reachable state the replay can run to its end: no deadlock, no inescapable spinning |
| `Fairness.EveryFairRunEnds` | src/replay.cpp:106-137 | in every infinite run that is weakly fair to both threads and in which publications become visible eventually, the consumer leaves its loop, with every message processed in order |
| `Fairness.MoveProgress` | src/replay.cpp:114-136 | with current views, every move shrinks the work left or keeps whose turn it is, and a move of that thread lowers its rank |
| `Fairness.FairRunsExist` | src/replay.cpp:106-137 | for every ring size and every feed there is a run of this kind |
| `Wire.Reader.BigEndian` | src/parser.cpp:18-32 | the value of the next bytes, most significant first, never reading outside the message |
| `Wire.ParseMessage` | src/parser.cpp:112-313 | the result of parsing every byte string, which WireTable.MeaningExactly and ParsesExactly characterise; all 22 types stay in bounds, and a success consumes the declared length, one byte less for 'h' |
| `Wire.ParseAdd` | src/parser.cpp:204-224 | add messages, including the refusal of an invalid side |
| `Wire.ParseChange` | src/parser.cpp:225-264 | execute, cancel, delete and replace messages |
| `Wire.SkipRest` | src/parser.cpp:121-307 | the fields of the messages that the book ignores are read within bounds; a trade with an invalid side is refused |
| `Wire.FieldsTile` | src/parser.cpp:61-110 | the fields read are consecutive and end at the declared length, except for 'h', where they end one byte before |
| `WireTable.LengthsExactly` | src/parser.cpp:61-110 | the 22 types and their lengths are those of an independent table of field widths: type, header and fields, with one extra byte for 'h' |
| `WireTable.ParsesExactly` | src/parser.cpp:112-313 | which strings parse and which error every other one gives, both ways: empty, unknown first byte, a length other than the table's, or a side other than 'B' and 'S' in an add or a trade |
| `WireTable.MeaningExactly` | src/parser.cpp:112-313 | a string parses to a message if and only if it parses and carries it: header and fields, big-endian, at the places the widths give |
| `WireTable.ReadInOrder` | src/parser.cpp:121-203 | the fields of the messages the book ignores are read in the order and with the widths of the table |
| `WireTable.ValueIs` | src/parser.cpp:18-32 | the value of bytes is their sum weighted by powers of 256, the first byte being the most significant |
| `Encoding.RoundTrip` | tools/generate_feed.cpp:51-94 | parsing an encoded order message gives it back |
| `Encoding.ParsedUnique` | src/parser.cpp:204-264 | encoding what was parsed gives the bytes back: no two byte strings parse to the same order message |
| `Writers.Writer.BigEndian` | tools/generate_feed.cpp:16-24 | writes exactly the low-order bytes of the value, most significant first |
| `Writers.Writer.WriteHeader` | tools/generate_feed.cpp:29-34 | writes the type and a header with locate 1, tracking 0 and the timestamp modulo 2^48 |
| `Writers.Writer.Frame` | tools/generate_feed.cpp:35-44 | the two-byte length and the buffer's contents; the buffer is empty afterwards |
| `Writers.Writer.Add` | tools/generate_feed.cpp:51-60 | the framed wire form of the add message |
| `Writers.Writer.Cancel` | tools/generate_feed.cpp:62-68 | the framed wire form of the cancel message |
| `Writers.Writer.DeleteOrder` | tools/generate_feed.cpp:70-75 | the framed wire form of the delete message |
| `Writers.Writer.Execute` | tools/generate_feed.cpp:77-84 | the framed wire form of the execute message |
| `Writers.Writer.Replace` | tools/generate_feed.cpp:86-94 | the framed wire form of the replace message |
| `FramedDecoders.FramedDecoder.Consume` | include/itch/parser.hpp:25-56 | decoding in bulk copies gives the messages, counters, residue and result of decoding byte by byte, which FrameCounts.FeedExactly characterises |
| `FramedDecoders.FramedDecoder.TakeLengthByte` | include/itch/parser.hpp:27-38 | one length byte, and the refusal of lengths 0 and above 64 |
| `FramedDecoders.FramedDecoder.TakeBody` | include/itch/parser.hpp:39-53 | the bytes of a message that a call brings, and the parse when it is complete, counted as FrameCounts.TallyExactly says; used <= expected <= 64 throughout |
| `FramedDecoders.FramedDecoder.Finish` | include/itch/parser.hpp:58-63 | true exactly when no frame is under way; otherwise one more malformed |
| `Framing.ChunkingIndependent` | include/itch/parser.hpp:17-25 | for callers that stop on failure, any way of cutting the input gives the same messages, counters, residue and result |
| `Framing.FramesDecode` | include/itch/parser.hpp:25-56 | frames of 1 to 64 bytes are parsed one by one, in order, and nothing is left over |
| `Framing.CleanExactlyFrames` | include/itch/parser.hpp:25-63 | decoding succeeds without residue exactly on sequences of such frames |
| `Framing.FeedRoundTrip` | src/replay.cpp:71-84 | an encoded and framed feed gives its messages back, however the file is read |
| `FrameCounts.TallyExactly` | include/itch/parser.hpp:44-52 | a complete frame counts as decoded if it parses, as unsupported if its first byte is none of the 22 types, and as malformed otherwise |
| `FrameCounts.FeedExactly` | include/itch/parser.hpp:25-56 | any input is its complete frames, parsed in order, and a rest: an impossible length stops decoding and counts as malformed, a frame cut off is kept |
| `FrameCounts.CountsExactly` | include/itch/parser.hpp:44-52 | over any list of messages each counter grows by the number of messages of its kind, told by their bytes, and exactly the good ones are handed on |
| `FileReplay.RunFile` | src/replay.cpp:59-88 | replaying a file read by read ends with the book and statistics of decoding it whole; the decoder counters are the numbers of frames that parse, of other known frames plus one for a rest, and of unknown types |
| `FileReplay.FileCounted` | include/itch/parser.hpp:25-63 | decoding any file from the start: its counters after finish by the kinds of its frames and its rest, and the messages that the good frames carry |
| `FileReplay.RunCapture` | src/pcap.cpp:351-354 | the same for the datagrams of a capture |
| `FileReplay.FileAndCaptureAgree` | src/pcap.cpp:273-337 | the same messages leave the same book, framed in a file or sent as consecutive datagrams |
| `Sequencing.SequenceTracker.Observe` | src/moldudp64.cpp:7-34 | status, expected, received and missing, and the next expected number, on wrapping 64-bit numbers |
| `Sequencing.Gate.Admit` | src/pcap.cpp:313-327 | what the gate answers, and its counters, for each status; Epochs.EpochExactly says what they add up to |
| `Sequencing.NoDuplicates` | src/pcap.cpp:313-327 | in any session epoch, its opening packet included and whatever came before, the delivered numbers strictly increase from the epoch's start and stay below the expected number |
| `Sequencing.SilentAfterGap` | src/pcap.cpp:313-327 | once the gate has closed in a session, no packet of that session is delivered and the gate stays closed |
| `Sequencing.NewSessionReopens` | src/pcap.cpp:325-326 | a new session opens the gate again |
| `Sequencing.StreamSplit` | src/pcap.cpp:313-327 | a stream is handled epoch by epoch, so the statements about one epoch apply to each in turn |
| `Sequencing.Coverage` | src/moldudp64.cpp:23-33 | in any epoch, streams with gaps included, the numbers from its start to the frontier at the first gap are exactly those delivered and those that straddling rewinds skip, which are disjoint |
| `Sequencing.HolesAreSkipped` | src/pcap.cpp:321-323 | in any epoch, every number below a delivered one is delivered too or lies in the undelivered tail of a straddling packet |
| `Sequencing.ContiguousExactly` | src/pcap.cpp:321-323 | an epoch delivers every number up to the frontier at its first gap, one after the other, if and only if no packet before that gap starts before the expected number and ends beyond it |
| `Sequencing.StraddlingLoses` | src/pcap.cpp:321-323 | three packets of one epoch from the initial gate that deliver 1, 2 and 5: messages 3 and 4 never arrive, yet no gap is reported, nothing is counted missing and the gate stays open |
| `Sequencing.FrontierAccounts` | src/moldudp64.cpp:23-33 | over any epoch the expected number moves by what packets cover beyond it plus what is reported missing, which the statistics add up |
| `Epochs.StatusExactly` | src/moldudp64.cpp:7-34 | each status exactly under its condition, the numbers reported, and the next expected number, for every state and header |
| `Epochs.EpochExactly` | src/pcap.cpp:313-327 | over an epoch the gate equals a fold that knows only the frontier: what is delivered, whether it stays open, and one gap for each packet above the frontier, one rewind for each below it, and the shortfall as missing |
| `Epochs.MissingWithGaps` | src/pcap.cpp:315-319 | messages are missing exactly if there is a gap, and at least one for each |
| `CaptureGate.PacketDelivers` | include/itch/moldudp64.hpp:46-96 | a byte string that decodes meets the gate once and delivers the numbers the gate lets through; any other leaves the gate alone and delivers nothing |
| `CaptureGate.CaptureFollowsGate` | src/pcap.cpp:299-337 | for any datagrams, malformed ones included, the capture's gate and the numbers it delivers are those of the headers that decode |
| `CaptureGate.CaptureParsesDeliveries` | src/pcap.cpp:299-312 | the messages and decoder counters of any capture are what its deliveries parse to, in order |
| `CaptureGate.CaptureEpoch` | src/pcap.cpp:299-337 | from the initial state, after any datagrams, for any bytes whose decoding headers form an epoch: delivered numbers strictly increase, tile the range with the straddled ones, are contiguous exactly without straddling; deliveries, gaps, rewinds and missing messages are those of the fold over the frontier |
| `MoldDecoders.Validate` | include/itch/moldudp64.hpp:65-84 | the first pass: the error of the whole datagram, before anything is dispatched |
| `MoldDecoders.Dispatch` | include/itch/moldudp64.hpp:87-94 | the second pass: all messages of a valid datagram, in order, numbered from the header's sequence |
| `MoldDecoders.Decode` | include/itch/moldudp64.hpp:46-96 | result, gate and deliveries for every datagram |
| `Mold.Transactional` | include/itch/moldudp64.hpp:46-96 | an error means no callback and an untouched gate; otherwise all messages are delivered or none |
| `Mold.DatagramRoundTrip` | include/itch/moldudp64.hpp:46-96 | decoding an encoded datagram of 1 to 0xfffe messages that the gate admits gives exactly those messages, numbered |
| `Mold.DeliveredTiles` | include/itch/moldudp64.hpp:65-94 | what is delivered, with its length prefixes, tiles the datagram exactly |
| `Datagrams.HeaderExactly` | include/itch/moldudp64.hpp:55-59 | session, sequence and count are bytes 0 to 9, 10 to 17 and 18 to 19, big-endian |
| `Datagrams.SplitExactly` | include/itch/moldudp64.hpp:65-84 | walking over the length prefixes: the messages fill the rest exactly, or a length is cut off, a message is cut off, or bytes trail, each error exactly then |
| `Datagrams.ErrorExactly` | include/itch/moldudp64.hpp:46-84 | each error of a datagram, both ways, by its bytes: too short for a header, a control packet with more than a header, and the three errors of the walk |
| `Capture.ParseDelivered` | src/pcap.cpp:301-312 | parses what a datagram delivers; Datagrams.PayloadsCounted says what its counters count |
| `Capture.DecodeCapture` | src/pcap.cpp:273-337 | messages, packet statistics and gate after any sequence of UDP payloads |
| `Datagrams.StatisticsExactly` | src/pcap.cpp:329-336 | errors count the datagrams that do not decode, and packets, heartbeats and ends of session the headers of each kind among the others; messages add up their counts, ends of session excepted |
| `Datagrams.PayloadsCounted` | src/pcap.cpp:299-312 | over any capture decoded, unsupported and malformed count the delivered payloads that parse, that have an unknown first byte, and all others, and exactly the good ones are handed on |
| `Capture.SentReceived` | src/pcap.cpp:273-337 | messages sent in consecutive datagrams of one session all arrive, once and in order |
| `Feeds.Close` | tools/generate_feed.cpp:132-146 | what is written after an order's add, by its id modulo 4 |
| `Feeds.Generate` | tools/generate_feed.cpp:116-149 | the generated file is the framed wire form of the workload, in both modes |
| `GeneratedFeed.GeneratedAt` | tools/generate_feed.cpp:112-149 | message number i that decoding a generated file gives, in either mode and however it is cut, in closed form: kind by position and id modulo 4, header, id, side, shares, stock, price, match number and replacement |
| `WorkloadBook.OpeningAccepted` | tools/generate_feed.cpp:120-125 | every generated add is accepted, given 202 levels and room for one more order |
| `WorkloadBook.ClosingAccepted` | tools/generate_feed.cpp:132-146 | every cancel, execute and delete restores the book before the add, and every replace leaves exactly one order |
| `WorkloadBook.GeneratedReplay` | tools/generate_feed.cpp:116-149 | replaying a mixed workload of n messages: n decoded, n accepted, none malformed or rejected, and (n / 2 + 1) / 4 + n % 2 active orders |
| `Benchmark.Reads` | src/replay.cpp:59-75 | the reads of a file: blocks of 2^20 bytes and then the rest, together the file |
| `Benchmark.ReplayGenerated` | src/replay.cpp:59-88 | generating a mixed file of n messages, reading it in blocks and replaying it into a newly constructed book with room: decoder counters n, 0, 0, book counters n, 0, 0, and the book's active_orders at (n / 2 + 1) / 4 + n % 2, for every hash mixer |
| `Benchmark.ReplayDocumented` | README.md:20-22 | with the documented capacities and n = 10,000,000: 1,250,000 active orders, nothing rejected, nothing malformed |

## Left out

- Reading files and captures: I/O, PCAP and PCAP-NG blocks, link layers and port filters; a capture is its list of matching UDP payloads, a file is its list of reads.
- Timing, latency samples, percentiles, spin counts, the command line and the benchmark drivers.
- The fields of the message types that the book ignores: they are read with the source's positions and dropped, so `Other` keeps only type and header.
- The values of the hash mixer.
- Weak-memory effects beyond coherence and release/acquire publication, cache lines and `yield`; the move overload of `try_push`, which differs from the copying one in ownership only; `size()` of the ring.
- Exceptions on the producer thread and read errors.
- Expected cost of the lookup table: its probes and shifts are proved to terminate, not to be short. The turns of the tree loops are bounded per level operation and per depth query, not summed up over a whole add or replace.
- The sequential mode of the generator has no theorem about the book it leaves; `Feeds.Generate` covers the file it writes.
- `to_string` functions and destruction.
