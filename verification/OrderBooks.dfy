/**
 The fixed-capacity order book. The fields and methods are those of the program; the ghost fields name what
 the arrays represent: the two price trees, the two free lists, and the abstract book with its indices.
 */
module OrderBooks {
  import opened Types
  import opened LevelTree
  import opened AvlBalance
  import opened PriceOrder
  import opened Rotations
  import opened Rebalance
  import opened Splice
  import opened Successor
  import opened Pools
  import opened LevelIndex
  import opened Removal
  import opened Probing
  import opened BookSpec
  import opened Represent
  import opened Compose
  import opened Depart
  import opened Walk
  import opened Depth
  import opened Messages
  import opened Processing
  import opened Initial
  import opened Cost

  class OrderBook {
    var orders: seq<Order>
    var levels: seq<PriceLevel>
    var lookup: seq<Slot<int>>
    var freeOrder: int
    var freeLevel: int
    var bidRoot: int
    var askRoot: int
    var activeOrders: int
    var activeLevels: int
    var accepted: u64
    var ignored: u64
    var rejected: u64
    const symbol: seq<u8>

    /** The 64-bit mixer of the hash; nothing depends on which function it is. */
    const mix: u64 -> u64

    /** The levels of each side by price, and the free slots in list order. */
    ghost var bidTree: Tree
    ghost var askTree: Tree
    ghost var freeLevels: seq<int>
    ghost var freeOrders: seq<int>
    /** Where each order and price is stored, and the abstract book. */
    ghost var shadow: Shadow

    // ---------- AVL primitives ----------

    function HeightOf(i: int): int
      reads this`levels
      requires i == NONE || InRange(levels, i)
    {
      HeightAt(levels, i)
    }

    method Update(i: int)
      requires InRange(levels, i)
      requires levels[i].left == NONE || InRange(levels, levels[i].left)
      requires levels[i].right == NONE || InRange(levels, levels[i].right)
      modifies this`levels
      ensures levels == Updated(old(levels), i)
    {
      levels := levels[i := levels[i].(height := Int8(1 + Max(HeightOf(levels[i].left), HeightOf(levels[i].right))))];
    }

    /** `root` is passed by reference in the source; here it is an in-parameter and an out-parameter. */
    method ReplaceChild(root: int, p: int, oldChild: int, newChild: int) returns (root': int)
      requires p == NONE || InRange(levels, p)
      requires newChild == NONE || InRange(levels, newChild)
      modifies this`levels
      ensures root' == SetRoot(root, p, newChild)
      ensures levels == ChildReplaced(old(levels), p, oldChild, newChild)
    {
      root' := root;
      if p == NONE {
        root' := newChild;
      } else if levels[p].left == oldChild {
        levels := levels[p := levels[p].(left := newChild)];
      } else {
        levels := levels[p := levels[p].(right := newChild)];
      }
      if newChild != NONE {
        levels := levels[newChild := levels[newChild].(parent := p)];
      }
    }

    method RotateLeft(root: int, x: int) returns (root': int, y: int)
      requires CanRotateLeft(levels, x)
      modifies this`levels
      ensures y == old(levels[x].right)
      ensures root' == SetRoot(root, old(levels[x].parent), y)
      ensures CanRotateLeft(old(levels), x) && TurnedLeft(old(levels), levels, x)
    {
      y := levels[x].right;
      var beta, p := levels[y].left, levels[x].parent;
      root' := ReplaceChild(root, p, x, y);
      levels := levels[y := levels[y].(left := x)];
      levels := levels[x := levels[x].(parent := y)];
      levels := levels[x := levels[x].(right := beta)];
      if beta != NONE {
        levels := levels[beta := levels[beta].(parent := x)];
      }
      LeftWrites(old(levels), x);
      LeftUpdates(old(levels), levels, x);
      Update(x);
      Update(y);
    }

    method RotateRight(root: int, y: int) returns (root': int, x: int)
      requires CanRotateRight(levels, y)
      modifies this`levels
      ensures x == old(levels[y].left)
      ensures root' == SetRoot(root, old(levels[y].parent), x)
      ensures CanRotateRight(old(levels), y) && TurnedRight(old(levels), levels, y)
    {
      x := levels[y].left;
      var beta, p := levels[x].right, levels[y].parent;
      root' := ReplaceChild(root, p, y, x);
      levels := levels[x := levels[x].(right := y)];
      levels := levels[y := levels[y].(parent := x)];
      levels := levels[y := levels[y].(left := beta)];
      if beta != NONE {
        levels := levels[beta := levels[beta].(parent := y)];
      }
      RightWrites(old(levels), y);
      RightUpdates(old(levels), levels, y);
      Update(y);
      Update(x);
    }

    /** The left-heavy case of the rebalancing loop: `balance > 1`. */
    method FixLeftHeavy(root: int, i: int, ghost path: Path, ghost l: Tree, ghost r: Tree)
      returns (root': int, top: int)
      requires Focus(levels, path, root, l, i, r)
      requires Height(l) <= 44 && Height(r) <= 44 && Height(l) > Height(r) + 1
      modifies this`levels
      ensures top == Rebalanced(l, i, r).at && Settled(levels, path, root', Rebalanced(l, i, r))
      ensures Local(old(levels), levels, path, Nodes(Node(l, i, r)))
    {
      hide Focus, Linked, Settled, Separate, Within, Local, SameHeights, Nodes, PathNodes, PathLinked, TurnedLeft,
           TurnedRight;
      FocusHeights(levels, path, root, l, i, r);
      LocalRefl(levels, path, root, l, i, r);
      root' := root;
      ghost var Node(a, x, b) := l;
      if HeightOf(levels[levels[i].left].left) < HeightOf(levels[levels[i].left].right) {
        ghost var Node(b1, y, b2) := b;
        InnerLeftPivot(levels, path, root, a, x, b1, y, b2, i, r);
        var below;
        root', below := RotateLeft(root', levels[i].left);
        InnerLeft(old(levels), levels, path, root, a, x, b1, y, b2, i, r);
        a, x, b := Node(a, x, b1), y, b2;
      }
      RightPivot(levels, path, root, a, x, b, i, r);
      ghost var was := levels;
      root', top := RotateRight(root', i);
      OuterRight(old(levels), was, levels, path, root, a, x, b, i, r, Nodes(Node(l, i, r)));
    }

    /** The right-heavy case of the rebalancing loop: `balance < -1`. */
    method FixRightHeavy(root: int, i: int, ghost path: Path, ghost l: Tree, ghost r: Tree)
      returns (root': int, top: int)
      requires Focus(levels, path, root, l, i, r)
      requires Height(l) <= 44 && Height(r) <= 44 && Height(r) > Height(l) + 1
      modifies this`levels
      ensures top == Rebalanced(l, i, r).at && Settled(levels, path, root', Rebalanced(l, i, r))
      ensures Local(old(levels), levels, path, Nodes(Node(l, i, r)))
    {
      hide Focus, Linked, Settled, Separate, Within, Local, SameHeights, Nodes, PathNodes, PathLinked, TurnedLeft,
           TurnedRight;
      FocusHeights(levels, path, root, l, i, r);
      LocalRefl(levels, path, root, l, i, r);
      root' := root;
      ghost var Node(a, x, b) := r;
      if HeightOf(levels[levels[i].right].right) < HeightOf(levels[levels[i].right].left) {
        ghost var Node(a1, y, a2) := a;
        InnerRightPivot(levels, path, root, l, i, a1, y, a2, x, b);
        var below;
        root', below := RotateRight(root', levels[i].right);
        InnerRight(old(levels), levels, path, root, l, i, a1, y, a2, x, b);
        a, x, b := a1, y, Node(a2, x, b);
      }
      LeftPivot(levels, path, root, l, i, a, x, b);
      ghost var was := levels;
      root', top := RotateLeft(root', i);
      OuterLeft(old(levels), was, levels, path, root, l, i, a, x, b, Nodes(Node(l, i, r)));
    }

    /**
     Refreshes heights and rotates from node `start` up to the root. The ghost arguments describe the
     tree around `start`: an AVL tree but for one child of `start`, whose height moved by at most one.
     */
    method RebalanceUp(root: int, start: int, ghost path: Path, ghost l: Tree, ghost r: Tree, ghost hl: int,
                       ghost hr: int)
      returns (root': int, ghost tree: Tree, ghost steps: nat)
      requires |levels| <= MAX_INDEX && start != NONE
      requires Climbing(levels, path, root, l, start, r, hl, hr)
      modifies this`levels
      ensures Avl(levels, tree, root')
      ensures Inorder(tree) == OrderAround(path, Node(l, start, r)) &&
              Nodes(tree) == NodesAround(path, Node(l, start, r))
      ensures Within(old(levels), levels, Nodes(tree))
      ensures steps <= MaxHeight(|Nodes(tree)|)
    {
      hide Climbing, Avl, Settled, Within, Local, OrderAround, NodesAround, Focus, Balanced, Disturbed, Nodes, Inorder,
           MaxHeight;
      var i := start;
      root' := root;
      tree := Leaf;
      steps := 0;
      ghost var at := Climb(path, l, r, hl, hr);
      ghost var order, nodes := OrderAround(path, Node(l, start, r)), NodesAround(path, Node(l, start, r));
      WithinRefl(levels, nodes);
      ClimbCost(levels, path, root, l, start, r, hl, hr);
      while i != NONE
        invariant at.Climb? ==> steps + Length(at.path) == Length(path)
        invariant at.Done? ==> steps <= Length(path) + 1
        invariant |levels| == |old(levels)| && at.Done? == (i == NONE)
        invariant at.Climb? ==>
          Climbing(levels, at.path, root', at.left, i, at.right, at.hl, at.hr) &&
          OrderAround(at.path, Node(at.left, i, at.right)) == order &&
          NodesAround(at.path, Node(at.left, i, at.right)) == nodes
        invariant at.Done? ==> Avl(levels, at.tree, root') && Inorder(at.tree) == order && Nodes(at.tree) == nodes
        invariant Within(old(levels), levels, nodes)
        decreases at.Climb?, if at.Climb? then at.path else Top
      {
        ghost var before, rootBefore, subtree := levels, root', Node(at.left, i, at.right);
        ClimbFacts(levels, at.path, root', at.left, i, at.right, at.hl, at.hr);
        Update(i);
        UpdateStep(before, at.path, root', at.left, i, at.right);
        ghost var updated := levels;
        var balance := HeightOf(levels[i].left) - HeightOf(levels[i].right);
        var top := i;
        if balance > 1 {
          root', top := FixLeftHeavy(root', i, at.path, at.left, at.right);
        } else if balance < -1 {
          root', top := FixRightHeavy(root', i, at.path, at.left, at.right);
        }
        LocalRefl(updated, at.path, rootBefore, at.left, i, at.right);
        LocalTransitive(before, updated, levels, at.path, Nodes(subtree));
        LocalWithin(old(levels), before, levels, at.path, subtree, nodes);
        at := ClimbStep(before, levels, at.path, rootBefore, at.left, i, at.right, at.hl, at.hr, root');
        i := levels[top].parent;
        steps := steps + 1;
      }
      tree := at.tree;
    }

    // ---------- Level lookup ----------

    method LevelFind(start: int, p: u32, ghost tree: Tree) returns (i: int, ghost steps: nat)
      requires PriceTree(levels, tree, start)
      ensures i == NONE ==> forall j :: j in Nodes(tree) ==> InRange(levels, j) && levels[j].price != p
      ensures i != NONE ==> i in Nodes(tree) && InRange(levels, i) && levels[i].price == p
      ensures steps <= MaxHeight(|Nodes(tree)|)
    {
      hide PriceTree, Descent, Narrowed, NodesAround, OrderAround, MaxHeight;
      i, steps := start, 0;
      ghost var path, t, parent := Top, tree, NONE;
      StartSearch(levels, tree, start, p);
      while i != NONE
        invariant Descent(levels, path, t, start, parent, i) && Narrowed(levels, path, t, p)
        invariant NodesAround(path, t) == Nodes(tree) && steps == Length(path)
        decreases t
      {
        DescentShape(levels, path, t, start, parent, i);
        DescentCost(levels, path, t, start, parent, i);
        steps := steps + 1;
        ghost var Node(l, at, r) := t;
        if p == levels[i].price {
          return;
        }
        if p < levels[i].price {
          DescendLeft(levels, path, l, at, r, p);
          DescentLeft(levels, path, l, at, r, start, parent);
          path, t, parent := InLeft(path, at, r), l, at;
        } else {
          DescendRight(levels, path, l, at, r, p);
          DescentRight(levels, path, l, at, r, start, parent);
          path, t, parent := InRight(path, l, at), r, at;
        }
        i := if p < levels[i].price then levels[i].left else levels[i].right;
      }
      DescentCost(levels, path, t, start, parent, i);
      SearchFailed(levels, path, t, start, parent, p);
    }

    /** The leftmost or rightmost node of the subtree at `start`; the ghost arguments say where that subtree hangs. */
    method Extreme(start: int, maximum: bool, ghost base: Path, ghost tree: Tree, ghost root: int, ghost above: int)
      returns (i: int, ghost path: Path, ghost child: Tree, ghost steps: nat)
      requires Descent(levels, base, tree, root, above, start)
      ensures i == NONE <==> tree == Leaf
      ensures i == NONE ==> start == NONE
      ensures i != NONE ==>
        var t := if maximum then Node(child, i, Leaf) else Node(Leaf, i, child);
        InRange(levels, i) && Descent(levels, path, t, root, levels[i].parent, i) &&
        (if maximum then RightChain(path, base) else LeftChain(path, base)) &&
        OrderAround(path, t) == OrderAround(base, tree) && NodesAround(path, t) == NodesAround(base, tree)
      ensures steps == if i == NONE then 0 else Length(path) - Length(base) + 1
      ensures steps <= MaxHeight(|NodesAround(base, tree)|)
    {
      hide Descent, NodesAround, OrderAround, MaxHeight;
      i, path, child, steps := start, base, Leaf, 0;
      DescentShape(levels, base, tree, root, above, start);
      if i == NONE {
        return;
      }
      ghost var t, parent := tree, above;
      while true
        invariant i != NONE && Descent(levels, path, t, root, parent, i)
        invariant if maximum then RightChain(path, base) else LeftChain(path, base)
        invariant OrderAround(path, t) == OrderAround(base, tree) && NodesAround(path, t) == NodesAround(base, tree)
        invariant steps == Length(path) - Length(base)
        decreases t
      {
        DescentShape(levels, path, t, root, parent, i);
        DescentCost(levels, path, t, root, parent, i);
        steps := steps + 1;
        ghost var Node(l, at, r) := t;
        var next := if maximum then levels[i].right else levels[i].left;
        if maximum {
          DescentRight(levels, path, l, at, r, root, parent);
          DescentShape(levels, InRight(path, l, at), r, root, at, next);
        } else {
          DescentLeft(levels, path, l, at, r, root, parent);
          DescentShape(levels, InLeft(path, at, r), l, root, at, next);
        }
        if next == NONE {
          child := if maximum then l else r;
          return;
        }
        if maximum {
          path, t, parent := InRight(path, l, at), r, at;
        } else {
          path, t, parent := InLeft(path, at, r), l, at;
        }
        i := next;
      }
    }

    // ---------- Level pool ----------

    method LevelAcquire(p: u32) returns (i: int)
      requires LevelPool(levels, freeLevel, freeLevels)
      modifies this`levels, this`freeLevel, this`activeLevels, this`freeLevels
      ensures LevelPool(levels, freeLevel, freeLevels)
      ensures old(freeLevels) == [] ==>
        i == NONE && levels == old(levels) && freeLevel == old(freeLevel) && freeLevels == [] &&
        activeLevels == old(activeLevels)
      ensures old(freeLevels) != [] ==>
        i == old(freeLevels)[0] && InRange(old(levels), i) && levels == old(levels)[i := FreshLevel(p)] &&
        freeLevels == old(freeLevels)[1..] && activeLevels == old(activeLevels) + 1
    {
      if freeLevel == NONE {
        return NONE;
      }
      LevelPoolPop(levels, freeLevel, freeLevels);
      i := freeLevel;
      freeLevel := levels[i].freeNext;
      levels := levels[i := BlankLevel(NONE)];
      levels := levels[i := levels[i].(price := p)];
      levels := levels[i := levels[i].(left := NONE, right := NONE, parent := NONE, freeNext := NONE)];
      levels := levels[i := levels[i].(height := 1)];
      levels := levels[i := levels[i].(active := true)];
      activeLevels := activeLevels + 1;
      freeLevels := freeLevels[1..];
      LevelPoolFrame(old(levels), levels, freeLevel, freeLevels);
    }

    method LevelRelease(i: int)
      requires LevelPool(levels, freeLevel, freeLevels) && InRange(levels, i) && levels[i].active
      modifies this`levels, this`freeLevel, this`activeLevels, this`freeLevels
      ensures LevelPool(levels, freeLevel, freeLevels)
      ensures levels == old(levels)[i := BlankLevel(old(freeLevel))] && freeLevel == i
      ensures freeLevels == [i] + old(freeLevels) && activeLevels == old(activeLevels) - 1
    {
      ActiveNotFree(levels, freeLevel, freeLevels, i);
      levels := levels[i := BlankLevel(NONE)];
      levels := levels[i := levels[i].(left := NONE, right := NONE, parent := NONE)];
      levels := levels[i := levels[i].(freeNext := freeLevel)];
      LevelPoolFrame(old(levels), levels, freeLevel, freeLevels);
      LevelPoolPush(levels, freeLevel, freeLevels, i);
      freeLevel := i;
      activeLevels := activeLevels - 1;
      freeLevels := [i] + freeLevels;
    }

    ghost function View(): LevelsView
      reads this`levels, this`freeLevel, this`freeLevels, this`activeLevels, this`bidRoot, this`askRoot, this`bidTree,
            this`askTree
    {
      LevelsView(levels, freeLevel, freeLevels, activeLevels, bidRoot, askRoot, bidTree, askTree)
    }

    function RootOf(side: Side): int
      reads this`bidRoot, this`askRoot
    {
      if side == Buy then bidRoot else askRoot
    }

    /** Writes through the source's reference to `bid_root_` or `ask_root_`. */
    method SetRootOf(side: Side, root: int, ghost tree: Tree)
      modifies this`bidRoot, this`askRoot, this`bidTree, this`askTree
      ensures if side == Buy then
                bidRoot == root && bidTree == tree && askRoot == old(askRoot) && askTree == old(askTree)
              else
                askRoot == root && askTree == tree && bidRoot == old(bidRoot) && bidTree == old(bidTree)
    {
      if side == Buy {
        bidRoot, bidTree := root, tree;
      } else {
        askRoot, askTree := root, tree;
      }
    }

    /** Hangs the fresh level n into the tree of one side and rebalances. */
    method Attach(root: int, n: int, p: u32, ghost tree: Tree) returns (root': int, ghost tree': Tree, ghost steps: nat)
      requires |levels| <= MAX_INDEX && PriceTree(levels, tree, root) && InRange(levels, n) && n !in Nodes(tree)
      requires levels[n] == FreshLevel(p) && forall j :: j in Nodes(tree) ==> InRange(levels, j) && levels[j].price != p
      modifies this`levels
      ensures PriceTree(levels, tree', root') && Nodes(tree') == Nodes(tree) + {n}
      ensures Within(old(levels), levels, Nodes(tree'))
      ensures steps <= MaxHeight(|Nodes(tree)|) + MaxHeight(|Nodes(tree')|)
    {
      hide PriceTree, Descent, Narrowed, NodesAround, OrderAround, Climbing, Within, MaxHeight;
      steps := 0;
      if root == NONE {
        root', tree' := n, Node(Leaf, n, Leaf);
        SingleLevel(levels, tree, n);
        return;
      }
      StartSearch(levels, tree, root, p);
      var cur, parent := root, NONE;
      ghost var path, t := Top, tree;
      while cur != NONE
        invariant Descent(levels, path, t, root, parent, cur) && Narrowed(levels, path, t, p)
        invariant NodesAround(path, t) == Nodes(tree) && (path == Top ==> cur != NONE) && levels == old(levels)
        invariant steps == Length(path)
        decreases t
      {
        DescentShape(levels, path, t, root, parent, cur);
        ghost var Node(l, at, r) := t;
        if p < levels[cur].price {
          DescendLeft(levels, path, l, at, r, p);
          DescentLeft(levels, path, l, at, r, root, parent);
          path, t := InLeft(path, at, r), l;
        } else {
          DescendRight(levels, path, l, at, r, p);
          DescentRight(levels, path, l, at, r, root, parent);
          path, t := InRight(path, l, at), r;
        }
        steps := steps + 1;
        parent := cur;
        cur := if p < levels[cur].price then levels[cur].left else levels[cur].right;
      }
      DescentCost(levels, path, t, root, parent, cur);
      SearchEnd(levels, path, t, root, parent, p, Nodes(tree));
      levels := levels[n := levels[n].(parent := parent)];
      if p < levels[parent].price {
        levels := levels[parent := levels[parent].(left := n)];
      } else {
        levels := levels[parent := levels[parent].(right := n)];
      }
      ghost var next := AttachLeaf(old(levels), levels, path, root, parent, n, p, tree);
      ghost var hung := levels;
      ghost var turns;
      root', tree', turns := RebalanceUp(root, parent, next.path, next.left, next.right, next.hl, next.hr);
      steps := steps + turns;
      AttachDone(old(levels), hung, levels, path, root, parent, n, p, tree, next, tree', root');
    }

    /**
     The level of one side at price p, taken from the pool if there is none yet. The caller sees either
     unchanged levels (level found, or pool exhausted) or exactly one more price in that side's tree.
     */
    method LevelGetOrAdd(side: Side, p: u32) returns (li: int, err: BookError, ghost steps: nat)
      requires ViewOk(View())
      modifies this`levels, this`freeLevel, this`freeLevels, this`activeLevels, this`bidRoot, this`askRoot,
               this`bidTree, this`askTree
      ensures ViewOk(View())
      ensures HasPrice(old(levels), old(View()).TreeOf(side), p) ==>
        err == Ok && View() == old(View()) && li in Nodes(View().TreeOf(side)) && InRange(levels, li) &&
        levels[li].price == p
      ensures !HasPrice(old(levels), old(View()).TreeOf(side), p) && old(freeLevels) == [] ==>
        err == LevelPoolExhausted && li == NONE && View() == old(View())
      ensures !HasPrice(old(levels), old(View()).TreeOf(side), p) && old(freeLevels) != [] ==>
        err == Ok && li != NONE && Grown(old(View()), View(), side, p, li)
      ensures steps <= 3 * MaxHeight(|Nodes(View().TreeOf(side))|)
    {
      hide PriceTree, LevelPool, LevelAdded, Within, MaxHeight;
      err := Ok;
      ghost var v, tree, other := View(), View().TreeOf(side), View().TreeOf(Opposite(side));
      var found;
      found, steps := LevelFind(RootOf(side), p, tree);
      li := found;
      if found != NONE {
        return;
      }
      var n := LevelAcquire(p);
      if n == NONE {
        return NONE, LevelPoolExhausted, steps;
      }
      AcquireKeeps(v.levels, levels, tree, v.RootOf(side), v.freeLevel, v.free, p);
      AcquireKeeps(v.levels, levels, other, v.RootOf(Opposite(side)), v.freeLevel, v.free, p);
      ghost var taken := levels;
      ghost var tree', turns;
      var root';
      root', tree', turns := Attach(RootOf(side), n, p, tree);
      steps := steps + turns;
      OneMore(Nodes(tree), n);
      OtherTreeKeeps(taken, levels, other, v.RootOf(Opposite(side)), Nodes(tree'));
      TreesAvoidPool(v.levels, tree, v.RootOf(side), v.freeLevel, v.free);
      PoolKeeps(taken, levels, freeLevel, freeLevels, Nodes(tree'));
      AddedSummary(v.levels, taken, levels, n, p, Nodes(tree'));
      SetRootOf(side, root', tree');
      li := n;
    }

    /** The two-children case of LevelRemove: the successor y takes z's place. */
    method SpliceSuccessor(root: int, z: int, y: int) returns (root': int, rebalance: int)
      requires CanReplace(levels, z, y)
      modifies this`levels
      ensures levels == Writes(old(levels), z, y) && root' == SetRoot(root, old(levels[z].parent), y)
      ensures rebalance == Rename(z, y, old(levels[y].parent))
    {
      root' := root;
      var oldParent := levels[y].parent;
      if oldParent != z {
        root' := ReplaceChild(root', oldParent, y, levels[y].right);
        levels := levels[y := levels[y].(right := levels[z].right)];
        levels := levels[levels[y].right := levels[levels[y].right].(parent := y)];
        rebalance := oldParent;
      } else {
        rebalance := y;
      }
      BetweenWrites(old(levels), z, y);
      assert levels == CutWrites(old(levels), z, y);
      root' := ReplaceChild(root', levels[z].parent, z, y);
      levels := levels[y := levels[y].(left := levels[z].left)];
      levels := levels[levels[y].left := levels[levels[y].left].(parent := y)];
      Update(y);
    }

    /** The part of LevelRemove that takes z out of its tree's links, before the slot is released. */
    method UnlinkLevel(root: int, z: int, ghost tree: Tree)
      returns (root': int, rebalance: int, ghost u: Unlinking, ghost steps: nat)
      requires |levels| <= MAX_INDEX && Avl(levels, tree, root) && z in Nodes(tree)
      modifies this`levels
      ensures Unlinked(old(levels), levels, root, root', z, rebalance, u)
      ensures OrderAround(u.path, Node(u.left, z, u.right)) == Inorder(tree) &&
              NodesAround(u.path, Node(u.left, z, u.right)) == Nodes(tree)
      ensures u.Succeeded? ==> u.y in Nodes(tree)
      ensures steps <= MaxHeight(|Nodes(tree)|)
    {
      hide MaxHeight, Avl, Descent, Nodes, Inorder, NodesAround, OrderAround, Writes, CanReplace, LeftChain;
      rebalance, steps := NONE, 0;
      root' := root;
      DescentTop(levels, tree, root);
      ghost var path, l, r := Locate(levels, Top, tree, root, NONE, root, z);
      NodePlace(levels, path, l, z, r, root);
      if levels[z].left == NONE {
        rebalance := levels[z].parent;
        u := Lifted(path, l, r);
        root' := ReplaceChild(root', levels[z].parent, z, levels[z].right);
      } else if levels[z].right == NONE {
        rebalance := levels[z].parent;
        u := Lifted(path, l, r);
        root' := ReplaceChild(root', levels[z].parent, z, levels[z].left);
      } else {
        DescentRight(levels, path, l, z, r, root, levels[z].parent);
        ChainStart(InRight(path, l, z));
        var y;
        ghost var down, yr;
        y, down, yr, steps := Extreme(levels[z].right, false, InRight(path, l, z), r, root, z);
        SuccessorPlace(levels, path, l, z, r, root, down, y, yr);
        u := Succeeded(path, l, r, down, y, yr);
        root', rebalance := SpliceSuccessor(root', z, y);
      }
    }

    /** Removes level z from one side's tree and returns it to the pool: exactly z's price disappears. */
    method LevelRemove(side: Side, z: int) returns (ghost steps: nat)
      requires ViewOk(View()) && z in Nodes(View().TreeOf(side))
      modifies this`levels, this`freeLevel, this`freeLevels, this`activeLevels, this`bidRoot, this`askRoot,
               this`bidTree, this`askTree
      ensures ViewOk(View()) && Shrunk(old(View()), View(), side, z)
      ensures steps <= 2 * MaxHeight(|Nodes(old(View()).TreeOf(side))|)
    {
      hide MaxHeight, Avl, Nodes, Inorder, Unlinked, Climbing, LevelPool, Within, OrderAround, NodesAround, Sorted,
           LevelDropped, PriceTree, RemovedOnly;
      ghost var v, tree, root := View(), View().TreeOf(side), RootOf(side);
      var root', rebalance;
      ghost var u;
      PriceTreeAvl(levels, tree, root);
      root', rebalance, u, steps := UnlinkLevel(RootOf(side), z, tree);
      UnlinkingWithin(v.levels, levels, root, root', z, rebalance, u, tree);
      ghost var unlinked := levels;
      TreeAvoids(v.levels, tree, root, freeLevel, freeLevels, z);
      PoolKeeps(v.levels, levels, freeLevel, freeLevels, Nodes(tree));
      ReleaseReady(v.levels, levels, tree, root, z);
      LevelRelease(z);
      ghost var next, b, a := AfterUnlinking(v.levels, unlinked, levels, root, root', z, rebalance, u, tree);
      ghost var tree', released := if next.Done? then next.tree else Leaf, levels;
      WithinRefl(levels, Nodes(tree) - {z});
      if rebalance != NONE {
        ghost var turns;
        root', tree', turns := RebalanceUp(root', rebalance, next.path, next.left, next.right, next.hl, next.hr);
        steps := steps + turns;
        OneLess(Nodes(tree), z);
      }
      RemovalFrame(v.levels, unlinked, released, levels, Nodes(tree), z, v.freeLevel);
      RemovalDone(v.levels, levels, tree, root, tree', root', b, z, a);
      RemovalSpares(v.levels, levels, v.TreeOf(Opposite(side)), v.RootOf(Opposite(side)), Nodes(tree), z);
      PoolKeeps(released, levels, freeLevel, freeLevels, Nodes(tree'));
      RemovedLengths(v.levels, levels, Nodes(tree), z);
      SetRootOf(side, root', tree');
    }

    // ---------- Id lookup ----------

    function Hash(id: u64): int
      reads this`lookup
      requires |lookup| > 0
    {
      mix(id) % |lookup|
    }

    method LookupFind(id: u64, ghost index: map<u64, int>) returns (o: int)
      requires LookupOk(lookup, mix, index)
      ensures o == if id in index then index[id] else NONE
    {
      hide Table, NoTombstones;
      var pos := Hash(id);
      ghost var home := Homing(mix, |lookup|);
      assert pos == home(id);
      var n := 0;
      while n < |lookup|
        invariant 0 <= n <= |lookup| && 0 <= pos < |lookup| && (n < |lookup| ==> pos == Probe(home(id), n, |lookup|))
        invariant Probed(lookup, home(id), n, id)
      {
        var s := lookup[pos];
        if s.state == Empty {
          Absent(lookup, home, index, id, n);
          return NONE;
        }
        Present(lookup, home, index, id, pos);
        if s.state == Occupied && s.id == id {
          return s.value;
        }
        NextProbe(pos, |lookup|);
        n, pos := n + 1, (pos + 1) % |lookup|;
      }
      Absent(lookup, home, index, id, n);
      return NONE;
    }

    method LookupInsert(id: u64, o: int, ghost index: map<u64, int>) returns (ok: bool)
      requires LookupOk(lookup, mix, index) && |index| < |lookup|
      modifies this`lookup
      ensures ok <==> id !in index
      ensures |lookup| == old(|lookup|) && LookupOk(lookup, mix, if ok then index[id := o] else index) &&
              (!ok ==> lookup == old(lookup))
    {
      hide Table, NoTombstones, Reachable;
      ghost var home := Homing(mix, |lookup|);
      var pos, firstTomb := Hash(id), |lookup|;
      assert pos == home(id);
      var n := 0;
      while n < |lookup|
        invariant 0 <= n <= |lookup| && 0 <= pos < |lookup| && lookup == old(lookup)
        invariant n < |lookup| ==> pos == Probe(home(id), n, |lookup|)
        invariant Probed(lookup, home(id), n, id)
        invariant firstTomb == |lookup|
      {
        var s := lookup[pos];
        Present(lookup, home, index, id, pos);
        if s.state == Occupied && s.id == id {
          return false;
        }
        NoTombstoneAt(lookup, pos);
        if s.state == Tombstone && firstTomb == |lookup| {
          firstTomb := pos;
        }
        if s.state == Empty {
          Absent(lookup, home, index, id, n);
          ProbedArc(lookup, home(id), n);
          Store(lookup, home, index, id, o, pos);
          lookup := lookup[(if firstTomb == |lookup| then pos else firstTomb) := Slot(id, o, Occupied)];
          return true;
        }
        NextProbe(pos, |lookup|);
        n, pos := n + 1, (pos + 1) % |lookup|;
      }
      ghost var j := EmptyOnProbe(lookup, home, index, home(id));
      assert false;
    }

    method LookupErase(id: u64, ghost index: map<u64, int>)
      requires LookupOk(lookup, mix, index) && |index| < |lookup|
      modifies this`lookup
      ensures |lookup| == old(|lookup|) && LookupOk(lookup, mix, index - {id})
    {
      hide Table, NoTombstones;
      ghost var home := Homing(mix, |lookup|);
      var pos := Hash(id);
      assert pos == home(id);
      var n := 0;
      while n < |lookup|
        invariant 0 <= n <= |lookup| && 0 <= pos < |lookup| && lookup == old(lookup)
        invariant n < |lookup| ==> pos == Probe(home(id), n, |lookup|)
        invariant Probed(lookup, home(id), n, id)
      {
        var s := lookup[pos];
        if s.state == Empty {
          Absent(lookup, home, index, id, n);
          assert index - {id} == index;
          return;
        }
        if s.state == Occupied && s.id == id {
          ShiftBack(pos, id, index);
          return;
        }
        NextProbe(pos, |lookup|);
        n, pos := n + 1, (pos + 1) % |lookup|;
      }
      Absent(lookup, home, index, id, n);
      assert index - {id} == index;
    }

    /** The inner loop of LookupErase: later entries of the cluster move back over the hole. */
    method ShiftBack(pos: int, ghost id: u64, ghost index: map<u64, int>)
      requires LookupOk(lookup, mix, index) && |index| < |lookup| && Has(lookup, pos, id)
      modifies this`lookup
      ensures |lookup| == old(|lookup|) && LookupOk(lookup, mix, index - {id})
    {
      hide Table, NoTombstones, Shifting, Crosses;
      ghost var home, rest := Homing(mix, |lookup|), index - {id};
      EmptySlot(lookup, home, index);
      ghost var e :| 0 <= e < |lookup| && lookup[e].state == Empty;
      ShiftStart(lookup, home, index, id, pos);
      var hole := pos;
      var scan := (pos + 1) % |lookup|;
      ShiftFacts(lookup, home, rest, hole, scan);
      while lookup[scan].state != Empty
        invariant |lookup| == old(|lookup|) && 0 <= scan < |lookup| && Used(lookup, hole)
        invariant Shifting(lookup, home, rest, hole, scan) && 0 <= e < |lookup| && lookup[e].state == Empty
        decreases Distance(scan, e, |lookup|)
      {
        ShiftStep(lookup, home, rest, hole, scan, e);
        var crosses := Crosses(hole, scan, Hash(lookup[scan].id));
        assert crosses == Crosses(hole, scan, home(lookup[scan].id));
        if crosses {
          lookup := lookup[hole := lookup[scan]];
          hole := scan;
        }
        scan := (scan + 1) % |lookup|;
      }
      ShiftEnd(lookup, home, rest, hole, scan, Slot(0, NONE, Empty));
      lookup := lookup[hole := Slot(0, NONE, Empty)];
    }

    // ---------- Order pool ----------

    method AcquireOrder() returns (o: int)
      requires OrderPool(orders, freeOrder, freeOrders)
      modifies this`orders, this`freeOrder, this`freeOrders
      ensures if old(freeOrders) == [] then
                o == NONE && orders == old(orders) && freeOrder == old(freeOrder) && freeOrders == []
              else
                o != NONE && Acquired(old(orders), old(freeOrders), orders, freeOrder, freeOrders, o)
    {
      if freeOrder == NONE {
        return NONE;
      }
      OrderPoolPop(orders, freeOrder, freeOrders);
      o := freeOrder;
      freeOrder := orders[o].freeNext;
      orders := orders[o := BlankOrder(NONE)];
      orders := orders[o := orders[o].(level := NONE)];
      orders := orders[o := orders[o].(freeNext := NONE)];
      orders := orders[o := orders[o].(active := true)];
      freeOrders := freeOrders[1..];
      OrderPoolFrame(old(orders), orders, freeOrder, freeOrders);
    }

    method ReleaseOrder(o: int)
      requires OrderPool(orders, freeOrder, freeOrders) && 0 <= o < |orders| && o !in freeOrders
      modifies this`orders, this`freeOrder, this`freeOrders
      ensures OrderPool(orders, freeOrder, freeOrders)
      ensures orders == old(orders)[o := BlankOrder(old(freeOrder))] && freeOrder == o &&
              freeOrders == [o] + old(freeOrders)
    {
      orders := orders[o := BlankOrder(NONE)];
      orders := orders[o := orders[o].(level := NONE)];
      orders := orders[o := orders[o].(freeNext := freeOrder)];
      OrderPoolFrame(old(orders), orders, freeOrder, freeOrders);
      OrderPoolPush(orders, freeOrder, freeOrders, o);
      freeOrder := o;
      freeOrders := [o] + freeOrders;
    }

    // ---------- FIFO queues ----------

    method Append(li: int, o: int)
      requires CanAppend(orders, levels, li, o)
      modifies this`orders, this`levels
      ensures orders == OrdersAfterAppend(old(orders), old(levels), li, o)
      ensures levels == LevelsAfterAppend(old(orders), old(levels), li, o)
    {
      orders := orders[o := orders[o].(prev := levels[li].tail)];
      orders := orders[o := orders[o].(next := NONE)];
      if levels[li].tail != NONE {
        orders := orders[levels[li].tail := orders[levels[li].tail].(next := o)];
      } else {
        levels := levels[li := levels[li].(head := o)];
      }
      levels := levels[li := levels[li].(tail := o)];
      levels := levels[li := levels[li].(totalQuantity := Wrap64(levels[li].totalQuantity + orders[o].quantity))];
      levels := levels[li := levels[li].(orderCount := Wrap32(levels[li].orderCount + 1))];
    }

    method Unlink(li: int, o: int)
      requires CanUnlink(orders, levels, li, o)
      modifies this`orders, this`levels
      ensures orders == OrdersAfterUnlink(old(orders), o)
      ensures levels == LevelsAfterUnlink(old(orders), old(levels), li, o)
    {
      if orders[o].prev != NONE {
        orders := orders[orders[o].prev := orders[orders[o].prev].(next := orders[o].next)];
      } else {
        levels := levels[li := levels[li].(head := orders[o].next)];
      }
      if orders[o].next != NONE {
        orders := orders[orders[o].next := orders[orders[o].next].(prev := orders[o].prev)];
      } else {
        levels := levels[li := levels[li].(tail := orders[o].prev)];
      }
      levels := levels[li := levels[li].(totalQuantity := Wrap64(levels[li].totalQuantity - orders[o].quantity))];
      levels := levels[li := levels[li].(orderCount := Wrap32(levels[li].orderCount - 1))];
    }

    // ---------- The invariant ----------

    /** Everything that holds between the steps of an operation. */
    ghost predicate Core()
      reads this
    {
      CoreOk(orders, View(), shadow)
    }

    ghost function State(): Snapshot
      reads this
    {
      Snapshot(orders, View(), lookup, freeOrder, freeOrders, activeOrders, shadow)
    }

    ghost predicate Valid()
      reads this
    {
      BookOk(State(), mix)
    }

    ghost function Limit(): Limits
      reads this`orders, this`levels
    {
      Limits(|orders|, |levels|)
    }

    /** LevelGetOrAdd, with the new price entered in the shadow. */
    method LevelFor(side: Side, p: u32) returns (li: int, err: BookError)
      requires Core()
      modifies this`levels, this`freeLevel, this`freeLevels, this`activeLevels, this`bidRoot, this`askRoot,
               this`bidTree, this`askTree, this`shadow
      ensures LevelForOk(orders, old(View()), View(), old(shadow), shadow, Key(side, p), li, err)
    {
      ghost var k, v := Key(side, p), View();
      PriceInMap(orders, v, shadow, k);
      hide CoreOk, HasPrice, Grown, Nodes;
      CoreView(orders, v, shadow);
      ghost var turns;
      li, err, turns := LevelGetOrAdd(side, p);
      if k in shadow.at {
        LevelInMap(orders, v, shadow, k, li);
      } else if err == Ok {
        CoreGrows(orders, v, View(), shadow, k, li);
        shadow := WithLevel(shadow, k, li);
      }
    }

    // ---------- Operations ----------

    method Fill(o: int, li: int, id: u64, side: Side, q: u32, p: u32)
      requires 0 <= o < |orders| && orders[o] == BlankOrder(NONE).(active := true)
      modifies this`orders
      ensures orders == old(orders)[o := Contents(id, Entry(side, p, q), li)]
    {
      orders := orders[o := orders[o].(id := id)];
      orders := orders[o := orders[o].(side := side)];
      orders := orders[o := orders[o].(quantity := q)];
      orders := orders[o := orders[o].(price := p)];
      orders := orders[o := orders[o].(level := li)];
    }

    /** The second half of Add: fills in the acquired slot o, indexes it and queues it at level li. */
    method Enter(o: int, li: int, id: u64, side: Side, q: u32, p: u32)
      requires Entering(State(), mix, id, Key(side, p), o) && li == shadow.at[Key(side, p)]
      modifies this`orders, this`levels, this`lookup, this`activeOrders, this`shadow
      ensures Entered(old(State()), State(), mix, id, Entry(side, p, q), o)
    {
      hide Entering, Entered, LookupOk, WithOrder, Filled, OrdersAfterAppend, LevelsAfterAppend, CanAppend, Contents;
      ghost var st, e := State(), Entry(side, p, q);
      EnteringFacts(st, mix, id, e, o);
      Fill(o, li, id, side, q, p);
      var inserted := LookupInsert(id, o, shadow.index);
      if !inserted {
        assert false;
      }
      Append(li, o);
      activeOrders := activeOrders + 1;
      shadow := WithOrder(shadow, Key(side, p), id, e, o);
      EnterDone(st, State(), mix, id, e, o);
    }

    /**
     Adds an order at the back of its price. A refused add leaves every array, list and tree exactly as
     it was; in particular an exhausted level pool gives the order slot back to the front of its list.
     */
    method Add(id: u64, side: Side, q: u32, p: u32) returns (err: BookError)
      requires Valid()
      modifies this`orders, this`levels, this`lookup, this`freeOrder, this`freeLevel, this`bidRoot, this`askRoot,
               this`activeOrders, this`activeLevels,
        this`bidTree, this`askTree, this`freeLevels, this`freeOrders, this`shadow
      ensures Refines(old(State()), State(), mix, err, BookSpec.Add(old(shadow.book), old(Limit()), id, side, q, p))
    {
      hide BookOk, CoreOk, LookupOk, OrderPool, BookSpec.Add, Acquired, LevelForOk, Refines, Entering, Entered;
      ghost var st, k := State(), Key(side, p);
      if q == 0 {
        AddRefused(st, mix, id, side, q, p, InvalidQuantity);
        return InvalidQuantity;
      }
      ReadyToFind(st, mix);
      FoundMeans(st, mix, id);
      var found := LookupFind(id, shadow.index);
      if found != NONE {
        AddRefused(st, mix, id, side, q, p, DuplicateOrder);
        return DuplicateOrder;
      }
      var o := AcquireOrder();
      if o == NONE {
        AddRefused(st, mix, id, side, q, p, OrderPoolExhausted);
        return OrderPoolExhausted;
      }
      CoreAcquired(st, mix, orders, freeOrder, freeOrders, o);
      var li;
      li, err := LevelFor(side, p);
      LevelForCases(orders, st.view, View(), st.shadow, shadow, k, li, err);
      if li == NONE {
        AcquireUndone(st, orders, freeOrder, freeOrders, o);
        ReleaseOrder(o);
        AddRefused(st, mix, id, side, q, p, LevelPoolExhausted);
        return err;
      }
      ReadyToEnter(st, mix, orders, freeOrder, freeOrders, o, View(), shadow, k, li, id);
      ghost var mid := State();
      Enter(o, li, id, side, q, p);
      AddCompletes(st, mid, State(), mix, id, side, q, p, li, o);
      return Ok;
    }

    /** Takes order id out of its queue, the table and the order array. */
    method Detach(o: int, li: int, id: u64, ghost k: Key, ghost j: int)
      requires Placed(State(), mix, id, o, k, j) && li == shadow.at[k]
      modifies this`orders, this`levels, this`lookup, this`freeOrder, this`freeOrders, this`activeOrders, this`shadow
      ensures Left(old(State()), State(), mix, id, k, j)
    {
      hide CoreOk, OrderPool, LookupOk, Tally, Left, OrdersAfterUnlink, LevelsAfterUnlink, WithoutOrder, CanUnlink,
           Discarding;
      ghost var st := State();
      UnlinkPool(st, mix, id, o, k, j);
      Unlink(li, o);
      LookupErase(id, shadow.index);
      ReleaseOrder(o);
      activeOrders := activeOrders - 1;
      shadow := WithoutOrder(shadow, k, id, j);
      LeaveDone(st, State(), mix, id, o, k, j);
    }

    /** Drops level li if it has no orders left. */
    method DropIfEmpty(side: Side, li: int, ghost k: Key)
      requires Core() && k in shadow.at && li == shadow.at[k] && side == k.side
      modifies this`levels, this`freeLevel, this`freeLevels, this`activeLevels, this`bidRoot, this`askRoot,
               this`bidTree, this`askTree, this`shadow
      ensures Dropped(orders, old(View()), View(), old(shadow), shadow, k)
    {
      hide CoreOk, ViewOk, Shrunk, WithoutLevel, Nodes;
      ghost var v := View();
      CoreView(orders, v, shadow);
      EmptyCount(orders, v, shadow, k);
      if levels[li].orderCount == 0 {
        ghost var _ := LevelRemove(side, li);
        CoreShrinks(orders, v, View(), shadow, k);
        shadow := WithoutLevel(shadow, k);
      }
    }

    /** The common end of Reduce and Erase: order id leaves, and its level with it if that is now empty. */
    method Discard(o: int, side: Side, li: int, id: u64)
      requires Discarding(State(), mix, id, o) && 0 <= o < |orders| && side == orders[o].side && li == orders[o].level
      modifies this`orders, this`levels, this`lookup, this`freeOrder, this`freeLevel, this`bidRoot, this`askRoot,
               this`activeOrders, this`activeLevels,
        this`bidTree, this`askTree, this`freeLevels, this`freeOrders, this`shadow
      ensures Discarded(old(State()), State(), mix, id)
    {
      hide CoreOk, OrderPool, LookupOk, Tally, Discarding, Discarded, Dropped, CanUnlink, WithoutOrder;
      ghost var st := State();
      ghost var k, j := PlaceFacts(st, mix, id, o);
      Detach(o, li, id, k, j);
      ghost var mid := State();
      DropIfEmpty(side, li, k);
      DiscardDone(st, mid, State(), mix, id, o, k, j);
    }

    method Reduce(o: int, q: u32, ghost id: u64) returns (err: BookError)
      requires Valid() && id in shadow.index && shadow.index[id] == o
      modifies this`orders, this`levels, this`lookup, this`freeOrder, this`freeLevel, this`bidRoot, this`askRoot,
               this`activeOrders, this`activeLevels,
        this`bidTree, this`askTree, this`freeLevels, this`freeOrders, this`shadow
      ensures Refines(old(State()), State(), mix, err, BookSpec.Execute(old(shadow.book), id, q))
    {
      hide BookOk, Refines, BookSpec.Execute, Discarding, Discarded;
      ghost var st := State();
      ReduceFacts(st, mix, id, o, q);
      if q == 0 || q > orders[o].quantity {
        ExecuteRefused(st, mix, id, q);
        return InvalidQuantity;
      }
      var li := orders[o].level;
      levels := levels[li := levels[li].(totalQuantity := Wrap64(levels[li].totalQuantity - q))];
      orders := orders[o := orders[o].(quantity := Wrap32(orders[o].quantity - q))];
      shadow := WithQuantity(shadow, id, orders[o].quantity);
      ghost var mid := State();
      if orders[o].quantity == 0 {
        ReducedDiscarding(st, mid, mix, id, o, q);
        Discard(o, orders[o].side, li, orders[o].id);
        WhollyReduced(st, mid, State(), mix, id, o, q);
      } else {
        PartlyReduced(st, mid, mix, id, o, q);
      }
      return Ok;
    }

    method Execute(id: u64, q: u32) returns (err: BookError)
      requires Valid()
      modifies this`orders, this`levels, this`lookup, this`freeOrder, this`freeLevel, this`bidRoot, this`askRoot,
               this`activeOrders, this`activeLevels,
        this`bidTree, this`askTree, this`freeLevels, this`freeOrders, this`shadow
      ensures Refines(old(State()), State(), mix, err, BookSpec.Execute(old(shadow.book), id, q))
    {
      hide BookOk, Refines, LookupOk, OrderPool;
      ReadyToFind(State(), mix);
      FoundMeans(State(), mix, id);
      var o := LookupFind(id, shadow.index);
      if o == NONE {
        Refused(State(), mix, UnknownOrder);
        return UnknownOrder;
      }
      err := Reduce(o, q, id);
    }

    method Cancel(id: u64, q: u32) returns (err: BookError)
      requires Valid()
      modifies this`orders, this`levels, this`lookup, this`freeOrder, this`freeLevel, this`bidRoot, this`askRoot,
               this`activeOrders, this`activeLevels,
        this`bidTree, this`askTree, this`freeLevels, this`freeOrders, this`shadow
      ensures Refines(old(State()), State(), mix, err, BookSpec.Execute(old(shadow.book), id, q))
    {
      err := Execute(id, q);
    }

    method Erase(id: u64) returns (err: BookError)
      requires Valid()
      modifies this`orders, this`levels, this`lookup, this`freeOrder, this`freeLevel, this`bidRoot, this`askRoot,
               this`activeOrders, this`activeLevels,
        this`bidTree, this`askTree, this`freeLevels, this`freeOrders, this`shadow
      ensures Refines(old(State()), State(), mix, err, BookSpec.Erase(old(shadow.book), id))
    {
      hide BookOk, Refines, LookupOk, OrderPool, Discarding, Discarded;
      ghost var st := State();
      ReadyToFind(st, mix);
      FoundMeans(st, mix, id);
      var o := LookupFind(id, shadow.index);
      if o == NONE {
        Refused(st, mix, UnknownOrder);
        return UnknownOrder;
      }
      RestingDiscarding(st, mix, id, o);
      ReduceFacts(st, mix, id, o, 0);
      Discard(o, orders[o].side, orders[o].level, id);
      Erased(st, State(), mix, id);
      return Ok;
    }

    /** Replaces an order; the new one goes to the back of its price. */
    method Replace(old_: u64, new_: u64, q: u32, p: u32) returns (err: BookError)
      requires Valid()
      modifies this`orders, this`levels, this`lookup, this`freeOrder, this`freeLevel, this`bidRoot, this`askRoot,
               this`activeOrders, this`activeLevels,
        this`bidTree, this`askTree, this`freeLevels, this`freeOrders, this`shadow
      ensures Refines(old(State()), State(), mix, err,
                      BookSpec.Replace(old(shadow.book), old(Limit()), old_, new_, q, p))
    {
      hide BookOk, Refines, LookupOk, OrderPool, PriceTree, BookSpec.Erase, BookSpec.Add;
      ghost var st := State();
      ReadyToFind(st, mix);
      FoundMeans(st, mix, old_);
      FoundMeans(st, mix, new_);
      var o := LookupFind(old_, shadow.index);
      if o == NONE {
        ReplaceRefused(st, mix, old_, new_, q, p, UnknownOrder);
        return UnknownOrder;
      }
      if q == 0 {
        ReplaceRefused(st, mix, old_, new_, q, p, InvalidQuantity);
        return InvalidQuantity;
      }
      if new_ != old_ {
        var other := LookupFind(new_, shadow.index);
        if other != NONE {
          ReplaceRefused(st, mix, old_, new_, q, p, DuplicateOrder);
          return DuplicateOrder;
        }
      }
      ReduceFacts(st, mix, old_, o, 0);
      var side := orders[o].side;
      LevelRoom(st, mix, side, p);
      if p != orders[o].price {
        var li;
        ghost var turns;
        li, turns := LevelFind(RootOf(side), p, st.view.TreeOf(side));
        if li == NONE && freeLevel == NONE {
          ReplaceRefused(st, mix, old_, new_, q, p, LevelPoolExhausted);
          return LevelPoolExhausted;
        }
      }
      assert BookSpec.Replace(shadow.book, Limit(), old_, new_, q, p).error == Ok;
      hide BookSpec.Replace;
      err := Erase(old_);
      ErasedOk(st, State(), mix, old_, err);
      if err != Ok {
        return;
      }
      ghost var mid := State();
      err := Add(new_, side, q, p);
      ReplaceDone(st, mid, State(), mix, old_, new_, q, p, err);
    }

    // ---------- Market depth ----------

    /**
     The next level after i in best-first order: down and then along the far edge of a subtree, or up
     parent links until the way leads from the near side. The ghost arguments place i in the tree.
     */
    method Beyond(side: Side, i: int, ghost path: Path, ghost l: Tree, ghost r: Tree, ghost root: int,
                  ghost order: seq<int>)
      returns (next: int, ghost path': Path, ghost l': Tree, ghost r': Tree, ghost steps: nat)
      requires At(levels, path, l, i, r, root, order)
      ensures Standing(levels, side, path', l', next, r', root, order, |PassedToo(side, path, l, i, r)|)
      ensures var n := |PassedToo(side, path, l, i, r)|;
              n <= |order| && next == if n == |order| then NONE else Best(side, order, n)
      ensures steps <= 2 + Potential(side, path) - Potential(side, path') && (next == NONE ==> path' == Top)
    {
      hide MaxHeight, At, Descent, Passed, PassedToo, PassedAll, OrderAround, NodesAround, LeftChain, RightChain, Best;
      AtChildren(levels, path, l, i, r, root, order);
      if side == Buy && levels[i].left != NONE {
        ghost var child;
        next, path', child, steps := Extreme(levels[i].left, true, InLeft(path, i, r), l, root, i);
        ExtremePassed(side, path, l, i, r, path', child);
        ChainPotential(side, path', if side == Buy then InLeft(path, i, r) else InRight(path, l, i));
        l', r' := child, Leaf;
        Arrive(levels, path', l', next, r', root, order);
        StandingRank(levels, side, path', l', next, r', root, order, |PassedToo(side, path, l, i, r)|);
        return;
      }
      if side == Sell && levels[i].right != NONE {
        ghost var child;
        next, path', child, steps := Extreme(levels[i].right, false, InRight(path, l, i), r, root, i);
        ExtremePassed(side, path, l, i, r, path', child);
        ChainPotential(side, path', if side == Buy then InLeft(path, i, r) else InRight(path, l, i));
        l', r' := Leaf, child;
        Arrive(levels, path', l', next, r', root, order);
        StandingRank(levels, side, path', l', next, r', root, order, |PassedToo(side, path, l, i, r)|);
        return;
      }
      var cur, p := i, levels[i].parent;
      ghost var t := Node(l, i, r);
      path', steps := path, 0;
      ClimbStart(side, path, l, i, r);
      ParentInRange(levels, path, t, root, p, cur);
      while p != NONE && Onward(levels[p], side) == cur
        invariant cur != NONE && (p == NONE || InRange(levels, p)) && Descent(levels, path', t, root, p, cur)
        invariant PassedAll(side, path', t) == PassedToo(side, path, l, i, r) && OrderAround(path', t) == order
        invariant steps == Potential(side, path) - Potential(side, path')
        decreases path'
      {
        ghost var up, a, b := StepUp(levels, side, path', t, root, p, cur);
        steps := steps + 1;
        AtChildren(levels, up, a, p, b, root, order);
        path', t := up, Node(a, p, b);
        cur := p;
        p := levels[p].parent;
        ParentInRange(levels, path', t, root, p, cur);
      }
      next := p;
      if p == NONE {
        ClimbedOut(levels, side, path', t, root, cur);
        l', r' := Leaf, Leaf;
      } else {
        path', l', r' := StepUp(levels, side, path', t, root, p, cur);
        steps := steps + 1;
      }
      StandingRank(levels, side, path', l', next, r', root, order, |PassedToo(side, path, l, i, r)|);
    }

    /** Writes the best levels of one side to `out`, best first, and returns how many. */
    method Depth(side: Side, out: array<Quote>) returns (n: nat, ghost steps: nat)
      requires Valid()
      modifies out
      ensures n <= out.Length && DepthOf(shadow.book, side, out.Length, out[..n])
      ensures forall j :: n <= j < out.Length ==> out[j] == old(out[j])
      ensures steps <= 2 * n + MaxHeight(|Inorder(View().TreeOf(side))|)
    {
      hide BookOk, CoreOk, At, Inorder, Standing, Shown, PassedToo, DepthOf, MaxHeight;
      BookCore(State(), mix);
      ghost var root, order := RootOf(side), Inorder(View().TreeOf(side));
      var i;
      ghost var path, l, r;
      i, path, l, r, steps := Nearest(side);
      n := 0;
      NoneShown(levels, side, order, out[..n]);
      while i != NONE && n < out.Length
        invariant n <= out.Length && Standing(levels, side, path, l, i, r, root, order, n) &&
                  Shown(levels, side, order, out[..n])
        invariant forall j :: n <= j < out.Length ==> out[j] == old(out[j])
        invariant steps <= 2 * n + MaxHeight(|order|) && (i != NONE ==> steps <= 1 + 2 * n - Potential(side, path))
        decreases out.Length - n
      {
        ShowNext(levels, side, path, l, i, r, root, order, out[..n]);
        ghost var shown := out[..n];
        out[n] := Quote(levels[i].price, levels[i].totalQuantity, levels[i].orderCount);
        n := n + 1;
        assert out[..n] == shown + [QuoteOf(levels[i])];
        StandingCost(levels, side, path, l, i, r, root, order, n - 1);
        ghost var turns;
        i, path, l, r, turns := Beyond(side, i, path, l, r, root, order);
        steps := steps + turns;
        StandingCost(levels, side, path, l, i, r, root, order, n);
      }
      if i == NONE { ShownLength(levels, side, path, l, i, r, root, order, out[..n]); }
      DepthFromOrder(orders, View(), shadow, side, out.Length, out[..n]);
    }

    /** The best level of one side, where every walk starts. */
    method Nearest(side: Side) returns (i: int, ghost path: Path, ghost l: Tree, ghost r: Tree, ghost steps: nat)
      requires Core()
      ensures Standing(levels, side, path, l, i, r, RootOf(side), Inorder(View().TreeOf(side)), 0)
      ensures var order := Inorder(View().TreeOf(side)); i == if order == [] then NONE else Best(side, order, 0)
      ensures steps <= MaxHeight(|Inorder(View().TreeOf(side))|) && (i != NONE ==> steps == 1 - Potential(side, path))
    {
      hide MaxHeight, Descent, Inorder, OrderAround, NodesAround, Before, After;
      ghost var tree, root, child := View().TreeOf(side), RootOf(side), Leaf;
      SideTree(orders, View(), shadow, side);
      DescentTop(levels, tree, root);
      i, path, child, steps := Extreme(RootOf(side), side == Buy, Top, tree, root, NONE);
      l, r := if side == Buy then child else Leaf, if side == Buy then Leaf else child;
      NearestPassed(side, path, child);
      if i != NONE {
        Arrive(levels, path, l, i, r, root, Inorder(tree));
        AtCost(levels, path, l, i, r, root, Inorder(tree));
        ChainPotential(side, path, Top);
      }
      StandingRank(levels, side, path, l, i, r, root, Inorder(tree), 0);
    }

    method BestBid() returns (q: Quote)
      requires Valid()
      ensures Tops(shadow.book, Buy, q)
    {
      hide BookOk, CoreOk, Standing, Inorder, Tops;
      BookCore(State(), mix);
      var i;
      ghost var path, l, r;
      ghost var turns;
      i, path, l, r, turns := Nearest(Buy);
      TopsFrom(State(), mix, Buy, path, l, i, r, bidRoot);
      return if i == NONE then NO_QUOTE else Quote(levels[i].price, levels[i].totalQuantity, levels[i].orderCount);
    }

    method BestAsk() returns (q: Quote)
      requires Valid()
      ensures Tops(shadow.book, Sell, q)
    {
      hide BookOk, CoreOk, Standing, Inorder, Tops;
      BookCore(State(), mix);
      var i;
      ghost var path, l, r;
      ghost var turns;
      i, path, l, r, turns := Nearest(Sell);
      TopsFrom(State(), mix, Sell, path, l, i, r, askRoot);
      return if i == NONE then NO_QUOTE else Quote(levels[i].price, levels[i].totalQuantity, levels[i].orderCount);
    }

    /** The resting order with the given id, as the abstract book has it. */
    method Find(id: u64) returns (found: Option<Order>)
      requires Valid()
      ensures found.None? <==> id !in shadow.book.orders
      ensures found.Some? ==>
        found.value.id == id &&
        Entry(found.value.side, found.value.price, found.value.quantity) == shadow.book.orders[id]
    {
      hide BookOk, LookupOk, OrderPool;
      ReadyToFind(State(), mix);
      FoundMeans(State(), mix, id);
      var o := LookupFind(id, shadow.index);
      if o == NONE {
        return None;
      }
      ReduceFacts(State(), mix, id, o, 0);
      return Some(orders[o]);
    }

    // ---------- Messages and runs ----------

    function Stats(): Stats
      reads this`accepted, this`ignored, this`rejected
    {
      Processing.Stats(accepted, ignored, rejected)
    }

    method Process(m: Message) returns (err: BookError)
      requires Valid()
      modifies this
      ensures Refines(old(State()), State(), mix, err, Interpret(old(shadow.book), old(Limit()), symbol, m))
      ensures Stats() == Counted(old(Stats()), err)
    {
      hide BookOk, Refines, BookSpec.Add, BookSpec.Execute, BookSpec.Erase, BookSpec.Replace, StockView, Wrap64,
           Counted, SymbolMatches;
      err := Ok;
      match m {
        case AddOrder(_, id, side, q, stock, p) => err := AddMatching(stock, id, side, q, p);
        case AddOrderMpid(_, id, side, q, stock, p, _) => err := AddMatching(stock, id, side, q, p);
        case OrderExecuted(_, id, q, _) => err := Execute(id, q);
        case OrderExecutedWithPrice(_, id, q, _, _, _) => err := Execute(id, q);
        case OrderCancel(_, id, q) => err := Cancel(id, q);
        case OrderDelete(_, id) => err := Erase(id);
        case OrderReplace(_, id, newId, q, p) => err := Replace(id, newId, q, p);
        case Other(_, _) => Refused(State(), mix, Ok);
      }
      Count(err);
    }

    /** The end of Process: every message is counted once. */
    method Count(err: BookError)
      modifies this`accepted, this`ignored, this`rejected
      ensures Stats() == Counted(old(Stats()), err) && State() == old(State())
    {
      if err == Ok {
        accepted := Wrap64(accepted + 1);
      } else if err == WrongSymbol || err == UnknownOrder {
        ignored := Wrap64(ignored + 1);
      } else {
        rejected := Wrap64(rejected + 1);
      }
    }

    /** The first branch of Process. */
    method AddMatching(stock: Stock, id: u64, side: Side, q: u32, p: u32) returns (err: BookError)
      requires Valid()
      modifies this`orders, this`levels, this`lookup, this`freeOrder, this`freeLevel, this`bidRoot, this`askRoot,
               this`activeOrders, this`activeLevels,
        this`bidTree, this`askTree, this`freeLevels, this`freeOrders, this`shadow
      ensures Refines(old(State()), State(), mix, err,
                      if SymbolMatches(symbol, stock) then BookSpec.Add(old(shadow.book), old(Limit()), id, side, q, p)
                      else Outcome(WrongSymbol, old(shadow.book)))
    {
      hide BookOk, Refines, BookSpec.Add, StockView;
      if !SymbolMatches(symbol, stock) {
        Refused(State(), mix, WrongSymbol);
        return WrongSymbol;
      }
      err := Add(id, side, q, p);
    }

    /** Every run of commands, from any valid state, is a run of the abstract book, return codes included. */
    method Run(cmds: seq<Command>) returns (errors: seq<BookError>)
      requires Valid()
      modifies this
      ensures Valid() && Limit() == old(Limit())
      ensures (errors, shadow.book) == BookSpec.Run(old(shadow.book), old(Limit()), cmds)
    {
      hide BookOk, BookSpec.Add, BookSpec.Execute, BookSpec.Erase, BookSpec.Replace;
      errors := [];
      ghost var b, lim := shadow.book, Limit();
      for n := 0 to |cmds|
        invariant Valid() && Limit() == lim && (errors, shadow.book) == BookSpec.Run(b, lim, cmds[..n])
      {
        RunSnoc(b, lim, cmds[..n], cmds[n]);
        assert cmds[..n + 1] == cmds[..n] + [cmds[n]];
        var err;
        match cmds[n] {
          case AddCmd(id, side, q, p) => err := Add(id, side, q, p);
          case ExecuteCmd(id, q) => err := Execute(id, q);
          case CancelCmd(id, q) => err := Cancel(id, q);
          case EraseCmd(id) => err := Erase(id);
          case ReplaceCmd(id, newId, q, p) => err := Replace(id, newId, q, p);
        }
        errors := errors + [err];
      }
      assert cmds[..|cmds|] == cmds;
    }

    /** Every stream of messages leaves the book and the counters that the specification gives. */
    method ProcessAll(ms: seq<Message>)
      requires Valid()
      modifies this
      ensures Valid() && Limit() == old(Limit())
      ensures Desk(shadow.book, Stats()) == ReplayAll(Desk(old(shadow.book), old(Stats())), old(Limit()), symbol, ms)
    {
      hide BookOk, Interpret, Counted;
      ghost var d, lim := Desk(shadow.book, Stats()), Limit();
      for n := 0 to |ms|
        invariant Valid() && Limit() == lim && Desk(shadow.book, Stats()) == ReplayAll(d, lim, symbol, ms[..n])
      {
        ReplayConcat(d, lim, symbol, ms[..n], [ms[n]]);
        assert ms[..n + 1] == ms[..n] + [ms[n]];
        var _ := Process(ms[n]);
      }
      assert ms[..|ms|] == ms;
    }

    // ---------- Construction ----------

    /** The constructor's loops: every slot is linked to the next. */
    method LinkOrders()
      requires forall j :: 0 <= j < |orders| ==> orders[j] == BlankOrder(NONE)
      modifies this`orders
      ensures |orders| == old(|orders|) &&
              forall j :: 0 <= j < |orders| ==> orders[j] == BlankOrder(ChainNext(j, |orders|))
    {
      for i := 0 to |orders|
        invariant |orders| == old(|orders|)
        invariant forall j :: 0 <= j < |orders| ==>
                    orders[j] == BlankOrder(if j < i then ChainNext(j, |orders|) else NONE)
      {
        orders := orders[i := orders[i].(freeNext := if i + 1 < |orders| then i + 1 else NONE)];
      }
    }

    method LinkLevels()
      requires forall j :: 0 <= j < |levels| ==> levels[j] == BlankLevel(NONE)
      modifies this`levels
      ensures |levels| == old(|levels|) &&
              forall j :: 0 <= j < |levels| ==> levels[j] == BlankLevel(ChainNext(j, |levels|))
    {
      for i := 0 to |levels|
        invariant |levels| == old(|levels|)
        invariant forall j :: 0 <= j < |levels| ==>
                    levels[j] == BlankLevel(if j < i then ChainNext(j, |levels|) else NONE)
      {
        levels := levels[i := levels[i].(freeNext := if i + 1 < |levels| then i + 1 else NONE)];
      }
    }

    constructor (maxOrders: int, maxLevels: int, symbol: seq<u8>, mix: u64 -> u64)
      requires 1 <= maxOrders <= MAX_INDEX && 1 <= maxLevels <= MAX_INDEX && |symbol| <= 8
      ensures Valid() && shadow.book == EMPTY && Limit() == Limits(maxOrders, maxLevels) && Stats() == NO_STATS
      ensures this.symbol == symbol && this.mix == mix && |lookup| == Max(8, maxOrders * 2 + 1)
    {
      this.mix, this.symbol := mix, symbol;
      orders := seq(maxOrders, _ => BlankOrder(NONE));
      levels := seq(maxLevels, _ => BlankLevel(NONE));
      lookup := seq(Max(8, maxOrders * 2 + 1), _ => Slot(0, NONE, Empty));
      freeOrder, freeLevel, bidRoot, askRoot := 0, 0, NONE, NONE;
      activeOrders, activeLevels, accepted, ignored, rejected := 0, 0, 0, 0, 0;
      bidTree, askTree, freeLevels, freeOrders, shadow := Leaf, Leaf, Chain(maxLevels), Chain(maxOrders), NO_SHADOW;
      new;
      LinkOrders();
      LinkLevels();
      hide BookOk;
      FreshOk(State(), mix);
    }

    /** The checked construction: capacities must be positive int32 values and a symbol has at most eight bytes. */
    static method Create(maxOrders: int, maxLevels: int, symbol: seq<u8>, mix: u64 -> u64)
      returns (made: Option<OrderBook>)
      ensures made.Some? <==> 1 <= maxOrders <= MAX_INDEX && 1 <= maxLevels <= MAX_INDEX && |symbol| <= 8
      ensures made.Some? ==> fresh(made.value) && made.value.Valid() && made.value.shadow.book == EMPTY
      ensures made.Some? ==>
        made.value.Limit() == Limits(maxOrders, maxLevels) && made.value.Stats() == NO_STATS &&
        made.value.symbol == symbol
    {
      hide BookOk;
      if maxOrders <= 0 || maxOrders > MAX_INDEX || maxLevels <= 0 || maxLevels > MAX_INDEX || |symbol| > 8 {
        return None;
      }
      var book := new OrderBook(maxOrders, maxLevels, symbol, mix);
      return Some(book);
    }
  }
}
