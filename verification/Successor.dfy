/**
 Removing a node z that has two children: its in-order successor y takes z's place. On the array this
 is "cut y out of z's right subtree, then rename z to y".
 */
module Successor {
  import opened Types
  import opened LevelTree
  import opened AvlBalance
  import opened Rotations
  import opened Rebalance
  import opened Splice

  /** `path` goes down from `base` by left links only, so nothing comes between base's last node and its hole. */
  ghost predicate LeftChain(path: Path, base: Path) {
    path == base || (path.InLeft? && LeftChain(path.up, base))
  }

  ghost predicate RightChain(path: Path, base: Path) {
    path == base || (path.InRight? && RightChain(path.up, base))
  }

  ghost predicate NotInSiblings(path: Path, z: int) {
    match path
    case Top => true
    case InLeft(up, _, r) => z !in Nodes(r) && NotInSiblings(up, z)
    case InRight(up, l, _) => z !in Nodes(l) && NotInSiblings(up, z)
  }

  function Rename(z: int, y: int, i: int): int { if i == z then y else i }

  function RenamePath(z: int, y: int, path: Path): Path {
    match path
    case Top => Top
    case InLeft(up, i, r) => InLeft(RenamePath(z, y, up), Rename(z, y, i), r)
    case InRight(up, l, i) => InRight(RenamePath(z, y, up), l, Rename(z, y, i))
  }

  function RenameLinks(z: int, y: int, a: PriceLevel): PriceLevel {
    a.(left := Rename(z, y, a.left), right := Rename(z, y, a.right), parent := Rename(z, y, a.parent))
  }

  /** The whole array with z's links moved to y and every link to z redirected to y. */
  ghost function Renamed(z: int, y: int, levels: seq<PriceLevel>): (r: seq<PriceLevel>)
    requires InRange(levels, z)
    ensures |r| == |levels|
    ensures forall i :: 0 <= i < |levels| ==> r[i] == RenameLinks(z, y, levels[if i == y then z else i])
  {
    seq(|levels|, i requires 0 <= i < |levels| => RenameLinks(z, y, levels[if i == y then z else i]))
  }

  lemma {:induction false} RenameTree(levels: seq<PriceLevel>, t: Tree, root: int, p: int, z: int, y: int)
    requires Linked(levels, t, root, p) && InRange(levels, z) && z !in Nodes(t) && y !in Nodes(t)
    ensures Linked(Renamed(z, y, levels), t, root, Rename(z, y, p))
  {
    match t
    case Leaf =>
    case Node(l, i, r) =>
      LinkedInRange(levels, l, levels[i].left, i);
      LinkedInRange(levels, r, levels[i].right, i);
      RenameTree(levels, l, levels[i].left, i, z, y);
      RenameTree(levels, r, levels[i].right, i, z, y);
  }

  lemma {:induction false} RenamePathLinked(levels: seq<PriceLevel>, path: Path, root: int, parent: int, child: int,
                                            z: int, y: int)
    requires PathLinked(levels, path, root, parent, child) && InRange(levels, z) && InRange(levels, y)
    requires NotInSiblings(path, z) && y !in PathNodes(path)
    ensures PathLinked(Renamed(z, y, levels), RenamePath(z, y, path), Rename(z, y, root), Rename(z, y, parent),
                       Rename(z, y, child))
  {
    match path
    case Top =>
    case InLeft(up, i, r) =>
      LinkedInRange(levels, r, levels[i].right, i);
      RenameTree(levels, r, levels[i].right, i, z, y);
      RenamePathLinked(levels, up, root, levels[i].parent, i, z, y);
    case InRight(up, l, i) =>
      LinkedInRange(levels, l, levels[i].left, i);
      RenameTree(levels, l, levels[i].left, i, z, y);
      RenamePathLinked(levels, up, root, levels[i].parent, i, z, y);
  }

  lemma {:induction false} RenamePathHeights(levels: seq<PriceLevel>, path: Path, h: int, z: int, y: int)
    requires PathHeights(levels, path, h) && PathBalanced(path, h) && InRange(levels, z) && InRange(levels, y) &&
             y !in PathNodes(path)
    ensures PathHeights(Renamed(z, y, levels), RenamePath(z, y, path), h)
    ensures PathBalanced(RenamePath(z, y, path), h)
  {
    match path
    case Top =>
    case InLeft(up, i, r) => RenamePathHeights(levels, up, levels[i].height, z, y);
    case InRight(up, l, i) => RenamePathHeights(levels, up, levels[i].height, z, y);
  }

  lemma {:induction false} RenameIdentity(path: Path, z: int, y: int)
    requires z !in PathNodes(path)
    ensures RenamePath(z, y, path) == path && NotInSiblings(path, z)
  {
    match path
    case Top =>
    case InLeft(up, i, r) => RenameIdentity(up, z, y);
    case InRight(up, l, i) => RenameIdentity(up, z, y);
  }

  /** The shape of the path to the successor, before and after renaming. */
  lemma {:induction false} RenameChain(path: Path, outer: Path, l: Tree, z: int, y: int)
    requires LeftChain(path, InRight(outer, l, z)) && PathDisjoint(path) && y !in PathNodes(path)
    ensures NotInSiblings(path, z) && z in PathNodes(path)
    ensures PathNodes(RenamePath(z, y, path)) == PathNodes(path) - {z} + {y}
    ensures PathDisjoint(RenamePath(z, y, path))
    ensures Before(path) == Before(outer) + Inorder(l) + [z]
    ensures Before(RenamePath(z, y, path)) == Before(outer) + Inorder(l) + [y]
    ensures After(RenamePath(z, y, path)) == After(path)
  {
    if path == InRight(outer, l, z) {
      RenameIdentity(outer, z, y);
    } else {
      RenameChain(path.up, outer, l, z, y);
    }
  }

  // ---------- Mutual links ----------

  /** Within a stored tree, child and parent links are each other's inverse. */
  ghost predicate Mutual(levels: seq<PriceLevel>, nodes: set<int>, root: int, p: int) {
    forall i :: i in nodes ==>
      InRange(levels, i) &&
      (levels[i].left == NONE ||
       (levels[i].left in nodes && InRange(levels, levels[i].left) && levels[levels[i].left].parent == i)) &&
      (levels[i].left == NONE || levels[i].left != levels[i].right) &&
      (levels[i].right == NONE ||
       (levels[i].right in nodes && InRange(levels, levels[i].right) && levels[levels[i].right].parent == i)) &&
      (if i == root then levels[i].parent == p
       else levels[i].parent in nodes && InRange(levels, levels[i].parent) &&
            (levels[levels[i].parent].left == i || levels[levels[i].parent].right == i))
  }

  lemma {:induction false} TreeMutual(levels: seq<PriceLevel>, t: Tree, root: int, p: int)
    requires Linked(levels, t, root, p) && Disjoint(t)
    ensures Mutual(levels, Nodes(t), root, p)
  {
    match t
    case Leaf =>
    case Node(l, i, r) =>
      TreeMutual(levels, l, levels[i].left, i);
      TreeMutual(levels, r, levels[i].right, i);
      LinkedInRange(levels, l, levels[i].left, i);
      LinkedInRange(levels, r, levels[i].right, i);
  }

  // ---------- The writes of the two-children case ----------

  /** The array after the writes that cut y out of its old place (none if that place is below z). */
  function CutWrites(levels: seq<PriceLevel>, z: int, y: int): (r: seq<PriceLevel>)
    requires CanReplace(levels, z, y)
    ensures |r| == |levels|
  {
    if levels[y].parent != z then
      var l1 := ChildReplaced(levels, levels[y].parent, y, levels[y].right);
      var l2 := l1[y := l1[y].(right := l1[z].right)];
      l2[l2[y].right := l2[l2[y].right].(parent := y)]
    else levels
  }

  /** The array after the source's writes, up to and including `update(y)`. */
  function Writes(levels: seq<PriceLevel>, z: int, y: int): (r: seq<PriceLevel>)
    requires CanReplace(levels, z, y)
    ensures |r| == |levels|
  {
    var l0 := CutWrites(levels, z, y);
    CutWritesAt(levels, z, y);
    var l3 := ChildReplaced(l0, l0[z].parent, z, y);
    var l4 := l3[y := l3[y].(left := l3[z].left)];
    var l5 := l4[l4[y].left := l4[l4[y].left].(parent := y)];
    Updated(l5, y)
  }

  /** Pointwise, what the cut leaves. */
  ghost predicate CutAt(before: seq<PriceLevel>, after: seq<PriceLevel>, z: int, y: int)
    requires CanReplace(before, z, y)
  {
    var op, c, b := before[y].parent, before[y].right, before[z].right;
    |after| == |before| &&
    if op == z then after == before
    else
      (forall i :: 0 <= i < |before| && i != y && i != op && i != c && i != b ==> after[i] == before[i]) &&
      after[y] == before[y].(right := b) &&
      (if op == b then after[op] == before[op].(left := c, parent := y)
       else after[op] == before[op].(left := c) && after[b] == before[b].(parent := y)) &&
      (c != NONE ==> after[c] == before[c].(parent := op))
  }

  lemma {:induction false} CutWritesAt(levels: seq<PriceLevel>, z: int, y: int)
    requires CanReplace(levels, z, y)
    ensures CutAt(levels, CutWrites(levels, z, y), z, y)
  {}

  /** z has two children, and y (not z's left child) hangs in z's right subtree without a left child. */
  predicate CanReplace(levels: seq<PriceLevel>, z: int, y: int) {
    InRange(levels, z) && InRange(levels, y) && z != y &&
    InRange(levels, levels[z].left) && InRange(levels, levels[z].right) && levels[z].left != levels[z].right &&
    levels[z].left != z && levels[z].right != z && levels[z].left != y &&
    InRange(levels, levels[y].parent) && levels[y].left == NONE && levels[y].parent != y &&
    (levels[y].right == NONE ||
     (InRange(levels, levels[y].right) && levels[levels[y].right].parent == y && levels[y].right != y &&
      levels[y].right != z &&
      levels[y].right != levels[z].left && levels[y].right != levels[z].right &&
      levels[y].right != levels[y].parent)) &&
    (levels[z].parent == NONE ||
     (InRange(levels, levels[z].parent) && levels[z].parent != z && levels[z].parent != y &&
      levels[z].parent != levels[y].parent &&
      levels[z].parent != levels[y].right && levels[z].parent != levels[z].left &&
      levels[z].parent != levels[z].right)) &&
    levels[y].parent != levels[z].left &&
    (levels[y].parent == z <==> levels[z].right == y) &&
    (levels[y].parent != z ==> levels[levels[y].parent].left == y)
  }

  /** What those writes leave at index i: renamed links, with y's subtree spliced into y's old place. */
  ghost predicate Replaced(before: seq<PriceLevel>, after: seq<PriceLevel>, z: int, y: int, i: int)
    requires CanReplace(before, z, y) && InRange(before, i) && |after| == |before|
  {
    var op, c := Rename(z, y, before[y].parent), before[y].right;
    var m := RenameLinks(z, y, before[if i == y then z else i]);
    var m' := if i != op then m else if before[y].parent == z then m.(right := c) else m.(left := c);
    var m'' := if i == c then m'.(parent := op) else m';
    SamePointers(m'', after[i]) && (i != y ==> after[i].height == before[i].height)
  }

  /** Only z's parent links down to z, and only z's children link up to it; likewise for y. */
  lemma {:induction false} Neighbours(levels: seq<PriceLevel>, z: int, y: int, nodes: set<int>, root: int, i: int)
    requires CanReplace(levels, z, y) && Mutual(levels, nodes, root, NONE) && z in nodes && y in nodes && i in nodes
    ensures InRange(levels, i)
    ensures levels[i].left == z || levels[i].right == z ==> i == levels[z].parent
    ensures i == levels[z].parent ==> (levels[i].left == z) != (levels[i].right == z)
    ensures levels[i].parent == z <==> (i == levels[z].left || i == levels[z].right)
  {}

  lemma {:induction false} WritesReplace(levels: seq<PriceLevel>, z: int, y: int, nodes: set<int>, root: int, i: int)
    requires CanReplace(levels, z, y) && Mutual(levels, nodes, root, NONE) && z in nodes && y in nodes && i in nodes &&
             i != z
    ensures InRange(levels, i) && Replaced(levels, Writes(levels, z, y), z, y, i)
  {
    Neighbours(levels, z, y, nodes, root, i);
    hide Mutual;
    CutWritesAt(levels, z, y);
    var l0 := CutWrites(levels, z, y);
    hide CutWrites;
    assert l0[z] == levels[z];
    PlaceWrites(l0, z, y, levels[z].left, levels[z].parent);
    WritesFromCut(levels, l0, Writes(levels, z, y), z, y, i);
  }

  /** Pointwise, what putting y in z's place does after the cut. */
  ghost predicate PlacedAt(before: seq<PriceLevel>, after: seq<PriceLevel>, z: int, y: int, a: int, pz: int) {
    |after| == |before| && InRange(before, y) && InRange(before, a) && (pz == NONE || InRange(before, pz)) &&
    after[y] == before[y].(left := a, parent := pz, height := after[y].height) &&
    after[a] == before[a].(parent := y) &&
    (pz != NONE ==> after[pz] == SetChild(before, pz, z, y)[pz]) &&
    forall i :: 0 <= i < |before| && i != y && i != a && i != pz ==> after[i] == before[i]
  }

  lemma {:induction false} PlaceWrites(l0: seq<PriceLevel>, z: int, y: int, a: int, pz: int)
    requires InRange(l0, z) && InRange(l0, y) && InRange(l0, a) && z != y && z != a && a != y
    requires l0[z].left == a && l0[z].parent == pz
    requires l0[y].right == NONE || InRange(l0, l0[y].right)
    requires pz == NONE || (InRange(l0, pz) && pz != z && pz != y && pz != a)
    ensures var l3 := ChildReplaced(l0, l0[z].parent, z, y);
            var l4 := l3[y := l3[y].(left := l3[z].left)];
            var l5 := l4[l4[y].left := l4[l4[y].left].(parent := y)];
            PlacedAt(l0, Updated(l5, y), z, y, a, pz)
  {}

  lemma {:induction false} WritesFromCut(levels: seq<PriceLevel>, l0: seq<PriceLevel>, after: seq<PriceLevel>, z: int,
                                         y: int, i: int)
    requires CanReplace(levels, z, y) && CutAt(levels, l0, z, y) && InRange(levels, i) && i != z
    requires PlacedAt(l0, after, z, y, levels[z].left, levels[z].parent)
    requires levels[i].left == z || levels[i].right == z ==> i == levels[z].parent
    requires i == levels[z].parent ==> (levels[i].left == z) != (levels[i].right == z)
    requires levels[i].parent == z <==> (i == levels[z].left || i == levels[z].right)
    ensures Replaced(levels, after, z, y, i)
  {
    var a, pz := levels[z].left, levels[z].parent;
    if i == y {
    } else if i == a {
      assert l0[a] == levels[a];
    } else if i == pz {
      assert l0[pz] == levels[pz];
    } else {
      assert after[i] == l0[i];
    }
  }

  /** A left chain below z's right link stays inside z's right subtree. */
  lemma {:induction false} ChainInside(path: Path, base: Path, t: Tree, r: Tree)
    requires LeftChain(path, base) && Separate(path, t) && Separate(base, r)
    requires PathNodes(path) + Nodes(t) == PathNodes(base) + Nodes(r)
    ensures PathNodes(base) <= PathNodes(path) && Nodes(t) <= Nodes(r)
    ensures path != base ==> path.InLeft? && path.at in Nodes(r)
  {
    ChainGrows(path, base);
    if path != base {
      ChainGrows(path.up, base);
    }
  }

  lemma {:induction false} ChainGrows(path: Path, base: Path)
    requires LeftChain(path, base)
    ensures PathNodes(base) <= PathNodes(path)
  {
    if path != base {
      ChainGrows(path.up, base);
    }
  }

  /** CanReplace from membership in z's left subtree nl, its right subtree nr and the rest no. */
  lemma {:induction false} CanReplaceFrom(levels: seq<PriceLevel>, z: int, y: int, nl: set<int>, nr: set<int>,
                                          no: set<int>)
    requires InRange(levels, z) && InRange(levels, y)
    requires nl !! nr && nl !! no && nr !! no && z !in nl && z !in nr && z !in no && NONE !in nl + nr + no
    requires levels[z].left in nl && InRange(levels, levels[z].left)
    requires levels[z].right in nr && InRange(levels, levels[z].right) && levels[levels[z].right].parent == z
    requires levels[z].parent == NONE || (levels[z].parent in no && InRange(levels, levels[z].parent))
    requires y in nr && levels[y].left == NONE && levels[y].parent != y
    requires InRange(levels, levels[y].parent) && (levels[y].parent == z || levels[y].parent in nr)
    requires if levels[y].parent == z then levels[z].right == y else levels[levels[y].parent].left == y
    requires levels[y].right == NONE ||
      (levels[y].right in nr && InRange(levels, levels[y].right) && levels[y].right != y &&
       levels[y].right != levels[y].parent && levels[levels[y].right].parent == y)
    ensures CanReplace(levels, z, y)
  {}

  /** Where the successor sits: everything the source's writes and the renaming rely on. */
  lemma {:induction false} SuccessorPlace(levels: seq<PriceLevel>, outer: Path, l: Tree, z: int, r: Tree, root: int,
                                          path: Path, y: int, yr: Tree)
    requires InRange(levels, z) && InRange(levels, y)
    requires Descent(levels, outer, Node(l, z, r), root, levels[z].parent, z)
    requires l.Node? && r.Node?
    requires Descent(levels, path, Node(Leaf, y, yr), root, levels[y].parent, y) &&
             LeftChain(path, InRight(outer, l, z))
    requires NodesAround(path, Node(Leaf, y, yr)) == NodesAround(outer, Node(l, z, r))
    ensures z in NodesAround(outer, Node(l, z, r)) && y in NodesAround(outer, Node(l, z, r))
    ensures CanReplace(levels, z, y)
  {
    var base := InRight(outer, l, z);
    DescentRight(levels, outer, l, z, r, root, levels[z].parent);
    ZPlace(levels, outer, l, z, r, root);
    YPlace(levels, path, y, yr, root);
    hide Descent, Linked, PathLinked;
    ChainInside(path, base, Node(Leaf, y, yr), r);
    assert path == base ==> levels[y].parent == z;
    assert y in Nodes(r) && (levels[y].right != NONE ==> levels[y].right in Nodes(r));
    hide Nodes, PathNodes, Separate, LeftChain;
    CanReplaceFrom(levels, z, y, Nodes(l), Nodes(r), PathNodes(outer));
  }

  lemma {:induction false} ZPlace(levels: seq<PriceLevel>, outer: Path, l: Tree, z: int, r: Tree, root: int)
    requires InRange(levels, z) && Descent(levels, outer, Node(l, z, r), root, levels[z].parent, z)
    requires l.Node? && r.Node?
    ensures levels[z].left in Nodes(l) && levels[z].right in Nodes(r) && InRange(levels, levels[z].left) &&
            InRange(levels, levels[z].right)
    ensures levels[z].parent == NONE || (InRange(levels, levels[z].parent) && levels[z].parent in PathNodes(outer))
    ensures Separate(outer, Node(l, z, r))
    ensures Nodes(l) !! Nodes(r) && z !in Nodes(l) && z !in Nodes(r) && z !in PathNodes(outer)
    ensures PathNodes(outer) !! Nodes(l) && PathNodes(outer) !! Nodes(r)
    ensures levels[levels[z].right].parent == z && NONE !in Nodes(l) + Nodes(r) + PathNodes(outer)
    ensures z in NodesAround(outer, Node(l, z, r)) && Nodes(r) <= NodesAround(outer, Node(l, z, r))
  {
    PathInRange(levels, outer, root, levels[z].parent, z);
    LinkedInRange(levels, l, levels[z].left, z);
    LinkedInRange(levels, r, levels[z].right, z);
    assert Nodes(Node(l, z, r)) == Nodes(l) + {z} + Nodes(r);
  }

  lemma {:induction false} YPlace(levels: seq<PriceLevel>, path: Path, y: int, yr: Tree, root: int)
    requires InRange(levels, y) && Descent(levels, path, Node(Leaf, y, yr), root, levels[y].parent, y) && path != Top
    ensures Separate(path, Node(Leaf, y, yr))
    ensures y in Nodes(Node(Leaf, y, yr)) && y !in PathNodes(path)
    ensures levels[y].left == NONE && InRange(levels, levels[y].parent) && levels[y].parent in PathNodes(path)
    ensures levels[y].parent == path.at
    ensures path.InLeft? ==> levels[path.at].left == y
    ensures path.InRight? ==> levels[path.at].right == y
    ensures levels[y].right == NONE ||
      (InRange(levels, levels[y].right) && levels[y].right in Nodes(yr) &&
       levels[y].right in Nodes(Node(Leaf, y, yr)) &&
       levels[y].right != y && levels[y].right !in PathNodes(path) && levels[levels[y].right].parent == y)
  {
    assert Nodes(Node(Leaf, y, yr)) == {y} + Nodes(yr);
    assert Linked(levels, Leaf, levels[y].left, y) && Linked(levels, yr, levels[y].right, y);
    LinkedInRange(levels, yr, levels[y].right, y);
  }

  /** Away from z's old parent, y's new height is the one z had. */
  lemma {:induction false} WritesHeight(levels: seq<PriceLevel>, z: int, y: int)
    requires CanReplace(levels, z, y) && levels[y].parent != z
    ensures Writes(levels, z, y)[y].height ==
              Int8(1 + Max(levels[levels[z].left].height, levels[levels[z].right].height))
  {
    var a, pz, b := levels[z].left, levels[z].parent, levels[z].right;
    CutWritesAt(levels, z, y);
    var l0 := CutWrites(levels, z, y);
    hide CutWrites;
    assert l0[a].height == levels[a].height && l0[b].height == levels[b].height && l0[y].right == b &&
           l0[z] == levels[z];
    var l3 := ChildReplaced(l0, pz, z, y);
    assert l3[a].height == l0[a].height && l3[b].height == l0[b].height && l3[y].right == b && l3[z] == l0[z];
    var l4 := l3[y := l3[y].(left := l3[z].left)];
    var l5 := l4[l4[y].left := l4[l4[y].left].(parent := y)];
    assert l5[y].left == a && l5[y].right == b && l5[a].height == l0[a].height && l5[b].height == l0[b].height;
  }

  /** The array after the removal of z: the writes, and anything at all in z's slot. */
  ghost predicate Removed(before: seq<PriceLevel>, after: seq<PriceLevel>, z: int, y: int)
    requires CanReplace(before, z, y)
  {
    |after| == |before| && forall i :: 0 <= i < |before| && i != z ==> after[i] == Writes(before, z, y)[i]
  }

  /** y's old right subtree, hung into y's old place. */
  lemma {:induction false} OrphanMoves(levels: seq<PriceLevel>, after: seq<PriceLevel>, yr: Tree, z: int, y: int,
                                       nodes: set<int>, root: int)
    requires CanReplace(levels, z, y) && Removed(levels, after, z, y)
    requires Mutual(levels, nodes, root, NONE) && z in nodes && y in nodes && Nodes(yr) <= nodes - {z, y} &&
             Disjoint(yr)
    requires Linked(levels, yr, levels[y].right, y) && levels[y].parent !in Nodes(yr)
    ensures Linked(after, yr, levels[y].right, Rename(z, y, levels[y].parent))
  {
    RenameTree(levels, yr, levels[y].right, y, z, y);
    LinkedInRange(levels, yr, levels[y].right, y);
    var mid := Renamed(z, y, levels);
    forall i | i in Nodes(yr)
      ensures InRange(mid, i) && (i != levels[y].right ==> SameLinks(mid[i], after[i]))
      ensures i == levels[y].right ==>
        after[i].left == mid[i].left && after[i].right == mid[i].right && after[i].height == mid[i].height &&
        after[i].parent == Rename(z, y, levels[y].parent)
    {
      WritesReplace(levels, z, y, nodes, root, i);
    }
    LinkedMove(mid, after, yr, levels[y].right, y, Rename(z, y, levels[y].parent));
  }

  /** On the renamed path everything is as the renaming says, and its hole holds y's old right subtree. */
  lemma {:induction false} SpineMoves(levels: seq<PriceLevel>, after: seq<PriceLevel>, path: Path, outer: Path, l: Tree,
                                      z: int, y: int, nodes: set<int>, root: int, i: int)
    requires CanReplace(levels, z, y) && Removed(levels, after, z, y)
    requires Mutual(levels, nodes, root, NONE) && z in nodes && y in nodes && PathNodes(path) <= nodes
    requires levels[y].right !in PathNodes(path) && y !in PathNodes(path)
    requires levels[y].parent != z ==>
               levels[z].height == Int8(1 + Max(levels[levels[z].left].height, levels[levels[z].right].height))
    requires i in PathNodes(path) - {z} + {y}
    ensures InRange(levels, i)
    ensures i != Rename(z, y, levels[y].parent) ==> SameLinks(Renamed(z, y, levels)[i], after[i])
    ensures i == Rename(z, y, levels[y].parent) ==>
      var m := Renamed(z, y, levels)[i];
      SamePointers(if levels[y].parent == z then m.(right := levels[y].right) else m.(left := levels[y].right),
                   after[i])
  {
    WritesReplace(levels, z, y, nodes, root, i);
    if i == y && levels[y].parent != z {
      WritesHeight(levels, z, y);
    }
    hide Writes, Mutual;
  }

  /** z's successor, found from the root of z's right subtree. */
  ghost predicate IsSuccessor(levels: seq<PriceLevel>, outer: Path, l: Tree, z: int, r: Tree, root: int, path: Path,
                              y: int, yr: Tree) {
    InRange(levels, z) && InRange(levels, y) && l.Node? && r.Node? &&
    Descent(levels, outer, Node(l, z, r), root, levels[z].parent, z) &&
    Descent(levels, path, Node(Leaf, y, yr), root, levels[y].parent, y) &&
    LeftChain(path, InRight(outer, l, z)) &&
    OrderAround(path, Node(Leaf, y, yr)) == OrderAround(outer, Node(l, z, r)) &&
    NodesAround(path, Node(Leaf, y, yr)) == NodesAround(outer, Node(l, z, r))
  }

  lemma {:induction false} RootOnPath(levels: seq<PriceLevel>, path: Path, root: int, parent: int, child: int)
    requires PathLinked(levels, path, root, parent, child) && path != Top
    ensures root in PathNodes(path) && parent != NONE
  {
    if path.up != Top {
      RootOnPath(levels, path.up, root, levels[path.at].parent, path.at);
    }
  }

  lemma {:induction false} StoredHeight(levels: seq<PriceLevel>, outer: Path, l: Tree, z: int, r: Tree, root: int)
    requires InRange(levels, z) && l.Node? && r.Node? &&
             Descent(levels, outer, Node(l, z, r), root, levels[z].parent, z)
    requires |levels| <= MAX_INDEX
    ensures InRange(levels, levels[z].left) && InRange(levels, levels[z].right)
    ensures levels[z].height == Int8(1 + Max(levels[levels[z].left].height, levels[levels[z].right].height))
  {
    LinkedInRange(levels, Node(l, z, r), z, levels[z].parent);
    HeightBound(Node(l, z, r), |levels|);
    LinkedHeights(levels, Node(l, z, r), z, levels[z].parent);
  }

  /** Cutting y out and renaming z to y refills the hole that y leaves. */
  lemma {:induction false} SuccessorRefills(levels: seq<PriceLevel>, after: seq<PriceLevel>, outer: Path, l: Tree,
                                            z: int, r: Tree,
                                            root: int, path: Path, y: int, yr: Tree)
    requires IsSuccessor(levels, outer, l, z, r, root, path, y, yr) && |levels| <= MAX_INDEX
    requires InRange(levels, z) && InRange(levels, y) && CanReplace(levels, z, y) && Removed(levels, after, z, y)
    requires Mutual(levels, NodesAround(outer, Node(l, z, r)), root, NONE)
    ensures Refilled(Renamed(z, y, levels), after, RenamePath(z, y, path), Rename(z, y, levels[y].parent), yr,
                     levels[y].right)
    ensures Separate(RenamePath(z, y, path), yr)
  {
    hide IsSuccessor, Descent, Linked, Removed, Mutual, CanReplace, Renamed, RenamePath, Nodes, PathNodes, Separate,
         Disjoint, NodesAround;
    var nodes, op := NodesAround(outer, Node(l, z, r)), levels[y].parent;
    var parent, mid, renamed := Rename(z, y, op), Renamed(z, y, levels), RenamePath(z, y, path);
    SuccessorShape(levels, outer, l, z, r, root, path, y, yr);
    RemovedLength(levels, after, z, y);
    OrphanMoves(levels, after, yr, z, y, nodes, root);
    forall i | i in PathNodes(renamed)
      ensures InRange(mid, i) && (i != parent ==> SameLinks(mid[i], after[i]))
      ensures i == parent ==> SamePointers(Redirected(mid[parent], renamed, levels[y].right), after[parent])
    {
      SpineMoves(levels, after, path, outer, l, z, y, nodes, root, i);
    }
  }

  /** The facts about the successor's place that its removal relies on, one by one. */
  lemma {:induction false} SuccessorShape(levels: seq<PriceLevel>, outer: Path, l: Tree, z: int, r: Tree,
                                          root: int, path: Path, y: int, yr: Tree)
    requires IsSuccessor(levels, outer, l, z, r, root, path, y, yr) && |levels| <= MAX_INDEX
    ensures var nodes, op, renamed := NodesAround(outer, Node(l, z, r)), levels[y].parent, RenamePath(z, y, path);
      z in nodes && y in nodes && CanReplace(levels, z, y) &&
      Linked(levels, yr, levels[y].right, y) && Disjoint(yr) && op !in Nodes(yr) && Nodes(yr) <= nodes - {z, y} &&
      PathNodes(path) <= nodes && levels[y].right !in PathNodes(path) && y !in PathNodes(path) &&
      levels[z].height == Int8(1 + Max(levels[levels[z].left].height, levels[levels[z].right].height)) &&
      PathNodes(renamed) == PathNodes(path) - {z} + {y} && Separate(renamed, yr) &&
      Rename(z, y, op) in PathNodes(renamed) &&
      renamed != Top && (renamed.InLeft? <==> op != z)
  {
    SuccessorPlace(levels, outer, l, z, r, root, path, y, yr);
    StoredHeight(levels, outer, l, z, r, root);
    assert NodesAround(path, Node(Leaf, y, yr)) == NodesAround(outer, Node(l, z, r));
    assert PathLinked(levels, path, root, levels[y].parent, y) && LeftChain(path, InRight(outer, l, z));
    PathInRange(levels, path, root, levels[y].parent, y);
    YPlace(levels, path, y, yr, root);
    assert Linked(levels, yr, levels[y].right, y);
    assert Nodes(Node(Leaf, y, yr)) == {y} + Nodes(yr) && Disjoint(yr);
    hide Descent, Linked, PathLinked, CanReplace, IsSuccessor;
    ChainKind(path, outer, l, z, y);
    RenameChain(path, outer, l, z, y);
  }

  lemma {:induction false} RemovedLength(levels: seq<PriceLevel>, after: seq<PriceLevel>, z: int, y: int)
    requires CanReplace(levels, z, y) && Removed(levels, after, z, y)
    ensures |after| == |levels| && |Renamed(z, y, levels)| == |levels|
  {}

  lemma {:induction false} ChainKind(path: Path, outer: Path, l: Tree, z: int, y: int)
    requires LeftChain(path, InRight(outer, l, z)) && PathDisjoint(path) && y !in PathNodes(path)
    ensures path != Top && RenamePath(z, y, path) != Top && Rename(z, y, path.at) in PathNodes(RenamePath(z, y, path))
    ensures RenamePath(z, y, path).InLeft? <==> path.at != z
  {
    RenameChain(path, outer, l, z, y);
    if path != InRight(outer, l, z) {
      RenameChain(path.up, outer, l, z, y);
    }
  }

  /** The price orders before and after. */
  lemma {:induction false} SuccessorOrder(outer: Path, l: Tree, z: int, path: Path, y: int, yr: Tree)
    requires LeftChain(path, InRight(outer, l, z)) && PathDisjoint(path) && y !in PathNodes(path)
    requires Separate(path, Node(Leaf, y, yr))
    ensures var b, a := Before(outer) + Inorder(l), [y] + Inorder(yr) + After(path);
            OrderAround(path, Node(Leaf, y, yr)) == b + [z] + a && OrderAround(RenamePath(z, y, path), yr) == b + a
    ensures NodesAround(RenamePath(z, y, path), yr) == NodesAround(path, Node(Leaf, y, yr)) - {z}
  {
    RenameChain(path, outer, l, z, y);
    assert Inorder(Node(Leaf, y, yr)) == [y] + Inorder(yr);
    assert Nodes(Node(Leaf, y, yr)) == {y} + Nodes(yr);
    SuccessorRegroup(Before(outer) + Inorder(l), z, y, Inorder(yr), After(path));
    hide Before, After, Inorder, LeftChain, RenamePath;
  }

  lemma {:induction false} SuccessorRegroup(b: seq<int>, z: int, y: int, i: seq<int>, f: seq<int>)
    ensures (b + [z]) + ([y] + i) + f == b + [z] + ([y] + i + f)
    ensures (b + [y]) + i + f == b + ([y] + i + f)
  {}

  lemma {:induction false} RenameRoot(levels: seq<PriceLevel>, outer: Path, root: int, z: int, y: int)
    requires InRange(levels, z) && PathLinked(levels, outer, root, levels[z].parent, z) && z !in PathNodes(outer)
    ensures Rename(z, y, root) == SetRoot(root, levels[z].parent, y)
  {
    if outer != Top {
      RootOnPath(levels, outer, root, levels[z].parent, z);
    }
  }

  /** The complete effect of the two-children case: the loop can climb, and only z has left the order. */
  lemma {:induction false} ReplaceBySuccessor(levels: seq<PriceLevel>, after: seq<PriceLevel>, outer: Path, l: Tree,
                                              z: int, r: Tree,
                                              root: int, path: Path, y: int, yr: Tree)
    returns (next: Climb)
    requires IsSuccessor(levels, outer, l, z, r, root, path, y, yr) && |levels| <= MAX_INDEX
    requires CanReplace(levels, z, y) && Removed(levels, after, z, y)
    requires Mutual(levels, NodesAround(outer, Node(l, z, r)), root, NONE)
    ensures next.Climb? && Climbing(after, next.path, SetRoot(root, levels[z].parent, y), next.left,
                                    Rename(z, y, levels[y].parent), next.right, next.hl, next.hr)
    ensures var t := Node(next.left, Rename(z, y, levels[y].parent), next.right);
            var b, a := Before(outer) + Inorder(l), [y] + Inorder(yr) + After(path);
            OrderAround(outer, Node(l, z, r)) == b + [z] + a && OrderAround(next.path, t) == b + a &&
            NodesAround(next.path, t) == NodesAround(outer, Node(l, z, r)) - {z}
  {
    var op, h := levels[y].parent, Height(Node(Leaf, y, yr));
    SuccessorRefills(levels, after, outer, l, z, r, root, path, y, yr);
    assert Separate(outer, Node(l, z, r)) && Separate(path, Node(Leaf, y, yr)) && y !in PathNodes(path) &&
           z !in PathNodes(outer);
    assert Balanced(yr) && Height(yr) == h - 1;
    assert PathLinked(levels, path, root, op, y) && PathHeights(levels, path, h) && PathBalanced(path, h);
    assert PathLinked(levels, outer, root, levels[z].parent, z);
    hide Descent, Linked, PathLinked, Removed, Mutual, CanReplace, Replaced, Refilled, Before, After, Inorder, Nodes,
         PathNodes,
         Separate, Balanced, Height, PathHeights, PathBalanced, NodesAround, OrderAround, Climbing, RenamePath,
         LeftChain, Renamed;
    RenameRoot(levels, outer, root, z, y);
    SuccessorOrder(outer, l, z, path, y, yr);
    ChainSiblings(path, outer, l, z, y);
    RenamePathLinked(levels, path, root, op, y, z, y);
    RenamePathHeights(levels, path, h, z, y);
    next := Refill(Renamed(z, y, levels), after, RenamePath(z, y, path), Rename(z, y, root), Rename(z, y, op), y, h, yr,
                   levels[y].right);
  }

  lemma {:induction false} ChainSiblings(path: Path, outer: Path, l: Tree, z: int, y: int)
    requires LeftChain(path, InRight(outer, l, z)) && PathDisjoint(path) && y !in PathNodes(path)
    ensures NotInSiblings(path, z) && z in PathNodes(path) && RenamePath(z, y, path) != Top
  {
    RenameChain(path, outer, l, z, y);
  }
}
