/**
 The theory of the price-level AVL trees. A tree lives in the `left`, `right`, `parent` and `height`
 fields of the level array; `Tree` is its mathematical shape, and `Path` is a one-hole context (the
 spine from a node up to the root together with the siblings hanging off it), which is what the loops
 that climb parent pointers walk along.
 */
module LevelTree {
  import opened Types

  datatype Tree = Leaf | Node(left: Tree, at: int, right: Tree)

  datatype Path =
    | Top
    | InLeft(up: Path, at: int, right: Tree)
    | InRight(up: Path, left: Tree, at: int)

  function Height(t: Tree): nat {
    match t
    case Leaf => 0
    case Node(l, _, r) => 1 + Max(Height(l), Height(r))
  }

  function Nodes(t: Tree): set<int> {
    match t
    case Leaf => {}
    case Node(l, i, r) => Nodes(l) + {i} + Nodes(r)
  }

  /** The level indices of a tree in price order. */
  function Inorder(t: Tree): seq<int> {
    match t
    case Leaf => []
    case Node(l, i, r) => Inorder(l) + [i] + Inorder(r)
  }

  function PathNodes(path: Path): set<int> {
    match path
    case Top => {}
    case InLeft(up, i, r) => PathNodes(up) + {i} + Nodes(r)
    case InRight(up, l, i) => PathNodes(up) + {i} + Nodes(l)
  }

  function Plug(path: Path, t: Tree): Tree {
    match path
    case Top => t
    case InLeft(up, i, r) => Plug(up, Node(t, i, r))
    case InRight(up, l, i) => Plug(up, Node(l, i, t))
  }

  /** What precedes the hole of a path in price order. */
  function Before(path: Path): seq<int> {
    match path
    case Top => []
    case InLeft(up, _, _) => Before(up)
    case InRight(up, l, i) => Before(up) + Inorder(l) + [i]
  }

  /** What follows the hole of a path in price order. */
  function After(path: Path): seq<int> {
    match path
    case Top => []
    case InLeft(up, i, r) => [i] + Inorder(r) + After(up)
    case InRight(up, _, _) => After(up)
  }

  ghost predicate Balanced(t: Tree) {
    match t
    case Leaf => true
    case Node(l, _, r) => Balanced(l) && Balanced(r) && -1 <= Height(l) - Height(r) <= 1
  }

  /** Everything above a hole is balanced provided the hole holds a tree of height h. */
  ghost predicate PathBalanced(path: Path, h: int) {
    match path
    case Top => true
    case InLeft(up, _, r) => Balanced(r) && -1 <= h - Height(r) <= 1 && PathBalanced(up, 1 + Max(h, Height(r)))
    case InRight(up, l, _) => Balanced(l) && -1 <= h - Height(l) <= 1 && PathBalanced(up, 1 + Max(h, Height(l)))
  }

  /** No index occurs twice. */
  ghost predicate Disjoint(t: Tree) {
    match t
    case Leaf => true
    case Node(l, i, r) =>
      i !in Nodes(l) && i !in Nodes(r) && Nodes(l) !! Nodes(r) && Disjoint(l) && Disjoint(r)
  }

  ghost predicate PathDisjoint(path: Path) {
    match path
    case Top => true
    case InLeft(up, i, r) =>
      i !in Nodes(r) && i !in PathNodes(up) && Nodes(r) !! PathNodes(up) && Disjoint(r) && PathDisjoint(up)
    case InRight(up, l, i) =>
      i !in Nodes(l) && i !in PathNodes(up) && Nodes(l) !! PathNodes(up) && Disjoint(l) && PathDisjoint(up)
  }

  ghost predicate Separate(path: Path, t: Tree) {
    PathDisjoint(path) && Disjoint(t) && PathNodes(path) !! Nodes(t)
  }

  predicate InRange(levels: seq<PriceLevel>, i: int) { 0 <= i < |levels| }

  /** The array stores tree t rooted at index `root`, hanging below `parent`, with exact heights. */
  ghost predicate Linked(levels: seq<PriceLevel>, t: Tree, root: int, parent: int) {
    match t
    case Leaf => root == NONE
    case Node(l, i, r) =>
      root == i && InRange(levels, i) && levels[i].parent == parent && levels[i].height == Height(t) &&
      Linked(levels, l, levels[i].left, i) && Linked(levels, r, levels[i].right, i)
  }

  /**
   The array stores the context `path` of a hole: the tree's root is `root`, the hole hangs below
   `parent`, and the child link that leads into the hole holds `child`.
   */
  ghost predicate PathLinked(levels: seq<PriceLevel>, path: Path, root: int, parent: int, child: int) {
    match path
    case Top => parent == NONE && root == child
    case InLeft(up, i, r) =>
      parent == i && InRange(levels, i) && levels[i].left == child &&
      Linked(levels, r, levels[i].right, i) && PathLinked(levels, up, root, levels[i].parent, i)
    case InRight(up, l, i) =>
      parent == i && InRange(levels, i) && levels[i].right == child &&
      Linked(levels, l, levels[i].left, i) && PathLinked(levels, up, root, levels[i].parent, i)
  }

  /** The heights stored along the spine are those of a tree whose hole holds a tree of height h. */
  ghost predicate PathHeights(levels: seq<PriceLevel>, path: Path, h: int) {
    match path
    case Top => true
    case InLeft(up, i, r) =>
      InRange(levels, i) && levels[i].height == 1 + Max(h, Height(r)) && PathHeights(levels, up, levels[i].height)
    case InRight(up, l, i) =>
      InRange(levels, i) && levels[i].height == 1 + Max(h, Height(l)) && PathHeights(levels, up, levels[i].height)
  }

  /** Node i fills the hole of `path`, with children l and r; only the height stored at i may be stale. */
  ghost predicate Focus(levels: seq<PriceLevel>, path: Path, root: int, l: Tree, i: int, r: Tree) {
    InRange(levels, i) &&
    PathLinked(levels, path, root, levels[i].parent, i) &&
    Linked(levels, l, levels[i].left, i) && Linked(levels, r, levels[i].right, i) &&
    Separate(path, Node(l, i, r))
  }

  predicate SameLinks(a: PriceLevel, b: PriceLevel) {
    a.left == b.left && a.right == b.right && a.parent == b.parent && a.height == b.height
  }

  /** Apart from its tree links, every level keeps its contents. */
  ghost predicate SameData(before: seq<PriceLevel>, after: seq<PriceLevel>) {
    |before| == |after| &&
    forall i :: 0 <= i < |before| ==>
      before[i] == after[i].(left := before[i].left, right := before[i].right, parent := before[i].parent,
                             height := before[i].height)
  }

  // ---------- Framing ----------

  lemma {:induction false} LinkedInRange(levels: seq<PriceLevel>, t: Tree, root: int, parent: int)
    requires Linked(levels, t, root, parent)
    ensures forall i :: i in Nodes(t) ==> InRange(levels, i)
    ensures root == NONE <==> t == Leaf
    ensures t.Node? ==> root == t.at
  {
    match t
    case Leaf =>
    case Node(l, i, r) =>
      LinkedInRange(levels, l, levels[i].left, i);
      LinkedInRange(levels, r, levels[i].right, i);
  }

  lemma {:induction false} PathInRange(levels: seq<PriceLevel>, path: Path, root: int, parent: int, child: int)
    requires PathLinked(levels, path, root, parent, child)
    ensures forall i :: i in PathNodes(path) ==> InRange(levels, i)
  {
    match path
    case Top =>
    case InLeft(up, i, r) =>
      LinkedInRange(levels, r, levels[i].right, i);
      PathInRange(levels, up, root, levels[i].parent, i);
    case InRight(up, l, i) =>
      LinkedInRange(levels, l, levels[i].left, i);
      PathInRange(levels, up, root, levels[i].parent, i);
  }

  /** A tree survives any update that only re-parents its root. */
  lemma {:induction false} LinkedMove(before: seq<PriceLevel>, after: seq<PriceLevel>, t: Tree, root: int, p: int,
                                      q: int)
    requires |before| == |after|
    requires Linked(before, t, root, p) && Disjoint(t)
    requires forall i :: i in Nodes(t) ==> InRange(before, i) && (i != root ==> SameLinks(before[i], after[i]))
    requires root in Nodes(t) ==>
      after[root].left == before[root].left && after[root].right == before[root].right &&
      after[root].height == before[root].height && after[root].parent == q
    ensures Linked(after, t, root, q)
  {
    match t
    case Leaf =>
    case Node(l, i, r) =>
      LinkedInRange(before, l, before[i].left, i);
      LinkedInRange(before, r, before[i].right, i);
      LinkedMove(before, after, l, before[i].left, i, i);
      LinkedMove(before, after, r, before[i].right, i, i);
  }

  lemma LinkedFrame(before: seq<PriceLevel>, after: seq<PriceLevel>, t: Tree, root: int, p: int)
    requires |before| == |after|
    requires Linked(before, t, root, p) && Disjoint(t)
    requires forall i :: i in Nodes(t) ==> InRange(before, i) && SameLinks(before[i], after[i])
    ensures Linked(after, t, root, p)
  {
    LinkedInRange(before, t, root, p);
    LinkedMove(before, after, t, root, p, p);
  }

  lemma {:induction false} PathFrame(before: seq<PriceLevel>, after: seq<PriceLevel>, path: Path, root: int,
                                     parent: int, child: int)
    requires |before| == |after|
    requires PathLinked(before, path, root, parent, child) && PathDisjoint(path)
    requires forall i :: i in PathNodes(path) ==> InRange(before, i) && SameLinks(before[i], after[i])
    ensures PathLinked(after, path, root, parent, child)
  {
    match path
    case Top =>
    case InLeft(up, i, r) =>
      LinkedFrame(before, after, r, before[i].right, i);
      PathFrame(before, after, up, root, before[i].parent, i);
    case InRight(up, l, i) =>
      LinkedFrame(before, after, l, before[i].left, i);
      PathFrame(before, after, up, root, before[i].parent, i);
  }

  /** The effect of ReplaceChild on the parent's child link. */
  function SetChild(levels: seq<PriceLevel>, p: int, oldChild: int, newChild: int): (r: seq<PriceLevel>)
    requires p == NONE || InRange(levels, p)
    ensures |r| == |levels|
  {
    if p == NONE then levels
    else if levels[p].left == oldChild then levels[p := levels[p].(left := newChild)]
    else levels[p := levels[p].(right := newChild)]
  }

  function SetRoot(root: int, p: int, newChild: int): int { if p == NONE then newChild else root }

  /**
   Redirecting the child link of the hole's parent: the context then leads to the new child. Apart
   from the parent, `after` may differ from `before` only outside the path.
   */
  lemma PathRedirect(before: seq<PriceLevel>, after: seq<PriceLevel>, path: Path, root: int,
                     parent: int, oldChild: int, newChild: int)
    requires |before| == |after|
    requires PathLinked(before, path, root, parent, oldChild) && PathDisjoint(path)
    requires oldChild != NONE && oldChild !in PathNodes(path)
    requires forall i :: i in PathNodes(path) ==> InRange(before, i) && (i != parent ==> SameLinks(before[i], after[i]))
    requires parent != NONE ==> SameLinks(SetChild(before, parent, oldChild, newChild)[parent], after[parent])
    ensures PathLinked(after, path, SetRoot(root, parent, newChild), parent, newChild)
  {
    match path
    case Top =>
    case InLeft(up, i, r) =>
      LinkedFrame(before, after, r, before[i].right, i);
      PathFrame(before, after, up, root, before[i].parent, i);
    case InRight(up, l, i) =>
      LinkedInRange(before, l, before[i].left, i);
      assert before[i].left != oldChild;
      LinkedFrame(before, after, l, before[i].left, i);
      PathFrame(before, after, up, root, before[i].parent, i);
  }

  lemma {:induction false} PathHeightsFrame(before: seq<PriceLevel>, after: seq<PriceLevel>, path: Path, h: int)
    requires |before| == |after|
    requires PathHeights(before, path, h)
    requires forall i :: i in PathNodes(path) ==> InRange(before, i) && after[i].height == before[i].height
    ensures PathHeights(after, path, h)
  {
    match path
    case Top =>
    case InLeft(up, i, r) => PathHeightsFrame(before, after, up, before[i].height);
    case InRight(up, l, i) => PathHeightsFrame(before, after, up, before[i].height);
  }

  // ---------- Contexts and price order ----------

  lemma {:induction false} PlugInorder(path: Path, t: Tree)
    ensures Inorder(Plug(path, t)) == Before(path) + Inorder(t) + After(path)
  {
    match path
    case Top =>
    case InLeft(up, i, r) => PlugInorder(up, Node(t, i, r));
    case InRight(up, l, i) => PlugInorder(up, Node(l, i, t));
  }

  lemma {:induction false} PlugNodes(path: Path, t: Tree)
    ensures Nodes(Plug(path, t)) == PathNodes(path) + Nodes(t)
  {
    match path
    case Top =>
    case InLeft(up, i, r) => PlugNodes(up, Node(t, i, r));
    case InRight(up, l, i) => PlugNodes(up, Node(l, i, t));
  }

  /** A hole that holds a linked tree makes the whole tree linked. */
  lemma {:induction false} PlugLinked(levels: seq<PriceLevel>, path: Path, root: int, t: Tree, parent: int, child: int)
    requires PathLinked(levels, path, root, parent, child)
    requires PathHeights(levels, path, Height(t))
    requires Linked(levels, t, child, parent)
    ensures Linked(levels, Plug(path, t), root, NONE)
  {
    match path
    case Top =>
    case InLeft(up, i, r) => PlugLinked(levels, up, root, Node(t, i, r), levels[i].parent, i);
    case InRight(up, l, i) => PlugLinked(levels, up, root, Node(l, i, t), levels[i].parent, i);
  }

  lemma {:induction false} PlugBalanced(path: Path, t: Tree)
    requires PathBalanced(path, Height(t)) && Balanced(t)
    ensures Balanced(Plug(path, t))
  {
    match path
    case Top =>
    case InLeft(up, i, r) => PlugBalanced(up, Node(t, i, r));
    case InRight(up, l, i) => PlugBalanced(up, Node(l, i, t));
  }

  lemma {:induction false} PlugDisjoint(path: Path, t: Tree)
    requires Separate(path, t)
    ensures Disjoint(Plug(path, t))
  {
    match path
    case Top =>
    case InLeft(up, i, r) => PlugDisjoint(up, Node(t, i, r));
    case InRight(up, l, i) => PlugDisjoint(up, Node(l, i, t));
  }

  lemma {:induction false} NodesInorder(t: Tree, j: int)
    ensures j in Nodes(t) <==> j in Inorder(t)
  {
    match t
    case Leaf =>
    case Node(l, i, r) =>
      NodesInorder(l, j);
      NodesInorder(r, j);
  }
}
