/** The augmented search tree of IntervalTree.h.

    Nodes are routed by `int l = low`, a truncation of the root's lower bound.  The truncation is an
    arbitrary function `key` here: nothing below depends on which one it is. */
module IntervalTrees {

  import opened Options

  datatype Interval = Interval(low: real, high: real, value: int)

  /** The constructor: it swaps bounds given the wrong way round. */
  function MakeInterval(a: real, b: real, value: int): (i: Interval)
    ensures i.low <= i.high && {i.low, i.high} == {a, b} && i.value == value
  {
    if a <= b then Interval(a, b, value) else Interval(b, a, value)
  }

  predicate IsOverlapping(a: Interval, b: Interval) {
    a.low <= b.high && b.low <= a.high
  }

  /** Intervals overlap exactly when they have a point in common. */
  lemma OverlapIff(a: Interval, b: Interval)
    requires a.low <= a.high && b.low <= b.high
    ensures IsOverlapping(a, b) <==> exists x: real :: InInterval(x, a) && InInterval(x, b)
  {
    if IsOverlapping(a, b) {
      var x := if a.low < b.low then b.low else a.low;
      assert InInterval(x, a) && InInterval(x, b);
    }
  }

  ghost predicate InInterval(x: real, i: Interval) { i.low <= x <= i.high }

  // ----- The tree as a value -----

  datatype Tree = Leaf | Branch(left: Tree, i: Interval, max: real, right: Tree)

  function Insert(t: Tree, i: Interval, key: real -> real): Tree {
    match t
    case Leaf => Branch(Leaf, i, i.high, Leaf)
    case Branch(left, r, max, right) =>
      var newMax := if max < i.high then i.high else max;
      if i.low < key(r.low) then Branch(Insert(left, i, key), r, newMax, right)
      else Branch(left, r, newMax, Insert(right, i, key))
  }

  function Search(t: Tree, i: Interval): Option<Interval> {
    match t
    case Leaf => None
    case Branch(left, r, _, right) =>
      if IsOverlapping(r, i) then Some(r)
      else if left.Branch? && left.max >= i.low then Search(left, i)
      else Search(right, i)
  }

  function Contents(t: Tree): multiset<Interval> {
    match t
    case Leaf => multiset{}
    case Branch(left, r, _, right) => Contents(left) + multiset{r} + Contents(right)
  }

  /** Lower bounds on the left are below the truncated bound of the root, those on the right are not. */
  ghost predicate Routed(t: Tree, key: real -> real) {
    t.Branch? ==>
      && (forall x | x in Contents(t.left) :: x.low < key(t.i.low))
      && (forall x | x in Contents(t.right) :: key(t.i.low) <= x.low)
      && Routed(t.left, key) && Routed(t.right, key)
  }

  /** `max` is the largest upper bound stored in the subtree. */
  ghost predicate MaxExact(t: Tree) {
    t.Branch? ==>
      && (forall x | x in Contents(t) :: x.high <= t.max)
      && (exists x :: x in Contents(t) && x.high == t.max)
      && MaxExact(t.left) && MaxExact(t.right)
  }

  lemma AddToLeft(a: multiset<Interval>, b: multiset<Interval>, c: multiset<Interval>, d: multiset<Interval>)
    ensures (a + d) + b + c == (a + b + c) + d
  {
  }

  lemma AddToRight(a: multiset<Interval>, b: multiset<Interval>, c: multiset<Interval>, d: multiset<Interval>)
    ensures a + b + (c + d) == (a + b + c) + d
  {
  }

  lemma InBranch(t: Tree)
    requires t.Branch?
    ensures forall x :: x in Contents(t) <==> x in Contents(t.left) || x == t.i || x in Contents(t.right)
  {
  }

  lemma {:induction false} InsertAddsOne(t: Tree, i: Interval, key: real -> real)
    ensures Contents(Insert(t, i, key)) == Contents(t) + multiset{i}
  {
    if t.Branch? {
      var root, one := multiset{t.i}, multiset{i};
      if i.low < key(t.i.low) {
        InsertAddsOne(t.left, i, key);
        AddToLeft(Contents(t.left), root, Contents(t.right), one);
      } else {
        InsertAddsOne(t.right, i, key);
        AddToRight(Contents(t.left), root, Contents(t.right), one);
      }
    }
  }

  lemma {:induction false} InsertKeepsRouting(t: Tree, i: Interval, key: real -> real)
    requires Routed(t, key)
    ensures Routed(Insert(t, i, key), key)
  {
    if t.Branch? {
      if i.low < key(t.i.low) {
        InsertKeepsRouting(t.left, i, key);
        InsertAddsOne(t.left, i, key);
      } else {
        InsertKeepsRouting(t.right, i, key);
        InsertAddsOne(t.right, i, key);
      }
    }
  }

  lemma {:induction false} InsertKeepsMaxExact(t: Tree, i: Interval, key: real -> real)
    requires MaxExact(t)
    ensures MaxExact(Insert(t, i, key))
  {
    InsertAddsOne(t, i, key);
    var after := Insert(t, i, key);
    if t.Branch? {
      if i.low < key(t.i.low) { InsertKeepsMaxExact(t.left, i, key); } else { InsertKeepsMaxExact(t.right, i, key); }
      var widest := if t.max < i.high then i else var x :| x in Contents(t) && x.high == t.max; x;
      assert widest in Contents(after) && widest.high == after.max;
    } else {
      assert i in Contents(after);
    }
  }

  /** A linear scan would find something. */
  ghost predicate ScanHits(t: Tree, i: Interval) {
    exists x :: x in Contents(t) && IsOverlapping(x, i)
  }

  lemma ScanOfBranch(t: Tree, i: Interval)
    requires t.Branch?
    ensures ScanHits(t, i) <==> ScanHits(t.left, i) || IsOverlapping(t.i, i) || ScanHits(t.right, i)
  {
    InBranch(t);
  }

  /** When the left subtree reaches far enough but holds no overlap, the right one holds none either:
      this is why the search may follow a single path. */
  lemma LeftDecides(t: Tree, i: Interval, key: real -> real)
    requires t.Branch? && t.left.Branch? && Routed(t, key) && MaxExact(t)
    ensures t.left.max >= i.low && ScanHits(t.right, i) ==> ScanHits(t.left, i)
    ensures t.left.max < i.low ==> !ScanHits(t.left, i)
  {
    if t.left.max >= i.low && ScanHits(t.right, i) {
      var x :| x in Contents(t.left) && x.high == t.left.max;
      var y :| y in Contents(t.right) && IsOverlapping(y, i);
      assert x.low < key(t.i.low) <= y.low;
      assert IsOverlapping(x, i);
    }
  }

  lemma {:induction false} SearchIsSound(t: Tree, i: Interval)
    ensures Search(t, i).Some? ==> Search(t, i).value in Contents(t) && IsOverlapping(Search(t, i).value, i)
  {
    if t.Branch? {
      InBranch(t);
      SearchIsSound(t.left, i);
      SearchIsSound(t.right, i);
    }
  }

  /** The only subtree that the search visits when the root does not overlap. */
  function Next(t: Tree, i: Interval): Tree
    requires t.Branch?
  {
    if t.left.Branch? && t.left.max >= i.low then t.left else t.right
  }

  lemma NextDecides(t: Tree, i: Interval, key: real -> real)
    requires t.Branch? && !IsOverlapping(t.i, i) && Routed(t, key) && MaxExact(t)
    ensures ScanHits(t, i) <==> ScanHits(Next(t, i), i)
  {
    ScanOfBranch(t, i);
    if t.left.Branch? { LeftDecides(t, i, key); }
  }

  lemma NextIsSound(t: Tree, i: Interval, key: real -> real)
    requires t.Branch? && Routed(t, key) && MaxExact(t)
    ensures Routed(Next(t, i), key) && MaxExact(Next(t, i))
  {
  }

  /** The pruned search finds an overlapping interval exactly when a linear scan would. */
  lemma {:induction false} SearchEqualsScan(t: Tree, i: Interval, key: real -> real)
    requires Routed(t, key) && MaxExact(t)
    ensures Search(t, i).Some? <==> ScanHits(t, i)
  {
    if t.Branch? {
      if IsOverlapping(t.i, i) {
        ScanOfBranch(t, i);
      } else {
        NextDecides(t, i, key);
        NextIsSound(t, i, key);
        SearchEqualsScan(Next(t, i), i, key);
      }
    }
  }

  function Build(list: seq<Interval>, key: real -> real): Tree {
    if list == [] then Leaf else Insert(Build(list[..|list| - 1], key), list[|list| - 1], key)
  }

  lemma LastOf(list: seq<Interval>)
    requires list != []
    ensures multiset(list) == multiset(list[..|list| - 1]) + multiset{list[|list| - 1]}
  {
    assert list == list[..|list| - 1] + [list[|list| - 1]];
  }

  /** Every tree built by inserts holds exactly what was inserted and satisfies both invariants. */
  lemma {:induction false} BuildIsSound(list: seq<Interval>, key: real -> real)
    ensures Contents(Build(list, key)) == multiset(list)
    ensures Routed(Build(list, key), key) && MaxExact(Build(list, key))
  {
    if list != [] {
      var init, last := list[..|list| - 1], list[|list| - 1];
      BuildIsSound(init, key);
      var before := Build(init, key);
      assert Build(list, key) == Insert(before, last, key);
      InsertAddsOne(before, last, key);
      InsertKeepsRouting(before, last, key);
      InsertKeepsMaxExact(before, last, key);
      LastOf(list);
    }
  }

  /** For every sequence of inserts and every truncation, the answer of the search is that of the scan. */
  lemma SearchAfterInserts(list: seq<Interval>, i: Interval, key: real -> real)
    ensures Search(Build(list, key), i).Some? <==> exists k :: 0 <= k < |list| && IsOverlapping(list[k], i)
  {
    BuildIsSound(list, key);
    SearchEqualsScan(Build(list, key), i, key);
    if k :| 0 <= k < |list| && IsOverlapping(list[k], i) { assert list[k] in multiset(list); }
  }

  // ----- The tree on the heap -----

  /** `tree` is the value that the node and its descendants represent, `Repr` those nodes. */
  class Node {
    var i: Interval
    var max: real
    var left: Node?
    var right: Node?
    ghost var tree: Tree
    ghost var Repr: set<Node>

    constructor (i: Interval)
      ensures Valid() && fresh(Repr) && Repr == {this} && this.i == i && tree == Branch(Leaf, i, i.high, Leaf)
    {
      this.i, max, left, right := i, i.high, null, null;
      tree := Branch(Leaf, i, i.high, Leaf);
      Repr := {this};
    }

    ghost predicate Valid()
      reads this, Repr
      decreases Repr
      ensures Valid() ==> this in Repr && tree.Branch? && tree.i == i && tree.max == max
    {
      && this in Repr
      && (left != null ==> left in Repr && left.Repr <= Repr && this !in left.Repr && left.Valid())
      && (right != null ==> right in Repr && right.Repr <= Repr && this !in right.Repr && right.Valid())
      && (left != null && right != null ==> left.Repr !! right.Repr)
      && Repr == {this} + ReprOf(left) + ReprOf(right)
      && tree == Branch(TreeOf(left), i, max, TreeOf(right))
    }

    /** Stores the subtree that received `inserted` and updates `max`. */
    method Relink(newLeft: Node?, newRight: Node?, high: real, ghost inserted: Node)
      requires ValidTree(newLeft) && ValidTree(newRight) && ReprOf(newLeft) !! ReprOf(newRight)
      requires this !in ReprOf(newLeft) && this !in ReprOf(newRight)
      requires Repr + {inserted} == {this} + ReprOf(newLeft) + ReprOf(newRight)
      modifies this
      ensures Valid() && Repr == old(Repr) + {inserted}
      ensures var max' := if old(max) < high then high else old(max);
        tree == Branch(old(TreeOf(newLeft)), old(i), max', old(TreeOf(newRight)))
    {
      left, right := newLeft, newRight;
      if max < high {
        max := high;
      }
      Repr := Repr + {inserted};
      tree := Branch(TreeOf(left), i, max, TreeOf(right));
    }
  }

  ghost function ReprOf(n: Node?): set<Node>
    reads n
  {
    if n == null then {} else n.Repr
  }

  ghost function TreeOf(n: Node?): Tree
    reads n
  {
    if n == null then Leaf else n.tree
  }

  ghost predicate ValidTree(n: Node?)
    reads n, ReprOf(n)
  {
    n != null ==> n.Valid()
  }

  /** `insertNode`: the cell that `root` points to receives `newRoot`. */
  method InsertNode(root: Node?, i: Interval, key: real -> real) returns (newRoot: Node, inserted: Node)
    requires ValidTree(root)
    modifies ReprOf(root)
    ensures newRoot.Valid() && (root != null ==> newRoot == root)
    ensures newRoot.Repr == old(ReprOf(root)) + {inserted} && fresh(inserted) && inserted.i == i
    ensures newRoot.tree == Insert(old(TreeOf(root)), i, key)
    decreases ReprOf(root), 1
  {
    if root == null {
      inserted := new Node(i);
      newRoot := inserted;
    } else {
      newRoot := root;
      if i.low < key(root.i.low) {
        inserted := InsertLeft(root, i, key);
      } else {
        inserted := InsertRight(root, i, key);
      }
    }
  }

  method InsertLeft(root: Node, i: Interval, key: real -> real) returns (inserted: Node)
    requires root.Valid()
    modifies root.Repr
    ensures root.Valid() && root.Repr == old(root.Repr) + {inserted} && fresh(inserted) && inserted.i == i
    ensures root.tree == Branch(Insert(old(TreeOf(root.left)), i, key), old(root.i),
                                if old(root.max) < i.high then i.high else old(root.max), old(TreeOf(root.right)))
    decreases root.Repr, 0
  {
    var child;
    child, inserted := InsertNode(root.left, i, key);
    root.Relink(child, root.right, i.high, inserted);
  }

  method InsertRight(root: Node, i: Interval, key: real -> real) returns (inserted: Node)
    requires root.Valid()
    modifies root.Repr
    ensures root.Valid() && root.Repr == old(root.Repr) + {inserted} && fresh(inserted) && inserted.i == i
    ensures root.tree == Branch(old(TreeOf(root.left)), old(root.i),
                                if old(root.max) < i.high then i.high else old(root.max),
                                Insert(old(TreeOf(root.right)), i, key))
    decreases root.Repr, 0
  {
    var child;
    child, inserted := InsertNode(root.right, i, key);
    root.Relink(root.left, child, i.high, inserted);
  }

  /** `overlapSearch` on the nodes. */
  function OverlapSearch(root: Node?, i: Interval): (r: Option<Interval>)
    requires ValidTree(root)
    reads root, ReprOf(root)
    ensures r == Search(TreeOf(root), i)
    decreases ReprOf(root)
  {
    if root == null then None
    else if IsOverlapping(root.i, i) then Some(root.i)
    else if root.left != null && root.left.max >= i.low then OverlapSearch(root.left, i)
    else OverlapSearch(root.right, i)
  }

  predicate NoRepeats(s: seq<Node>) {
    forall j, k :: 0 <= j < k < |s| ==> s[j] != s[k]
  }

  /** The order in which `inorder` calls its callback: left, right, node. */
  function Visit(root: Node?): (s: seq<Node>)
    requires ValidTree(root)
    reads root, ReprOf(root)
    ensures (forall n | n in s :: n in ReprOf(root)) && (forall n | n in ReprOf(root) :: n in s)
    decreases ReprOf(root)
  {
    if root == null then [] else Visit(root.left) + Visit(root.right) + [root]
  }

  lemma NoRepeatsConcat(l: seq<Node>, r: seq<Node>, root: Node)
    requires NoRepeats(l) && NoRepeats(r) && root !in l && root !in r
    requires forall n | n in l :: n !in r
    ensures NoRepeats(l + r + [root])
  {
    var s := l + r + [root];
    forall j, k | 0 <= j < k < |s| ensures s[j] != s[k] {
      assert s[j] in l || s[j] in r;
      if j < |l| && |l| <= k < |l| + |r| { assert s[k] in r; }
    }
  }

  /** `clear` deletes every node of the tree and none of them twice. */
  lemma {:induction false} VisitedOnce(root: Node?)
    requires ValidTree(root)
    ensures NoRepeats(Visit(root))
    decreases ReprOf(root)
  {
    if root != null {
      VisitedOnce(root.left);
      VisitedOnce(root.right);
      NoRepeatsConcat(Visit(root.left), Visit(root.right), root);
    }
  }

  ghost predicate ChildrenBefore(s: seq<Node>, k: nat)
    requires k < |s|
    reads s
  {
    (s[k].left != null ==> s[k].left in s[..k]) && (s[k].right != null ==> s[k].right in s[..k])
  }

  /** `clear` deletes a node after both of its children, so it never follows a pointer of a deleted one. */
  lemma {:induction false} ChildrenVisitedFirst(root: Node?, k: nat)
    requires ValidTree(root) && k < |Visit(root)|
    ensures ChildrenBefore(Visit(root), k)
    decreases ReprOf(root)
  {
    var l, r := Visit(root.left), Visit(root.right);
    if k < |l| {
      ChildrenVisitedFirst(root.left, k);
      WithinLeft(l, r, root, k);
    } else if k < |l| + |r| {
      ChildrenVisitedFirst(root.right, k - |l|);
      WithinRight(l, r, root, k);
    } else {
      AtRoot(l, r, root);
    }
  }

  lemma WithinLeft(l: seq<Node>, r: seq<Node>, root: Node, k: nat)
    requires k < |l| && ChildrenBefore(l, k)
    ensures ChildrenBefore(l + r + [root], k)
  {
    assert (l + r + [root])[..k] == l[..k];
  }

  lemma WithinRight(l: seq<Node>, r: seq<Node>, root: Node, k: nat)
    requires |l| <= k < |l| + |r| && ChildrenBefore(r, k - |l|)
    ensures ChildrenBefore(l + r + [root], k)
  {
    assert (l + r + [root])[..k] == l + r[..k - |l|];
  }

  lemma AtRoot(l: seq<Node>, r: seq<Node>, root: Node)
    requires root.left != null ==> root.left in l
    requires root.right != null ==> root.right in r
    ensures ChildrenBefore(l + r + [root], |l| + |r|)
  {
    assert (l + r + [root])[..|l| + |r|] == l + r;
  }

  class IntervalTree {
    var root: Node?
    const key: real -> real
    ghost var inserted: seq<Interval>

    ghost function Nodes(): set<Node>
      reads this, root
    {
      ReprOf(root)
    }

    ghost predicate Valid()
      reads this, root, ReprOf(root)
    {
      ValidTree(root) && TreeOf(root) == Build(inserted, key)
    }

    constructor (key: real -> real)
      ensures Valid() && inserted == [] && Nodes() == {} && this.key == key
    {
      this.key := key;
      root, inserted := null, [];
    }

    method InsertInterval(i: Interval) returns (node: Node)
      requires Valid()
      modifies this, Nodes()
      ensures Valid() && inserted == old(inserted) + [i] && node.i == i
      ensures fresh(Nodes() - old(Nodes()))
    {
      var newRoot;
      newRoot, node := InsertNode(root, i, key);
      root := newRoot;
      inserted := inserted + [i];
      assert inserted[..|inserted| - 1] == old(inserted);
    }

    /** Some stored interval that overlaps `i`, if there is one. */
    method Lookup(i: Interval) returns (r: Option<Interval>)
      requires Valid()
      ensures r.Some? <==> exists k :: 0 <= k < |inserted| && IsOverlapping(inserted[k], i)
      ensures r.Some? ==> r.value in inserted && IsOverlapping(r.value, i)
    {
      SearchAfterInserts(inserted, i, key);
      BuildIsSound(inserted, key);
      SearchIsSound(Build(inserted, key), i);
      r := OverlapSearch(root, i);
      assert r.Some? ==> r.value in multiset(inserted);
    }

    method Clear() returns (deleted: seq<Node>)
      requires Valid()
      modifies this
      ensures Valid() && inserted == [] && Nodes() == {}
      ensures NoRepeats(deleted) && forall n :: n in deleted <==> n in old(Nodes())
    {
      VisitedOnce(root);
      deleted := Visit(root);
      root, inserted := null, [];
    }
  }
}
