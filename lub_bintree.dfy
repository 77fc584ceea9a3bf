/**
 * lub_bintree_findfirst: the intrusive splay tree's "first node" query.
 *
 * The tree is a value of `Tree<T>` held in the `root` field of a `BinTree`
 * object, next to the client comparator `compareFn`. A comparator receives a
 * client node and a key (None stands for the NULL key) and answers negative,
 * zero or positive; a positive answer sends the search to the left subtree.
 */
module LubBinTree {
  import opened Wrappers

  datatype Tree<T> = Leaf | Node(left: Tree<T>, value: T, right: Tree<T>)

  /** The client nodes in tree order (left subtree, node, right subtree). */
  function InOrder<T>(t: Tree<T>): seq<T>
  {
    match t
    case Leaf => []
    case Node(l, v, r) => InOrder(l) + [v] + InOrder(r)
  }

  /**
   * The node a search for `key` stops at: it goes left while the comparator
   * answers positive, right while it answers negative, and stops at a match
   * or where the subtree in the chosen direction is empty.
   */
  function Reached<T, K>(t: Tree<T>, compare: (T, Option<K>) -> int, key: Option<K>): T
    requires t.Node?
  {
    var c := compare(t.value, key);
    if c > 0 && t.left.Node? then Reached(t.left, compare, key)
    else if c < 0 && t.right.Node? then Reached(t.right, compare, key)
    else t.value
  }

  /**
   * lub_bintree_splay: brings the node the search for `key` reaches to the
   * root by rotations, keeping the tree order of the nodes. (The rotations are
   * those of move-to-root; only the resulting root and tree order are
   * part of the contract.)
   */
  function Splay<T, K>(t: Tree<T>, compare: (T, Option<K>) -> int, key: Option<K>): (r: Tree<T>)
    ensures InOrder(r) == InOrder(t)
    ensures r.Node? <==> t.Node?
    ensures t.Node? ==> r.value == Reached(t, compare, key)
  {
    match t
    case Leaf => Leaf
    case Node(l, v, rt) =>
      var c := compare(v, key);
      if c > 0 && l.Node? then
        var s := Splay(l, compare, key);
        assert InOrder(s) + [v] + InOrder(rt) == InOrder(s.left) + [s.value] + (InOrder(s.right) + [v] + InOrder(rt));
        Node(s.left, s.value, Node(s.right, v, rt))
      else if c < 0 && rt.Node? then
        var s := Splay(rt, compare, key);
        assert InOrder(l) + [v] + InOrder(s) == (InOrder(l) + [v] + InOrder(s.left)) + [s.value] + InOrder(s.right);
        Node(Node(l, v, s.left), s.value, s.right)
      else t
  }

  /**
   * compareleft: ignores both the node and the key and answers 1, so a
   * search driven by it always goes left.
   */
  function CompareLeft<T, K>(node: T, key: Option<K>): int
  {
    1
  }

  /** A search driven by CompareLeft reaches the first node in tree order. */
  lemma {:induction false} CompareLeftReachesFirst<T, K>(t: Tree<T>, key: Option<K>)
    requires t.Node?
    ensures |InOrder(t)| > 0
    ensures Reached(t, CompareLeft, key) == InOrder(t)[0]
  {
    if t.left.Node? {
      CompareLeftReachesFirst(t.left, key);
    }
  }

  class BinTree<T, K> {
    var root: Tree<T>
    var compareFn: (T, Option<K>) -> int

    /** lub_bintree_init: an empty tree ordered by the client comparator. */
    constructor (compare: (T, Option<K>) -> int)
      ensures root == Leaf && compareFn == compare
    {
      root := Leaf;
      compareFn := compare;
    }

    /**
     * lub_bintree_findfirst: swaps in CompareLeft, splays the root with the
     * NULL key so that the leftmost node comes up, restores the client
     * comparator, and answers the node now at the root (None when empty).
     */
    method FindFirst() returns (first: Option<T>)
      modifies this
      ensures compareFn == old(compareFn)
      ensures InOrder(root) == InOrder(old(root))
      ensures first.None? <==> old(root) == Leaf
      ensures first.Some? ==> root.Node? && first.value == root.value && first.value == InOrder(old(root))[0]
    {
      var clientCompare := compareFn;
      compareFn := CompareLeft;
      root := Splay(root, compareFn, None);
      compareFn := clientCompare;
      if root == Leaf {
        first := None;
      } else {
        CompareLeftReachesFirst<T, K>(old(root), None);
        first := Some(root.value);
      }
    }
  }
}
