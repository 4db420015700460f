/** The node structure of the tree.
    A Ruby `Node` holds `data` and two child slots; here a node together with
    everything below it is one immutable value, and an empty slot (Ruby's
    `nil`) is `Nil`. */
module Nodes {

  datatype Subtree = Nil | Node(left: Subtree, data: int, right: Subtree)

  function Leaf(data: int): Subtree {
    Node(Nil, data, Nil)
  }

  /** Number of nodes. */
  function Size(t: Subtree): nat {
    match t
    case Nil => 0
    case Node(l, _, r) => Size(l) + 1 + Size(r)
  }

  ghost function Keys(t: Subtree): set<int> {
    match t
    case Nil => {}
    case Node(l, d, r) => Keys(l) + {d} + Keys(r)
  }

  /** BST ordering: keys in a left subtree are smaller than the node's key,
      keys in a right subtree are larger; so no key occurs twice. */
  ghost predicate IsBst(t: Subtree) {
    match t
    case Nil => true
    case Node(l, d, r) =>
      IsBst(l) && IsBst(r) &&
      (forall k :: k in Keys(l) ==> k < d) &&
      (forall k :: k in Keys(r) ==> d < k)
  }

  /** `s` hangs somewhere in `t` (or is `t`). */
  ghost predicate IsSubtree(s: Subtree, t: Subtree) {
    s == t || (t.Node? && (IsSubtree(s, t.left) || IsSubtree(s, t.right)))
  }

  /** Key uniqueness: a BST has as many distinct keys as nodes. */
  lemma {:induction false} BstKeysDistinct(t: Subtree)
    requires IsBst(t)
    ensures |Keys(t)| == Size(t)
  {
    match t
    case Nil =>
    case Node(l, d, r) =>
      BstKeysDistinct(l);
      BstKeysDistinct(r);
      assert Keys(l) !! {d};
      forall x | x in Keys(r) ensures x !in Keys(l) + {d} {
        assert d < x;
      }
  }

  lemma {:induction false} SubtreeKeys(s: Subtree, t: Subtree)
    requires IsSubtree(s, t)
    ensures Keys(s) <= Keys(t) && Size(s) <= Size(t)
  {
    if s != t {
      if IsSubtree(s, t.left) { SubtreeKeys(s, t.left); } else { SubtreeKeys(s, t.right); }
    }
  }

  /** The descent shared by `find` and the first half of `delete`: at each node
      stop on an equal key, go left on a smaller one, right otherwise.
      Gives the node holding `v`, or `Nil`. */
  function Search(t: Subtree, v: int): (r: Subtree)
    ensures r.Node? ==> r.data == v && IsSubtree(r, t)
    ensures IsBst(t) ==> (r.Node? <==> v in Keys(t))
  {
    match t
    case Nil => Nil
    case Node(l, d, rt) =>
      if d == v then t
      else if v < d then Search(l, v)
      else Search(rt, v)
  }

  /** Which child slot of a parent leads to the current node (Ruby's
      `direction`, the `:left=` or `:right=` setter). */
  datatype Dir = Left | Right

  /** A parent node seen from one of its children: the slot the child hangs
      in, the parent's key and the parent's other child. */
  datatype Frame = Frame(dir: Dir, data: int, sibling: Subtree)

  /** Writes `child` into the frame's slot. */
  function Fill(f: Frame, child: Subtree): (r: Subtree)
    ensures r.Node? && r.data == f.data
    ensures Size(r) == Size(child) + 1 + Size(f.sibling)
    ensures Keys(r) == Keys(child) + {f.data} + Keys(f.sibling)
  {
    if f.dir == Left then Node(child, f.data, f.sibling) else Node(f.sibling, f.data, child)
  }

  /** The whole tree around a slot: `path` lists the parents from the slot up
      to the root, innermost first. Replacing the subtree at a slot and
      plugging it back is how a write into a parent's child field (or into the
      tree's root) is modelled. */
  function Plug(path: seq<Frame>, t: Subtree): (r: Subtree)
    ensures path != [] ==> r.Node? && r.data == path[|path| - 1].data
    ensures Size(r) >= Size(t) + |path|
    decreases |path|
  {
    if path == [] then t else Plug(path[1..], Fill(path[0], t))
  }
}
