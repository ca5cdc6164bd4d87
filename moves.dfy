/** The move validator `canMove` (src/store.ts:44-69). */
module Moves {
  import opened Wrappers
  import opened Tree

  /** `canMove(id, dest, tree)` with at most `fuel` nested calls. Each call looks `id` up
      in the whole tree, rejects a node that is missing, that is `dest` itself or whose
      parent is `dest`, and for a directory asks the same of every child, looked up again
      by its id. */
  function CanMoveWithin(fuel: nat, id: int, dest: int, tree: seq<Node>): bool
    decreases fuel, 0
  {
    fuel > 0 &&
    match FindById(tree, id)
    case None => false
    case Some(node) =>
      if node.id == dest then false
      else if node.parentId == Some(dest) then false
      else match node.children
        case Items(kids) => EveryCanMove(fuel - 1, kids, dest, tree)
        case Null => true
  }

  /** `node.children.every(child => canMove(child.id, dest, tree))`. */
  function EveryCanMove(fuel: nat, kids: seq<Node>, dest: int, tree: seq<Node>): bool
    decreases fuel, |kids|
  {
    kids == [] || (CanMoveWithin(fuel, kids[0].id, dest, tree) && EveryCanMove(fuel, kids[1..], dest, tree))
  }

  /** `canMove`. The nesting bound is one more than the number of nodes, which no
      terminating run of the source exceeds. The three direct rejections always hold:
      an unknown id, a move onto itself and a move to its current parent are refused. */
  function CanMove(id: int, dest: int, tree: seq<Node>): (r: bool)
    ensures FindById(tree, id).None? ==> !r
    ensures id == dest ==> !r
    ensures FindById(tree, id).Some? && FindById(tree, id).value.parentId == Some(dest) ==> !r
  {
    CanMoveWithin(|Flatten(tree)| + 1, id, dest, tree)
  }

  /** Reference rule: no node in the subtree of `node` has `dest` as its id or as its
      `parentId`. */
  ghost predicate MovableTo(node: Node, dest: int)
  {
    forall d :: d in Subtree(node) ==> d.id != dest && d.parentId != Some(dest)
  }

  /** `CanMoveWithin` on a node its own id finds: one unfolding. */
  lemma {:induction false} CanMoveWithinStep(fuel: nat, node: Node, dest: int, tree: seq<Node>)
    requires fuel > 0 && FindById(tree, node.id) == Some(node)
    ensures CanMoveWithin(fuel, node.id, dest, tree) <==>
      node.id != dest && node.parentId != Some(dest) && EveryCanMove(fuel - 1, Kids(node), dest, tree)
  {
  }

  /** `every` over the children holds exactly when each child can be moved. */
  lemma {:induction false} EveryCanMoveAll(fuel: nat, kids: seq<Node>, dest: int, tree: seq<Node>)
    ensures EveryCanMove(fuel, kids, dest, tree) <==>
      forall i :: 0 <= i < |kids| ==> CanMoveWithin(fuel, kids[i].id, dest, tree)
    decreases |kids|
  {
    if kids != [] {
      EveryCanMoveAll(fuel, kids[1..], dest, tree);
      assert forall i :: 1 <= i < |kids| ==> kids[i] == kids[1..][i - 1];
    }
  }

  /** The reference rule splits into the node itself and its children's subtrees. */
  lemma {:induction false} MovableToStep(node: Node, dest: int)
    ensures MovableTo(node, dest) <==>
      node.id != dest && node.parentId != Some(dest) &&
      forall i :: 0 <= i < |Kids(node)| ==> MovableTo(Kids(node)[i], dest)
  {
    var kids := Kids(node);
    assert Subtree(node) == [node] + Flatten(kids);
    assert node in Subtree(node);
    forall d | d in Flatten(kids) ensures exists i :: 0 <= i < |kids| && d in Subtree(kids[i]) {
      FlattenMember(kids, d);
    }
    forall i, d | 0 <= i < |kids| && d in Subtree(kids[i]) ensures d in Flatten(kids) {
      FlattenMember(kids, d);
    }
  }

  /** One level of the induction below, with the children's cases given. */
  lemma {:induction false} CanMoveWithinCombine(fuel: nat, node: Node, dest: int, tree: seq<Node>)
    requires fuel > 0 && FindById(tree, node.id) == Some(node)
    requires forall i :: 0 <= i < |Kids(node)| ==>
      (CanMoveWithin(fuel - 1, Kids(node)[i].id, dest, tree) <==> MovableTo(Kids(node)[i], dest))
    ensures CanMoveWithin(fuel, node.id, dest, tree) <==> MovableTo(node, dest)
  {
    CanMoveWithinStep(fuel, node, dest, tree);
    EveryCanMoveAll(fuel - 1, Kids(node), dest, tree);
    MovableToStep(node, dest);
  }

  /** A child of a node of the tree is a node of the tree, with a smaller subtree. */
  lemma {:induction false} ChildWithin(tree: seq<Node>, node: Node, i: int)
    requires node in Flatten(tree) && 0 <= i < |Kids(node)|
    ensures Kids(node)[i] in Flatten(tree) && |Subtree(Kids(node)[i])| < |Subtree(node)|
  {
    var kids := Kids(node);
    assert kids[i] in Subtree(kids[i]);
    FlattenMember(kids, kids[i]);
    assert Subtree(node) == [node] + Flatten(kids);
    SubtreeWithin(tree, node, kids[i]);
    SplitAt(kids, i);
  }

  /** On a tree with unique ids, `CanMoveWithin` with enough fuel for the subtree of
      `node` decides exactly the reference rule. */
  lemma {:induction false} CanMoveWithinExact(fuel: nat, node: Node, dest: int, tree: seq<Node>)
    requires UniqueTreeIds(tree) && node in Flatten(tree) && |Subtree(node)| <= fuel
    ensures CanMoveWithin(fuel, node.id, dest, tree) <==> MovableTo(node, dest)
    decreases |Subtree(node)|, 1
  {
    FindUnique(tree, node);
    assert node in Subtree(node);
    ChildrenExact(fuel, node, dest, tree);
    CanMoveWithinCombine(fuel, node, dest, tree);
  }

  lemma {:induction false} ChildrenExact(fuel: nat, node: Node, dest: int, tree: seq<Node>)
    requires UniqueTreeIds(tree) && node in Flatten(tree) && |Subtree(node)| <= fuel
    ensures forall i :: 0 <= i < |Kids(node)| ==>
      (CanMoveWithin(fuel - 1, Kids(node)[i].id, dest, tree) <==> MovableTo(Kids(node)[i], dest))
    decreases |Subtree(node)|, 0
  {
    var kids := Kids(node);
    forall i | 0 <= i < |kids|
      ensures CanMoveWithin(fuel - 1, kids[i].id, dest, tree) <==> MovableTo(kids[i], dest)
    {
      ChildWithin(tree, node, i);
      CanMoveWithinExact(fuel - 1, kids[i], dest, tree);
    }
  }

  lemma {:induction false} CanMoveUnfold(id: int, dest: int, tree: seq<Node>)
    ensures CanMove(id, dest, tree) == CanMoveWithin(|Flatten(tree)| + 1, id, dest, tree)
  {
  }

  /** A found node carries the id, lies in the tree, and its subtree is no larger. */
  lemma {:induction false} FoundFits(tree: seq<Node>, id: int, node: Node)
    requires FindById(tree, id) == Some(node)
    ensures node.id == id && node in Flatten(tree) && |Subtree(node)| <= |Flatten(tree)|
  {
    FoundInForest(tree, id);
    assert node in Subtree(node);
    SubtreeWithin(tree, node, node);
  }

  /** `CanMoveExact` for an id the tree holds. */
  lemma {:induction false} CanMoveFound(id: int, dest: int, tree: seq<Node>, node: Node)
    requires UniqueTreeIds(tree) && FindById(tree, id) == Some(node)
    ensures CanMove(id, dest, tree) <==> MovableTo(node, dest)
  {
    var fuel := |Flatten(tree)| + 1;
    assert CanMove(id, dest, tree) == CanMoveWithin(fuel, id, dest, tree) by {
      CanMoveUnfold(id, dest, tree);
    }
    assert CanMoveWithin(fuel, id, dest, tree) <==> MovableTo(node, dest) by {
      FoundFits(tree, id, node);
      CanMoveWithinExact(fuel, node, dest, tree);
    }
  }

  /** With unique ids the recursive rule of `canMove` is exactly the reference rule: the
      node exists and no node of its subtree has `dest` as id or as parent. */
  lemma {:induction false} CanMoveExact(id: int, dest: int, tree: seq<Node>)
    requires UniqueTreeIds(tree)
    ensures CanMove(id, dest, tree) <==> FindById(tree, id).Some? && MovableTo(FindById(tree, id).value, dest)
  {
    if FindById(tree, id).Some? {
      CanMoveFound(id, dest, tree, FindById(tree, id).value);
    }
  }

  /** A node can never be moved into its own subtree: `canMove` refuses every
      destination that is the id of a descendant. */
  lemma {:induction false} CannotMoveIntoDescendant(id: int, dest: int, tree: seq<Node>, d: Node)
    requires UniqueTreeIds(tree) && FindById(tree, id).Some?
    requires d in Subtree(FindById(tree, id).value) && d.id == dest
    ensures !CanMove(id, dest, tree)
  {
    CanMoveExact(id, dest, tree);
  }
}
