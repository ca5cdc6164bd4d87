/** `triggerCollapsed` (src/store.ts:77-84) flips `isCollapsed` on the node
    `findInTreeById` returns, in place. On values this rebuilds the path down to that
    node: the first node with the id in depth-first pre-order is flipped and nothing
    else changes. */
module Collapse {
  import opened Wrappers
  import opened Tree

  /** `file.isCollapsed = !file.isCollapsed`: the flag changes and nothing else does. */
  function Flip(n: Node): (r: Node)
    ensures SameLabel(r, n) && r.isCollapsed != n.isCollapsed && r.children == n.children
  {
    n.(isCollapsed := !n.isCollapsed)
  }

  /** Two nodes that agree on everything a toggle cannot change: every field but
      `isCollapsed`, looking at `children` only as file versus directory. */
  predicate SameLabel(a: Node, b: Node)
  {
    a.id == b.id && a.parentId == b.parentId && a.name == b.name &&
    a.movable == b.movable && a.editable == b.editable && a.writable == b.writable &&
    (a.children.Null? <==> b.children.Null?)
  }

  /** `t` is `s` (both in pre-order) with exactly the first node carrying `id` flipped. */
  predicate Toggled(s: seq<Node>, t: seq<Node>, id: int)
  {
    |s| == |t| &&
    forall k :: 0 <= k < |s| ==>
      SameLabel(t[k], s[k]) && t[k].isCollapsed == (s[k].isCollapsed != IsFirstAt(s, id, k))
  }

  predicate HasId(s: seq<Node>, id: int)
  {
    exists k :: 0 <= k < |s| && s[k].id == id
  }

  lemma {:induction false} ToggledAppend(a: seq<Node>, a': seq<Node>, b: seq<Node>, b': seq<Node>, id: int)
    requires Toggled(a, a', id)
    requires if HasId(a, id) then b' == b else Toggled(b, b', id)
    ensures Toggled(a + b, a' + b', id)
  {
    var s, t := a + b, a' + b';
    forall k | 0 <= k < |s|
      ensures SameLabel(t[k], s[k]) && t[k].isCollapsed == (s[k].isCollapsed != IsFirstAt(s, id, k))
    {
      if k < |a| {
        assert s[k] == a[k] && t[k] == a'[k];
        assert IsFirstAt(s, id, k) == IsFirstAt(a, id, k) by {
          assert forall j :: 0 <= j < k ==> s[j] == a[j];
        }
      } else {
        var kb := k - |a|;
        assert s[k] == b[kb] && t[k] == b'[kb];
        if HasId(a, id) {
          var w :| 0 <= w < |a| && a[w].id == id;
          assert s[w].id == id;
          assert !IsFirstAt(s, id, k);
        } else {
          assert forall j :: 0 <= j < |a| ==> s[j].id != id by {
            forall j | 0 <= j < |a| ensures s[j].id != id {
              assert s[j] == a[j];
            }
          }
          if IsFirstAt(b, id, kb) {
            forall j | 0 <= j < k ensures s[j].id != id {
              if j >= |a| { assert s[j] == b[j - |a|]; }
            }
          }
          if IsFirstAt(s, id, k) {
            forall j | 0 <= j < kb ensures b[j].id != id {
              assert s[j + |a|] == b[j];
            }
          }
        }
      }
    }
  }

  lemma {:induction false} ToggledNone(s: seq<Node>, id: int)
    requires !HasId(s, id)
    ensures Toggled(s, s, id)
  {
  }

  lemma {:induction false} ToggledHere(n: Node, rest: seq<Node>, id: int)
    requires n.id == id
    ensures Toggled([n] + rest, [Flip(n)] + rest, id)
  {
    var s := [n] + rest;
    assert IsFirstAt(s, id, 0);
  }

  lemma {:induction false} FlattenCons(n: Node, rest: seq<Node>)
    ensures Flatten([n] + rest) == Subtree(n) + Flatten(rest)
  {
    assert ([n] + rest)[0] == n && ([n] + rest)[1..] == rest;
  }

  lemma {:induction false} SubtreeOf(n: Node)
    ensures Subtree(n) == [n] + Flatten(Kids(n))
  {
  }

  lemma {:induction false} FoundHasId(s: seq<Node>, id: int)
    ensures FirstMatch(s, id).Some? <==> HasId(s, id)
  {
  }

  /** `triggerCollapsed` on a forest: flip the first node with `id` in depth-first
      pre-order; a forest without the id is returned unchanged. */
  function ToggleForest(forest: seq<Node>, id: int): (r: seq<Node>)
    ensures Toggled(Flatten(forest), Flatten(r), id)
    ensures FindById(forest, id).None? ==> r == forest
    decreases forest
  {
    if forest == [] then []
    else
      var head, rest := forest[0], forest[1..];
      assert forest == [head] + rest;
      FlattenCons(head, rest);
      FoundHasId(Subtree(head), id);
      FirstMatchAppend(Subtree(head), Flatten(rest), id);
      if FindInSubtree(head, id).Some? then
        var h := ToggleNode(head, id);
        FlattenCons(h, rest);
        ToggledAppend(Subtree(head), Subtree(h), Flatten(rest), Flatten(rest), id);
        [h] + rest
      else
        var r := ToggleForest(rest, id);
        FlattenCons(head, r);
        ToggledNone(Subtree(head), id);
        ToggledAppend(Subtree(head), Subtree(head), Flatten(rest), Flatten(r), id);
        [head] + r
  }

  /** The same on the subtree of one node. */
  function ToggleNode(n: Node, id: int): (r: Node)
    ensures Toggled(Subtree(n), Subtree(r), id)
    ensures r.id == n.id
    decreases n
  {
    SubtreeOf(n);
    if n.id == id then
      var r := Flip(n);
      SubtreeOf(r);
      ToggledHere(n, Flatten(Kids(n)), id);
      r
    else match n.children
      case Null =>
        ToggledNone([n], id);
        n
      case Items(ns) =>
        var r := n.(children := Items(ToggleForest(ns, id)));
        SubtreeOf(r);
        assert Toggled([n], [r], id);
        ToggledAppend([n], [r], Flatten(ns), Flatten(Kids(r)), id);
        r
  }

  /** Toggling keeps every id where it was in pre-order, so unique ids stay unique. */
  lemma {:induction false} ToggleKeepsUnique(forest: seq<Node>, id: int)
    requires UniqueTreeIds(forest)
    ensures UniqueTreeIds(ToggleForest(forest, id))
  {
    var s, t := Flatten(forest), Flatten(ToggleForest(forest, id));
    assert forall k :: 0 <= k < |s| ==> SameLabel(t[k], s[k]);
  }

  lemma {:induction false} ToggledHasId(s: seq<Node>, t: seq<Node>, id: int)
    requires Toggled(s, t, id)
    ensures HasId(s, id) == HasId(t, id)
  {
    if HasId(s, id) {
      var k :| 0 <= k < |s| && s[k].id == id;
      assert SameLabel(t[k], s[k]);
    }
    if HasId(t, id) {
      var k :| 0 <= k < |t| && t[k].id == id;
      assert SameLabel(t[k], s[k]);
    }
  }

  /** A toggle leaves the same ids present in a subtree. */
  lemma {:induction false} ToggleKeepsFound(n: Node, id: int)
    ensures FindInSubtree(ToggleNode(n, id), id).Some? == FindInSubtree(n, id).Some?
  {
    var h := ToggleNode(n, id);
    ToggledHasId(Subtree(n), Subtree(h), id);
    FoundHasId(Subtree(n), id);
    FoundHasId(Subtree(h), id);
  }

  /** Triggering the same id twice restores the forest. */
  lemma {:induction false} ToggleTwice(forest: seq<Node>, id: int)
    ensures ToggleForest(ToggleForest(forest, id), id) == forest
    decreases forest
  {
    if forest != [] {
      var head, rest := forest[0], forest[1..];
      if FindInSubtree(head, id).Some? {
        var h := ToggleNode(head, id);
        ToggleKeepsFound(head, id);
        assert ToggleForest(forest, id) == [h] + rest;
        assert ([h] + rest)[0] == h && ([h] + rest)[1..] == rest;
        ToggleNodeTwice(head, id);
      } else {
        var r := ToggleForest(rest, id);
        assert ToggleForest(forest, id) == [head] + r;
        assert ([head] + r)[0] == head && ([head] + r)[1..] == r;
        ToggleTwice(rest, id);
        assert forest == [head] + rest;
      }
    }
  }

  lemma {:induction false} ToggleNodeTwice(n: Node, id: int)
    ensures ToggleNode(ToggleNode(n, id), id) == n
    decreases n
  {
    if n.id != id && n.children.Items? {
      ToggleTwice(n.children.nodes, id);
    }
  }

  /** A forest with every `isCollapsed` cleared: what a toggle cannot change. */
  function Outline(forest: seq<Node>): (r: seq<Node>)
    ensures |r| == |forest|
    decreases forest
  {
    if forest == [] then [] else [OutlineNode(forest[0])] + Outline(forest[1..])
  }

  function OutlineNode(n: Node): (r: Node)
    ensures SameLabel(r, n) && !r.isCollapsed
    decreases n
  {
    match n.children
    case Null => n.(isCollapsed := false)
    case Items(ns) => n.(isCollapsed := false, children := Items(Outline(ns)))
  }

  /** A toggle changes nothing but one `isCollapsed`. */
  lemma {:induction false} ToggleKeepsOutline(forest: seq<Node>, id: int)
    ensures Outline(ToggleForest(forest, id)) == Outline(forest)
    decreases forest
  {
    if forest != [] {
      var head, rest := forest[0], forest[1..];
      if FindInSubtree(head, id).Some? {
        var h := ToggleNode(head, id);
        assert ToggleForest(forest, id) == [h] + rest;
        assert ([h] + rest)[0] == h && ([h] + rest)[1..] == rest;
        ToggleNodeKeepsOutline(head, id);
      } else {
        var r := ToggleForest(rest, id);
        assert ToggleForest(forest, id) == [head] + r;
        assert ([head] + r)[0] == head && ([head] + r)[1..] == r;
        ToggleKeepsOutline(rest, id);
      }
    }
  }

  lemma {:induction false} ToggleNodeKeepsOutline(n: Node, id: int)
    ensures OutlineNode(ToggleNode(n, id)) == OutlineNode(n)
    decreases n
  {
    if n.id != id && n.children.Items? {
      ToggleKeepsOutline(n.children.nodes, id);
    }
  }
}
