/** The nested nodes the store renders (`RenderableFileTreeNode` in src/types.ts plus the
    `isCollapsed` flag src/store.ts attaches), their pre-order flattening, and the
    depth-first, first-match lookup `findInTreeById`. */
module Tree {
  import opened Wrappers

  /** A node of the rendered forest. */
  datatype Node = Node(
    id: int,
    parentId: Option<int>,
    name: string,
    children: Children,
    isCollapsed: bool,
    movable: bool,
    editable: bool,
    writable: bool)

  /** `children`: `null` for a file, an array (possibly empty) for a directory. */
  datatype Children = Null | Items(nodes: seq<Node>)

  /** The child list of a node, empty for a file. */
  function Kids(n: Node): seq<Node>
  {
    match n.children
    case Null => []
    case Items(ns) => ns
  }

  /** All nodes of a forest in depth-first pre-order: the order in which
      `findInTreeById` visits them. */
  function Flatten(forest: seq<Node>): seq<Node>
    decreases forest
  {
    if forest == [] then [] else Subtree(forest[0]) + Flatten(forest[1..])
  }

  /** A node followed by all its descendants, in pre-order. */
  function Subtree(n: Node): seq<Node>
    decreases n
  {
    [n] + match n.children
      case Null => []
      case Items(ns) => Flatten(ns)
  }

  /** No two elements of a flat node sequence share an id. */
  predicate DistinctIds(s: seq<Node>)
  {
    forall i, j :: 0 <= i < j < |s| ==> s[i].id != s[j].id
  }

  /** No two nodes anywhere in the forest share an id. */
  predicate UniqueTreeIds(forest: seq<Node>)
  {
    DistinctIds(Flatten(forest))
  }

  /** `k` is the position of the earliest element of `s` carrying `id`. */
  predicate IsFirstAt(s: seq<Node>, id: int, k: int)
  {
    0 <= k < |s| && s[k].id == id && forall j :: 0 <= j < k ==> s[j].id != id
  }

  /** Reference definition of a first match: the earliest element of a flat sequence
      that carries the id. */
  function FirstMatch(s: seq<Node>, id: int): (r: Option<Node>)
    ensures r.None? <==> forall k :: 0 <= k < |s| ==> s[k].id != id
    ensures r.Some? ==> exists k :: IsFirstAt(s, id, k) && s[k] == r.value
  {
    if s == [] then None
    else if s[0].id == id then (assert IsFirstAt(s, id, 0); Some(s[0]))
    else
      var r := FirstMatch(s[1..], id);
      assert r.Some? ==> exists k :: IsFirstAt(s, id, k) && s[k] == r.value by {
        if r.Some? {
          var k :| IsFirstAt(s[1..], id, k) && s[1..][k] == r.value;
          assert IsFirstAt(s, id, k + 1);
        }
      }
      r
  }

  lemma {:induction false} FirstMatchAppend(a: seq<Node>, b: seq<Node>, id: int)
    ensures FirstMatch(a + b, id) == if FirstMatch(a, id).Some? then FirstMatch(a, id) else FirstMatch(b, id)
  {
    if a != [] {
      assert (a + b)[1..] == a[1..] + b;
      FirstMatchAppend(a[1..], b, id);
    } else {
      assert a + b == b;
    }
  }

  /** `findInTreeById`: depth-first, first match; a node is tested before its children,
      and its children before its later siblings. */
  function FindById(forest: seq<Node>, id: int): (r: Option<Node>)
    ensures r == FirstMatch(Flatten(forest), id)
    decreases forest
  {
    if forest == [] then None
    else
      var found := FindInSubtree(forest[0], id);
      FirstMatchAppend(Subtree(forest[0]), Flatten(forest[1..]), id);
      if found.Some? then found else FindById(forest[1..], id)
  }

  /** The per-node step of `findInTreeById`: the node itself, then its children. */
  function FindInSubtree(n: Node, id: int): (r: Option<Node>)
    ensures r == FirstMatch(Subtree(n), id)
    decreases n
  {
    if n.id == id then Some(n)
    else
      var rest := match n.children case Null => [] case Items(ns) => Flatten(ns);
      FirstMatchAppend([n], rest, id);
      match n.children
      case Null => None
      case Items(ns) => FindById(ns, id)
  }

  lemma {:induction false} FlattenAppend(a: seq<Node>, b: seq<Node>)
    ensures Flatten(a + b) == Flatten(a) + Flatten(b)
  {
    if a == [] {
      assert a + b == b;
    } else {
      assert (a + b)[0] == a[0];
      assert (a + b)[1..] == a[1..] + b;
      FlattenAppend(a[1..], b);
    }
  }

  /** A node is in a forest's flattening exactly when it is in the subtree of one of
      the forest's top-level nodes. */
  lemma {:induction false} FlattenMember(forest: seq<Node>, n: Node)
    ensures n in Flatten(forest) <==> exists i :: 0 <= i < |forest| && n in Subtree(forest[i])
  {
    if forest != [] {
      FlattenMember(forest[1..], n);
      if n in Flatten(forest[1..]) {
        var i :| 0 <= i < |forest[1..]| && n in Subtree(forest[1..][i]);
        assert forest[1..][i] == forest[i + 1];
      }
      forall i | 0 < i < |forest| && n in Subtree(forest[i]) ensures n in Flatten(forest[1..]) {
        assert forest[1..][i - 1] == forest[i];
      }
    }
  }

  /** The flattening of a forest splits around any of its top-level nodes. */
  lemma {:induction false} SplitAt(forest: seq<Node>, i: nat)
    requires i < |forest|
    ensures Flatten(forest) == Flatten(forest[..i]) + Subtree(forest[i]) + Flatten(forest[i + 1..])
  {
    var pre, mid, post := forest[..i], [forest[i]], forest[i + 1..];
    assert forest == pre + mid + post;
    FlattenAppend(pre + mid, post);
    FlattenAppend(pre, mid);
    assert mid[1..] == [];
    assert Flatten(mid) == Subtree(forest[i]) + Flatten(mid[1..]);
  }

  /** The forest of `n`'s children is strictly smaller than any forest holding `n`. */
  lemma {:induction false} ChildForestSmaller(forest: seq<Node>, i: nat)
    requires i < |forest|
    ensures |Flatten(Kids(forest[i]))| < |Flatten(forest)|
  {
    SplitAt(forest, i);
  }

  /** Subtrees nest: a node below a node below `m` is below `m`. */
  lemma {:induction false} SubtreeTransitive(m: Node, n: Node, d: Node)
    requires n in Subtree(m) && d in Subtree(n)
    ensures d in Subtree(m) && |Subtree(n)| <= |Subtree(m)|
    decreases m
  {
    if n != m {
      var ns := m.children.nodes;
      FlattenMember(ns, n);
      var i :| 0 <= i < |ns| && n in Subtree(ns[i]);
      SubtreeTransitive(ns[i], n, d);
      FlattenMember(ns, d);
      SplitAt(ns, i);
    }
  }

  /** The subtree of any node of a forest lies inside the forest's flattening. */
  lemma {:induction false} SubtreeWithin(forest: seq<Node>, n: Node, d: Node)
    requires n in Flatten(forest) && d in Subtree(n)
    ensures d in Flatten(forest) && |Subtree(n)| <= |Flatten(forest)|
  {
    FlattenMember(forest, n);
    var i :| 0 <= i < |forest| && n in Subtree(forest[i]);
    SubtreeTransitive(forest[i], n, d);
    FlattenMember(forest, d);
    SplitAt(forest, i);
  }

  /** What a successful lookup finds is a node of the forest carrying the id. */
  lemma {:induction false} FoundInForest(forest: seq<Node>, id: int)
    requires FindById(forest, id).Some?
    ensures FindById(forest, id).value in Flatten(forest) && FindById(forest, id).value.id == id
  {
    var all := Flatten(forest);
    var k :| IsFirstAt(all, id, k) && all[k] == FindById(forest, id).value;
  }

  /** With unique ids, looking up the id of a node of the forest finds that very node. */
  lemma {:induction false} FindUnique(forest: seq<Node>, n: Node)
    requires UniqueTreeIds(forest) && n in Flatten(forest)
    ensures FindById(forest, n.id) == Some(n)
  {
    var all := Flatten(forest);
    var j :| 0 <= j < |all| && all[j] == n;
    var r := FindById(forest, n.id);
    var k :| IsFirstAt(all, n.id, k) && all[k] == r.value;
    assert !(j < k) && !(k < j);
  }

  /** `findInTreeById` as the source writes it: a loop over the forest with an early
      return, recursing into each directory. */
  method FindInTree(tree: seq<Node>, id: int) returns (r: Option<Node>)
    ensures r == FindById(tree, id)
    decreases |Flatten(tree)|
  {
    for i := 0 to |tree|
      invariant FindById(tree, id) == FindById(tree[i..], id)
    {
      var node := tree[i];
      assert tree[i..][0] == node && tree[i..][1..] == tree[i + 1..];
      if node.id == id {
        return Some(node);
      }
      if node.children.Items? {
        ChildForestSmaller(tree, i);
        var found := FindInTree(node.children.nodes, id);
        if found.Some? {
          return found;
        }
      }
    }
    assert tree[|tree|..] == [];
    return None;
  }
}
