/** The search filter of `updateFiltered` (src/store.ts:97-138): with a non-empty term a
    node survives when its name contains the term or some child survives, and a
    surviving directory keeps only its surviving children. */
module Search {
  import opened Wrappers
  import opened Tree

  /** `haystack.includes(needle)`: the needle occurs at some position of the haystack. */
  predicate Contains(haystack: string, needle: string)
    decreases haystack
  {
    needle <= haystack || (haystack != [] && Contains(haystack[1..], needle))
  }

  /** `Contains` is substring search: the needle starts at some position `k`. */
  lemma {:induction false} ContainsAt(haystack: string, needle: string)
    ensures Contains(haystack, needle) <==> exists k :: 0 <= k <= |haystack| && needle <= haystack[k..]
    decreases haystack
  {
    if haystack != [] {
      ContainsAt(haystack[1..], needle);
      if exists k :: 0 <= k <= |haystack| && needle <= haystack[k..] {
        var k :| 0 <= k <= |haystack| && needle <= haystack[k..];
        if k > 0 {
          assert haystack[1..][k - 1..] == haystack[k..];
        }
      }
      if Contains(haystack[1..], needle) && !(needle <= haystack) {
        var k :| 0 <= k <= |haystack[1..]| && needle <= haystack[1..][k..];
        assert haystack[k + 1..] == haystack[1..][k..];
      }
    } else {
      assert haystack[0..] == haystack;
    }
  }

  /** `term` as the store holds it; `!term` holds for `undefined` and for "". */
  predicate IsBlank(term: Option<string>)
  {
    term.None? || term.value == ""
  }

  /** `hasMatchingDescendant`, branch for branch; the `children === null` branch repeats
      the name test that has just failed and so always yields false. */
  function HasMatchingDescendant(term: string, node: Node): (r: bool)
    ensures Contains(node.name, term) ==> r
    ensures node.children.Null? ==> (r <==> Contains(node.name, term))
    decreases node
  {
    if Contains(node.name, term) then true
    else match node.children
      case Null => Contains(node.name, term)
      case Items(ns) => SomeMatch(term, ns)
  }

  /** `children.some(hasMatchingDescendant)`: some node of the level matches. */
  function SomeMatch(term: string, nodes: seq<Node>): (r: bool)
    ensures r <==> exists i :: 0 <= i < |nodes| && HasMatchingDescendant(term, nodes[i])
    decreases nodes
  {
    if nodes == [] then false
    else
      assert forall i :: 1 <= i < |nodes| ==> nodes[i] == nodes[1..][i - 1];
      HasMatchingDescendant(term, nodes[0]) || SomeMatch(term, nodes[1..])
  }

  /** `filterOutUnmatchingDescendants`: a file is returned as it is; a directory is copied
      with its children filtered. */
  function FilterOut(term: string, node: Node): (r: Node)
    ensures r == node.(children := r.children)
    ensures r.children.Null? <==> node.children.Null?
    decreases node
  {
    match node.children
    case Null => node
    case Items(ns) => node.(children := Items(FilterForest(term, ns)))
  }

  /** `nodes.filter(hasMatchingDescendant).map(filterOutUnmatchingDescendants)`. */
  function FilterForest(term: string, nodes: seq<Node>): (r: seq<Node>)
    ensures |r| <= |nodes|
    decreases nodes
  {
    if nodes == [] then []
    else
      (if HasMatchingDescendant(term, nodes[0]) then [FilterOut(term, nodes[0])] else []) +
      FilterForest(term, nodes[1..])
  }

  /** The `filtered` forest `updateFiltered` stores: the forest itself for a blank term,
      otherwise the filtered forest. It never has more nodes than the forest, and with a
      non-blank term every node in it, at any depth, has a matching descendant. */
  function FilteredView(term: Option<string>, forest: seq<Node>): (r: seq<Node>)
    ensures IsBlank(term) ==> r == forest
    ensures |Flatten(r)| <= |Flatten(forest)|
    ensures !IsBlank(term) ==> forall m :: m in Flatten(r) ==> HasMatchingDescendant(term.value, m)
  {
    if IsBlank(term) then forest
    else
      FilterNarrows(term.value, forest);
      FilteredNodesMatch(term.value, forest);
      FilterForest(term.value, forest)
  }

  // ---------------------------------------------------------------------------------
  // What `hasMatchingDescendant` means

  /** A node has a matching descendant exactly when some node of its subtree (itself
      included) has a name containing the term. */
  lemma {:induction false} MatchIffNameInSubtree(term: string, n: Node)
    ensures HasMatchingDescendant(term, n) <==> exists d :: d in Subtree(n) && Contains(d.name, term)
    decreases n
  {
    match n.children
    case Null =>
      assert Subtree(n) == [n];
    case Items(ns) =>
      SomeMatchIffNameInForest(term, ns);
      assert Subtree(n) == [n] + Flatten(ns);
  }

  lemma {:induction false} SomeMatchIffNameInForest(term: string, ns: seq<Node>)
    ensures SomeMatch(term, ns) <==> exists d :: d in Flatten(ns) && Contains(d.name, term)
    decreases ns
  {
    if ns != [] {
      MatchIffNameInSubtree(term, ns[0]);
      SomeMatchIffNameInForest(term, ns[1..]);
      assert Flatten(ns) == Subtree(ns[0]) + Flatten(ns[1..]);
    }
  }

  /** A match anywhere below a node makes the node itself match. */
  lemma {:induction false} MatchLiftsToAncestor(term: string, m: Node, n: Node)
    requires n in Subtree(m) && HasMatchingDescendant(term, n)
    ensures HasMatchingDescendant(term, m)
    decreases m
  {
    if n != m {
      var ns := m.children.nodes;
      FlattenMember(ns, n);
      var i :| 0 <= i < |ns| && n in Subtree(ns[i]);
      MatchLiftsToAncestor(term, ns[i], n);
    }
  }

  // ---------------------------------------------------------------------------------
  // What survives filtering

  /** The indices, from `from` on, of the nodes that have a matching descendant. */
  ghost function KeptFrom(term: string, nodes: seq<Node>, from: nat): seq<nat>
    requires from <= |nodes|
    decreases |nodes| - from
  {
    if from == |nodes| then []
    else (if HasMatchingDescendant(term, nodes[from]) then [from] else []) + KeptFrom(term, nodes, from + 1)
  }

  /** One level of filtering keeps, in their original relative order, exactly the nodes
      that have a matching descendant, each as `FilterOut` of the original. */
  lemma {:induction false} FilterForestSelects(term: string, nodes: seq<Node>, from: nat)
    requires from <= |nodes|
    ensures var ix, r := KeptFrom(term, nodes, from), FilterForest(term, nodes[from..]);
      |r| == |ix| &&
      (forall k :: 0 <= k < |ix| ==> from <= ix[k] < |nodes| && r[k] == FilterOut(term, nodes[ix[k]])) &&
      (forall k, l :: 0 <= k < l < |ix| ==> ix[k] < ix[l]) &&
      (forall i :: from <= i < |nodes| ==> (HasMatchingDescendant(term, nodes[i]) <==> i in ix))
    decreases |nodes| - from
  {
    if from < |nodes| {
      FilterForestSelects(term, nodes, from + 1);
      assert nodes[from..][0] == nodes[from] && nodes[from..][1..] == nodes[from + 1..];
    }
  }

  /** Filtering never adds nodes. */
  lemma {:induction false} FilterNarrows(term: string, nodes: seq<Node>)
    ensures |Flatten(FilterForest(term, nodes))| <= |Flatten(nodes)|
    decreases nodes
  {
    if nodes != [] {
      FilterNarrows(term, nodes[1..]);
      FilterOutNarrows(term, nodes[0]);
      var head := if HasMatchingDescendant(term, nodes[0]) then [FilterOut(term, nodes[0])] else [];
      FlattenAppend(head, FilterForest(term, nodes[1..]));
      assert Flatten([FilterOut(term, nodes[0])]) == Subtree(FilterOut(term, nodes[0])) + Flatten([]);
    }
  }

  lemma {:induction false} FilterOutNarrows(term: string, n: Node)
    ensures |Subtree(FilterOut(term, n))| <= |Subtree(n)|
    decreases n
  {
    match n.children
    case Null =>
    case Items(ns) => FilterNarrows(term, ns);
  }

  /** A node that has a matching descendant still has one once filtered, and a filtered
      node with no children left matches by its own name. */
  lemma {:induction false} FilterOutKeepsMatch(term: string, n: Node)
    requires HasMatchingDescendant(term, n)
    ensures HasMatchingDescendant(term, FilterOut(term, n))
    ensures Kids(FilterOut(term, n)) == [] ==> Contains(n.name, term)
    decreases n
  {
    if !Contains(n.name, term) {
      FilterKeepsSomeMatch(term, n.children.nodes);
    }
  }

  lemma {:induction false} FilterKeepsSomeMatch(term: string, ns: seq<Node>)
    requires SomeMatch(term, ns)
    ensures SomeMatch(term, FilterForest(term, ns))
    decreases ns
  {
    if HasMatchingDescendant(term, ns[0]) {
      FilterOutKeepsMatch(term, ns[0]);
      assert FilterForest(term, ns)[0] == FilterOut(term, ns[0]);
    } else {
      FilterKeepsSomeMatch(term, ns[1..]);
      assert FilterForest(term, ns) == FilterForest(term, ns[1..]);
    }
  }

  /** Every node of the filtered forest, at any depth, has a matching descendant, and
      every filtered node left without children (a kept file, or a directory none of
      whose children survived) has a name containing the term. */
  lemma {:induction false} FilteredNodesMatch(term: string, nodes: seq<Node>)
    ensures forall m :: m in Flatten(FilterForest(term, nodes)) ==>
      HasMatchingDescendant(term, m) && (Kids(m) == [] ==> Contains(m.name, term))
    decreases nodes
  {
    if nodes != [] {
      FilteredNodesMatch(term, nodes[1..]);
      var head := if HasMatchingDescendant(term, nodes[0]) then [FilterOut(term, nodes[0])] else [];
      FlattenAppend(head, FilterForest(term, nodes[1..]));
      if HasMatchingDescendant(term, nodes[0]) {
        FilteredSubtreeMatches(term, nodes[0]);
        assert Flatten(head) == Subtree(FilterOut(term, nodes[0])) + Flatten([]);
      }
    }
  }

  lemma {:induction false} FilteredSubtreeMatches(term: string, n: Node)
    requires HasMatchingDescendant(term, n)
    ensures forall m :: m in Subtree(FilterOut(term, n)) ==>
      HasMatchingDescendant(term, m) && (Kids(m) == [] ==> Contains(m.name, term))
    decreases n
  {
    FilterOutKeepsMatch(term, n);
    match n.children
    case Null =>
    case Items(ns) => FilteredNodesMatch(term, ns);
  }

  /** Every node of the filtered forest is `FilterOut` of a node of the original forest:
      filtering changes no field other than `children`. */
  lemma {:induction false} FilteredNodesFromOriginal(term: string, nodes: seq<Node>)
    ensures forall m :: m in Flatten(FilterForest(term, nodes)) ==>
      exists n :: n in Flatten(nodes) && m == FilterOut(term, n)
    decreases nodes
  {
    if nodes != [] {
      FilteredNodesFromOriginal(term, nodes[1..]);
      FilteredSubtreeFromOriginal(term, nodes[0]);
      var head := if HasMatchingDescendant(term, nodes[0]) then [FilterOut(term, nodes[0])] else [];
      FlattenAppend(head, FilterForest(term, nodes[1..]));
      assert Flatten([FilterOut(term, nodes[0])]) == Subtree(FilterOut(term, nodes[0])) + Flatten([]);
      assert Flatten(nodes) == Subtree(nodes[0]) + Flatten(nodes[1..]);
      forall m | m in Flatten(FilterForest(term, nodes))
        ensures exists n :: n in Flatten(nodes) && m == FilterOut(term, n)
      {
        if m in Flatten(head) {
          var n :| n in Subtree(nodes[0]) && m == FilterOut(term, n);
          assert n in Flatten(nodes);
        } else {
          var n :| n in Flatten(nodes[1..]) && m == FilterOut(term, n);
          assert n in Flatten(nodes);
        }
      }
    }
  }

  lemma {:induction false} FilteredSubtreeFromOriginal(term: string, n: Node)
    ensures forall m :: m in Subtree(FilterOut(term, n)) ==>
      exists d :: d in Subtree(n) && m == FilterOut(term, d)
    decreases n
  {
    assert n in Subtree(n);
    match n.children
    case Null =>
    case Items(ns) =>
      FilteredNodesFromOriginal(term, ns);
      assert Subtree(n) == [n] + Flatten(ns);
      assert Subtree(FilterOut(term, n)) == [FilterOut(term, n)] + Flatten(FilterForest(term, ns));
      forall m | m in Subtree(FilterOut(term, n)) ensures exists d :: d in Subtree(n) && m == FilterOut(term, d) {
        if m != FilterOut(term, n) {
          var d :| d in Flatten(ns) && m == FilterOut(term, d);
          assert d in Subtree(n);
        } else {
          assert n in Subtree(n) && m == FilterOut(term, n);
        }
      }
  }

  /** Every node that has a matching descendant is kept, filtered, at its place: so the
      whole chain of its ancestors is kept too. */
  lemma {:induction false} MatchingNodesKept(term: string, nodes: seq<Node>, n: Node)
    requires n in Flatten(nodes) && HasMatchingDescendant(term, n)
    ensures FilterOut(term, n) in Flatten(FilterForest(term, nodes))
    decreases nodes
  {
    var head := if HasMatchingDescendant(term, nodes[0]) then [FilterOut(term, nodes[0])] else [];
    FlattenAppend(head, FilterForest(term, nodes[1..]));
    if n in Subtree(nodes[0]) {
      MatchLiftsToAncestor(term, nodes[0], n);
      MatchingNodesKeptInSubtree(term, nodes[0], n);
      assert Flatten(head) == Subtree(FilterOut(term, nodes[0])) + Flatten([]);
    } else {
      MatchingNodesKept(term, nodes[1..], n);
    }
  }

  lemma {:induction false} MatchingNodesKeptInSubtree(term: string, m: Node, n: Node)
    requires n in Subtree(m) && HasMatchingDescendant(term, n)
    ensures FilterOut(term, n) in Subtree(FilterOut(term, m))
    decreases m
  {
    if n != m {
      MatchingNodesKept(term, m.children.nodes, n);
    }
  }

  /** Ancestor preservation: if any node in the subtree of `a` has a name containing the
      term, then `a` (with its children filtered) is in the filtered forest, whatever
      `a`'s own name is. */
  lemma {:induction false} AncestorsOfMatchKept(term: string, nodes: seq<Node>, a: Node, d: Node)
    requires a in Flatten(nodes) && d in Subtree(a) && Contains(d.name, term)
    ensures FilterOut(term, a) in Flatten(FilterForest(term, nodes))
  {
    MatchIffNameInSubtree(term, a);
    MatchingNodesKept(term, nodes, a);
  }
}
