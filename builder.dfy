/** `transformFilesIntoRenderableNodes` / `buildTree` (src/store.ts:161-185): the flat
    record list becomes a forest of nodes. `buildTree(parent)` scans the whole list in
    input order and keeps the records whose `parentId` is `parent`; a record with a
    non-null `childrenIds` becomes a directory whose children are `buildTree(its id)`. */
module Builder {
  import opened Wrappers
  import opened Records
  import opened Tree

  /** The records whose `parentId` is `parent`, in input order. */
  function ChildRecords(files: seq<FileRecord>, parent: Option<int>): (r: seq<FileRecord>)
    ensures forall x :: x in r <==> x in files && x.parentId == parent
  {
    if files == [] then []
    else
      var init, last := files[..|files| - 1], files[|files| - 1];
      assert files == init + [last];
      ChildRecords(init, parent) + if last.parentId == parent then [last] else []
  }

  /** `ChildRecords` scanned from the front: the first record, if selected, comes first. */
  lemma {:induction false} ChildRecordsCons(files: seq<FileRecord>, parent: Option<int>)
    requires files != []
    ensures ChildRecords(files, parent) ==
      (if files[0].parentId == parent then [files[0]] else []) + ChildRecords(files[1..], parent)
  {
    assert files == [files[0]] + files[1..];
    ChildRecordsAppend([files[0]], files[1..], parent);
    assert [files[0]][..0] == [];
  }

  /** Selecting from two lists one after the other is selecting from their concatenation. */
  lemma {:induction false} ChildRecordsAppend(a: seq<FileRecord>, b: seq<FileRecord>, parent: Option<int>)
    ensures ChildRecords(a + b, parent) == ChildRecords(a, parent) + ChildRecords(b, parent)
    decreases |b|
  {
    if b == [] {
      assert a + b == a;
    } else {
      var b', last := b[..|b| - 1], b[|b| - 1];
      var tip := if last.parentId == parent then [last] else [];
      assert (a + b)[..|a + b| - 1] == a + b' && (a + b)[|a + b| - 1] == last;
      ChildRecordsAppend(a, b', parent);
      assert ChildRecords(a + b, parent) == (ChildRecords(a, parent) + ChildRecords(b', parent)) + tip;
    }
  }

  /** `path` lists the records on the way from the top level down to the directory whose
      children `buildTree(parent)` collects: the first has no parent, each next one is a
      child of the one before, and `parent` is the id of the last. */
  ghost predicate IsAncestry(files: seq<FileRecord>, parent: Option<int>, path: seq<FileRecord>)
  {
    (forall k :: 0 <= k < |path| ==> path[k] in files) &&
    if path == [] then parent == None
    else
      path[0].parentId == None && parent == Some(path[|path| - 1].id) &&
      forall i, j :: 0 <= i < j < |path| && j == i + 1 ==> path[j].parentId == Some(path[i].id)
  }

  lemma {:induction false} AncestryExtend(files: seq<FileRecord>, path: seq<FileRecord>, r: FileRecord)
    requires IsAncestry(files, r.parentId, path) && r in files
    ensures IsAncestry(files, Some(r.id), path + [r])
  {
    var p := path + [r];
    forall i, j | 0 <= i < j < |p| && j == i + 1 ensures p[j].parentId == Some(p[i].id) {
      if j < |path| { assert p[j] == path[j] && p[i] == path[i]; }
    }
  }

  /** With unique ids the records of an ancestry are pairwise different: following parent
      links from the top never comes back to a record already passed. */
  lemma {:induction false} AncestryIdsDistinct(files: seq<FileRecord>, parent: Option<int>, path: seq<FileRecord>, i: nat)
    requires UniqueIds(files) && IsAncestry(files, parent, path) && i < |path|
    ensures forall j :: i < j < |path| ==> path[i].id != path[j].id
    decreases i
  {
    if i > 0 {
      AncestryIdsDistinct(files, parent, path, i - 1);
    }
    forall j | i < j < |path| ensures path[i].id != path[j].id {
      if i == 0 {
        assert path[j].parentId == Some(path[j - 1].id);
      } else {
        assert path[i - 1].id != path[j - 1].id;
        assert path[i].parentId == Some(path[i - 1].id) && path[j].parentId == Some(path[j - 1].id);
      }
      assert path[i].parentId != path[j].parentId;
      DistinctRecordsDistinctIds(files, path[i], path[j]);
    }
  }

  lemma {:induction false} FewerThanIds(path: seq<FileRecord>, s: set<int>)
    requires forall i, j :: 0 <= i < j < |path| ==> path[i].id != path[j].id
    requires forall i :: 0 <= i < |path| ==> path[i].id in s
    ensures |path| <= |s|
  {
    if path != [] {
      FewerThanIds(path[1..], s - {path[0].id});
    }
  }

  /** An ancestry is never longer than the record list: this bounds the recursion depth
      of `buildTree` when ids are unique. */
  lemma {:induction false} AncestryBounded(files: seq<FileRecord>, parent: Option<int>, path: seq<FileRecord>)
    requires UniqueIds(files) && IsAncestry(files, parent, path)
    ensures |path| <= |files|
  {
    forall i | 0 <= i < |path| ensures forall j :: i < j < |path| ==> path[i].id != path[j].id {
      AncestryIdsDistinct(files, parent, path, i);
    }
    var ids := Ids(files);
    forall i | 0 <= i < |path| ensures path[i].id in ids {
      var k :| 0 <= k < |files| && files[k] == path[i];
    }
    FewerThanIds(path, ids);
  }

  /** The value of `buildTree(parent)` when the directories above it are `path`. */
  ghost function Forest(files: seq<FileRecord>, parent: Option<int>, path: seq<FileRecord>): seq<Node>
    requires UniqueIds(files) && IsAncestry(files, parent, path)
    decreases |files| - |path|, 2, 0
  {
    AncestryBounded(files, parent, path);
    Level(files, parent, path, |files|)
  }

  /** The `children` array of `buildTree(parent)` after the loop has seen `files[..k]`. */
  ghost function Level(files: seq<FileRecord>, parent: Option<int>, path: seq<FileRecord>, k: nat): seq<Node>
    requires UniqueIds(files) && IsAncestry(files, parent, path) && k <= |files|
    decreases |files| - |path|, 1, k
  {
    if k == 0 then []
    else
      Level(files, parent, path, k - 1) +
        if files[k - 1].parentId == parent then [MakeNode(files, files[k - 1], path)] else []
  }

  /** The node `buildTree` pushes for record `r`. */
  ghost function MakeNode(files: seq<FileRecord>, r: FileRecord, path: seq<FileRecord>): (n: Node)
    requires UniqueIds(files) && r in files && IsAncestry(files, r.parentId, path)
    ensures Mirrors(n, r)
    decreases |files| - |path|, 0, 0
  {
    var children :=
      if r.childrenIds.Some? then
        AncestryExtend(files, path, r);
        AncestryBounded(files, Some(r.id), path + [r]);
        Items(Forest(files, Some(r.id), path + [r]))
      else Null;
    Node(r.id, r.parentId, r.name, children, false, r.movable, r.editable, r.writable)
  }

  /** The forest `transformFilesIntoRenderableNodes(files)` returns: `buildTree(null)`. */
  ghost function Build(files: seq<FileRecord>): (r: seq<Node>)
    requires UniqueIds(files)
    ensures BuiltLevel(files, None, r)
  {
    ForestBuilt(files, None, []);
    Forest(files, None, [])
  }

  /** `n` was made from `r`: every field copied, `isCollapsed` false, and `children`
      null exactly when `childrenIds` is null. */
  ghost predicate Mirrors(n: Node, r: FileRecord)
  {
    n.id == r.id && n.parentId == r.parentId && n.name == r.name &&
    !n.isCollapsed && n.movable == r.movable && n.editable == r.editable &&
    n.writable == r.writable && (n.children.Null? <==> r.childrenIds.None?)
  }

  /** Declarative description of a built level: its nodes mirror, one for one and in
      input order, the records whose `parentId` is `parent`, and each directory's
      children are again such a level for the directory's id. */
  ghost predicate BuiltLevel(files: seq<FileRecord>, parent: Option<int>, forest: seq<Node>)
    decreases forest
  {
    var recs := ChildRecords(files, parent);
    |forest| == |recs| &&
    forall i :: 0 <= i < |forest| ==> BuiltNode(files, forest[i], recs[i])
  }

  ghost predicate BuiltNode(files: seq<FileRecord>, n: Node, r: FileRecord)
    decreases n
  {
    Mirrors(n, r) &&
    match n.children
    case Null => true
    case Items(ns) => BuiltLevel(files, Some(n.id), ns)
  }

  /** `buildTree(parent)` as the source writes it: one pass over the records in input
      order, recursing for each record whose `childrenIds` is not null. */
  method BuildTree(files: seq<FileRecord>, parent: Option<int>, ghost path: seq<FileRecord>)
    returns (children: seq<Node>)
    requires UniqueIds(files) && IsAncestry(files, parent, path)
    ensures children == Forest(files, parent, path)
    decreases |files| - |path|
  {
    AncestryBounded(files, parent, path);
    children := [];
    for i := 0 to |files|
      invariant children == Level(files, parent, path, i)
    {
      var node := files[i];
      if node.parentId == parent {
        var nested := Null;
        if node.childrenIds.Some? {
          AncestryExtend(files, path, node);
          AncestryBounded(files, Some(node.id), path + [node]);
          var sub := BuildTree(files, Some(node.id), path + [node]);
          nested := Items(sub);
        }
        children := children + [Node(node.id, node.parentId, node.name, nested, false,
                                     node.movable, node.editable, node.writable)];
      }
    }
  }

  /** `transformFilesIntoRenderableNodes`: the top level is `buildTree(null)`; there is
      no synthetic root. */
  method TransformFilesIntoRenderableNodes(files: seq<FileRecord>) returns (forest: seq<Node>)
    requires UniqueIds(files)
    ensures forest == Build(files)
    ensures BuiltLevel(files, None, forest)
  {
    forest := BuildTree(files, None, []);
  }

  /** After the loop of `buildTree(parent)` has seen `files[..k]`, `children` holds one
      node per selected record, in order. */
  lemma {:induction false} LevelSelects(files: seq<FileRecord>, parent: Option<int>, path: seq<FileRecord>, k: nat)
    requires UniqueIds(files) && IsAncestry(files, parent, path) && k <= |files|
    ensures var recs := ChildRecords(files[..k], parent);
      |Level(files, parent, path, k)| == |recs| &&
      forall i :: 0 <= i < |recs| ==>
        recs[i] in files && recs[i].parentId == parent &&
        Level(files, parent, path, k)[i] == MakeNode(files, recs[i], path)
  {
    if k > 0 {
      LevelSelects(files, parent, path, k - 1);
      assert files[..k][..k - 1] == files[..k - 1];
      assert files[..k][k - 1] == files[k - 1];
    }
  }

  lemma {:induction false} ForestBuilt(files: seq<FileRecord>, parent: Option<int>, path: seq<FileRecord>)
    requires UniqueIds(files) && IsAncestry(files, parent, path)
    ensures BuiltLevel(files, parent, Forest(files, parent, path))
    decreases |files| - |path|, 1
  {
    AncestryBounded(files, parent, path);
    LevelSelects(files, parent, path, |files|);
    assert files[..|files|] == files;
    var recs := ChildRecords(files, parent);
    var f := Forest(files, parent, path);
    forall i | 0 <= i < |f| ensures BuiltNode(files, f[i], recs[i]) {
      MakeNodeBuilt(files, recs[i], path);
    }
  }

  lemma {:induction false} MakeNodeBuilt(files: seq<FileRecord>, r: FileRecord, path: seq<FileRecord>)
    requires UniqueIds(files) && r in files && IsAncestry(files, r.parentId, path)
    ensures BuiltNode(files, MakeNode(files, r, path), r)
    decreases |files| - |path|, 0
  {
    AncestryBounded(files, r.parentId, path);
    if r.childrenIds.Some? {
      AncestryExtend(files, path, r);
      AncestryBounded(files, Some(r.id), path + [r]);
      ForestBuilt(files, Some(r.id), path + [r]);
    }
  }

  /** A level is determined by the records: two forests that both satisfy `BuiltLevel`
      for the same parent are equal. */
  lemma {:induction false} BuiltLevelUnique(files: seq<FileRecord>, parent: Option<int>, f1: seq<Node>, f2: seq<Node>)
    requires BuiltLevel(files, parent, f1) && BuiltLevel(files, parent, f2)
    ensures f1 == f2
    decreases f1
  {
    var recs := ChildRecords(files, parent);
    forall i | 0 <= i < |f1| ensures f1[i] == f2[i] {
      BuiltNodeUnique(files, f1[i], f2[i], recs[i]);
    }
  }

  lemma {:induction false} BuiltNodeUnique(files: seq<FileRecord>, n1: Node, n2: Node, r: FileRecord)
    requires BuiltNode(files, n1, r) && BuiltNode(files, n2, r)
    ensures n1 == n2
    decreases n1
  {
    match n1.children
    case Null =>
    case Items(ns1) =>
      BuiltLevelUnique(files, Some(n1.id), ns1, n2.children.nodes);
  }

  /** The built forest is exactly the forest described by `BuiltLevel`: the top level
      mirrors the records with a null `parentId` in input order, each directory's children
      mirror the records whose `parentId` is its id in input order, and every node copies
      its record with `isCollapsed` false. */
  lemma {:induction false} BuildCharacterized(files: seq<FileRecord>, forest: seq<Node>)
    requires UniqueIds(files)
    ensures BuiltLevel(files, None, forest) <==> forest == Build(files)
  {
    if BuiltLevel(files, None, forest) {
      BuiltLevelUnique(files, None, forest, Build(files));
    }
  }

  /** Every node of a built subtree mirrors some record of the list, and every node
      below the subtree's root sits in the child list of a directory of that subtree
      whose id is its `parentId`. */
  lemma {:induction false} BuiltSubtreeNodes(files: seq<FileRecord>, m: Node, r: FileRecord, n: Node)
    requires BuiltNode(files, m, r) && r in files && n in Subtree(m)
    ensures exists rec :: rec in files && Mirrors(n, rec)
    ensures n == m ||
      exists d :: d in Subtree(m) && d.children.Items? && n in d.children.nodes && n.parentId == Some(d.id)
    decreases m
  {
    if n != m {
      var ns := m.children.nodes;
      FlattenMember(ns, n);
      var i :| 0 <= i < |ns| && n in Subtree(ns[i]);
      var recs := ChildRecords(files, Some(m.id));
      assert recs[i] in recs;
      BuiltSubtreeNodes(files, ns[i], recs[i], n);
      if n == ns[i] {
        assert m in Subtree(m);
      } else {
        var d :| d in Subtree(ns[i]) && d.children.Items? && n in d.children.nodes && n.parentId == Some(d.id);
        FlattenMember(ns, d);
        assert d in Subtree(m);
      }
    }
  }

  /** Every node of the built forest comes from a record, and it is either top-level
      (`parentId` null) or a child of a directory of the forest whose id is its
      `parentId`. */
  lemma {:induction false} BuildNodesAttached(files: seq<FileRecord>)
    requires UniqueIds(files)
    ensures forall n :: n in Flatten(Build(files)) ==> exists rec :: rec in files && Mirrors(n, rec)
    ensures forall n :: n in Flatten(Build(files)) ==>
      n.parentId == None ||
      exists d :: d in Flatten(Build(files)) && d.children.Items? && n in d.children.nodes && n.parentId == Some(d.id)
  {
    var f := Build(files);
    var recs := ChildRecords(files, None);
    forall n | n in Flatten(f)
      ensures (exists rec :: rec in files && Mirrors(n, rec)) &&
        (n.parentId == None ||
         exists d :: d in Flatten(f) && d.children.Items? && n in d.children.nodes && n.parentId == Some(d.id))
    {
      FlattenMember(f, n);
      var i :| 0 <= i < |f| && n in Subtree(f[i]);
      assert recs[i] in recs;
      BuiltSubtreeNodes(files, f[i], recs[i], n);
      if n != f[i] {
        var d :| d in Subtree(f[i]) && d.children.Items? && n in d.children.nodes && n.parentId == Some(d.id);
        FlattenMember(f, d);
      }
    }
  }

  /** Orphans are dropped without error: a record whose `parentId` names no directory
      record has no node in the built forest. */
  lemma {:induction false} OrphanDropped(files: seq<FileRecord>, r: FileRecord, q: int)
    requires UniqueIds(files) && r in files && r.parentId == Some(q)
    requires forall s :: s in files && s.id == q ==> s.childrenIds.None?
    ensures forall n :: n in Flatten(Build(files)) ==> n.id != r.id
  {
    BuildNodesAttached(files);
    forall n | n in Flatten(Build(files)) ensures n.id != r.id {
      var rec :| rec in files && Mirrors(n, rec);
      assert n.parentId == None ||
          exists drec :: drec in files && n.parentId == Some(drec.id) && drec.childrenIds.Some? by {
        if n.parentId != None {
          var d :| d in Flatten(Build(files)) && d.children.Items? && n in d.children.nodes && n.parentId == Some(d.id);
          var drec :| drec in files && Mirrors(d, drec);
          assert n.parentId == Some(drec.id) && drec.childrenIds.Some?;
        }
      }
      assert n.parentId != r.parentId;
      assert rec != r;
      DistinctRecordsDistinctIds(files, rec, r);
    }
  }
}
