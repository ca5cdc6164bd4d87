/** What `buildTree` reads of a record (src/store.ts:161-185): every field, but of
    `childrenIds` only whether it is null. Two record lists that differ only in the
    contents of non-null `childrenIds` build the same forest. */
module Shapes {
  import opened Wrappers
  import opened Records
  import opened Tree
  import opened Builder

  /** A record with the contents of its `childrenIds` forgotten. */
  function Shape(r: FileRecord): FileRecord
  {
    r.(childrenIds := if r.childrenIds.Some? then Some([]) else None)
  }

  /** Position by position, the records agree up to the contents of `childrenIds`. */
  predicate SameShape(a: seq<FileRecord>, b: seq<FileRecord>)
  {
    |a| == |b| && forall k :: 0 <= k < |a| ==> Shape(a[k]) == Shape(b[k])
  }

  lemma {:induction false} ChildRecordsShape(a: seq<FileRecord>, b: seq<FileRecord>, parent: Option<int>)
    requires SameShape(a, b)
    ensures SameShape(ChildRecords(a, parent), ChildRecords(b, parent))
    decreases |a|
  {
    if a != [] {
      var ia, ib := a[..|a| - 1], b[..|b| - 1];
      var la, lb := a[|a| - 1], b[|b| - 1];
      assert Shape(la) == Shape(lb);
      assert la.parentId == Shape(la).parentId && lb.parentId == Shape(lb).parentId;
      ChildRecordsShape(ia, ib, parent);
      var ca, cb := ChildRecords(ia, parent), ChildRecords(ib, parent);
      var ta := if la.parentId == parent then [la] else [];
      var tb := if lb.parentId == parent then [lb] else [];
      assert ChildRecords(a, parent) == ca + ta;
      assert ChildRecords(b, parent) == cb + tb;
      assert SameShape(ta, tb);
      var sa, sb := ca + ta, cb + tb;
      forall k | 0 <= k < |sa| ensures Shape(sa[k]) == Shape(sb[k]) {
        if k < |ca| {
          assert sa[k] == ca[k] && sb[k] == cb[k];
        } else {
          assert sa[k] == ta[k - |ca|] && sb[k] == tb[k - |ca|];
        }
      }
    }
  }

  lemma {:induction false} LevelShape(a: seq<FileRecord>, b: seq<FileRecord>, parent: Option<int>, forest: seq<Node>)
    requires SameShape(a, b) && BuiltLevel(a, parent, forest)
    ensures BuiltLevel(b, parent, forest)
    decreases forest, 1
  {
    var ra, rb := ChildRecords(a, parent), ChildRecords(b, parent);
    ChildRecordsShape(a, b, parent);
    forall i | 0 <= i < |forest| ensures BuiltNode(b, forest[i], rb[i]) {
      NodeShape(a, b, forest[i], ra[i], rb[i]);
    }
  }

  lemma {:induction false} NodeShape(a: seq<FileRecord>, b: seq<FileRecord>, n: Node, ra: FileRecord, rb: FileRecord)
    requires SameShape(a, b) && Shape(ra) == Shape(rb) && BuiltNode(a, n, ra)
    ensures BuiltNode(b, n, rb)
    decreases n, 0
  {
    assert ra.id == Shape(ra).id && rb.id == Shape(rb).id;
    assert ra.childrenIds.None? <==> Shape(ra).childrenIds.None?;
    assert rb.childrenIds.None? <==> Shape(rb).childrenIds.None?;
    match n.children
    case Null =>
    case Items(ns) =>
      LevelShape(a, b, Some(n.id), ns);
  }

  /** `buildTree` never reads the contents of `childrenIds`: lists of the same shape
      build the same forest. */
  lemma {:induction false} BuildShapeOnly(a: seq<FileRecord>, b: seq<FileRecord>)
    requires UniqueIds(a) && SameShape(a, b)
    ensures UniqueIds(b) && Build(b) == Build(a)
  {
    assert forall k :: 0 <= k < |a| ==> a[k].id == Shape(a[k]).id && b[k].id == Shape(b[k]).id;
    LevelShape(a, b, None, Build(a));
    BuildCharacterized(b, Build(a));
  }
}
