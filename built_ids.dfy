/** Built forests carry every id at most once (src/store.ts:161-185): with unique
    record ids, `buildTree` places each record at one spot only, because a record's
    chain of ancestors is determined by the records themselves. */
module BuiltIds {
  import opened Wrappers
  import opened Records
  import opened Tree
  import opened Builder

  /** Dropping the last record of an ancestry gives the ancestry of that record's parent. */
  lemma {:induction false} AncestryPrefix(files: seq<FileRecord>, parent: Option<int>, path: seq<FileRecord>)
    requires IsAncestry(files, parent, path) && path != []
    ensures IsAncestry(files, path[|path| - 1].parentId, path[..|path| - 1])
  {
  }

  /** With unique ids a parent has one ancestry only. */
  lemma {:induction false} AncestryUnique(files: seq<FileRecord>, p1: Option<int>, path1: seq<FileRecord>,
                                          p2: Option<int>, path2: seq<FileRecord>)
    requires UniqueIds(files) && IsAncestry(files, p1, path1) && IsAncestry(files, p2, path2)
    ensures p1 == p2 ==> path1 == path2
    decreases |path1|
  {
    if p1 == p2 && path1 != [] && path2 != [] {
      var l1, l2 := path1[|path1| - 1], path2[|path2| - 1];
      assert l1.id == l2.id;
      if l1 != l2 {
        DistinctRecordsDistinctIds(files, l1, l2);
      }
      AncestryPrefix(files, p1, path1);
      AncestryPrefix(files, p2, path2);
      AncestryUnique(files, l1.parentId, path1[..|path1| - 1], l2.parentId, path2[..|path2| - 1]);
      assert path1 == path1[..|path1| - 1] + [l1] && path2 == path2[..|path2| - 1] + [l2];
    }
  }

  /** Record `rec`, with ancestry `q`, lies in the branch headed by `top`, whose own
      ancestry is `path`: walking up from `rec` reaches `top` when the ancestry has
      shrunk to `path`. */
  ghost predicate Branch(files: seq<FileRecord>, path: seq<FileRecord>, top: FileRecord,
                         rec: FileRecord, q: seq<FileRecord>)
    decreases |q|
  {
    rec in files && IsAncestry(files, rec.parentId, q) &&
    if |q| <= |path| then q == path && rec == top
    else Branch(files, path, top, q[|q| - 1], q[..|q| - 1])
  }

  /** Node `n` stems from record `rec`, in the branch headed by `top`. */
  ghost predicate Origin(files: seq<FileRecord>, path: seq<FileRecord>, n: Node, top: FileRecord,
                         rec: FileRecord, q: seq<FileRecord>)
  {
    n.id == rec.id && Branch(files, path, top, rec, q)
  }

  /** A branch member's ancestry is at least as long as the head's. */
  lemma {:induction false} BranchDeeper(files: seq<FileRecord>, path: seq<FileRecord>, top: FileRecord,
                                        rec: FileRecord, q: seq<FileRecord>)
    requires Branch(files, path, top, rec, q)
    ensures |q| >= |path|
    decreases |q|
  {
    if |q| > |path| {
      BranchDeeper(files, path, top, q[|q| - 1], q[..|q| - 1]);
    }
  }

  /** A record and its ancestry determine the head of its branch. */
  lemma {:induction false} BranchHead(files: seq<FileRecord>, path: seq<FileRecord>, t1: FileRecord, t2: FileRecord,
                                      rec: FileRecord, q: seq<FileRecord>)
    requires Branch(files, path, t1, rec, q) && Branch(files, path, t2, rec, q)
    ensures t1 == t2
    decreases |q|
  {
    if |q| > |path| {
      BranchHead(files, path, t1, t2, q[|q| - 1], q[..|q| - 1]);
    }
  }

  /** A member of a branch one level down, headed by a child of `r`, is a member of the
      branch headed by `r`. */
  lemma {:induction false} BranchUp(files: seq<FileRecord>, path: seq<FileRecord>, r: FileRecord, t: FileRecord,
                                    rec: FileRecord, q: seq<FileRecord>)
    requires r in files && IsAncestry(files, r.parentId, path)
    requires t.parentId == Some(r.id) && Branch(files, path + [r], t, rec, q)
    ensures Branch(files, path, r, rec, q)
    decreases |q|
  {
    var p2 := path + [r];
    if |q| <= |p2| {
      assert q == p2 && rec == t;
      assert q[|q| - 1] == r && q[..|q| - 1] == path;
    } else {
      BranchUp(files, path, r, t, q[|q| - 1], q[..|q| - 1]);
    }
  }

  /** Nodes in branches with different heads carry different ids. */
  lemma {:induction false} OriginsApart(files: seq<FileRecord>, path: seq<FileRecord>, n: Node, m: Node,
                                        t1: FileRecord, r1: FileRecord, q1: seq<FileRecord>,
                                        t2: FileRecord, r2: FileRecord, q2: seq<FileRecord>)
    requires UniqueIds(files) && Origin(files, path, n, t1, r1, q1) && Origin(files, path, m, t2, r2, q2)
    requires t1 != t2
    ensures n.id != m.id
  {
    AncestryUnique(files, r1.parentId, q1, r2.parentId, q2);
    if r1 == r2 {
      BranchHead(files, path, t1, t2, r1, q1);
    }
    DistinctRecordsDistinctIds(files, r1, r2);
  }

  /** The same for branches headed by two different positions of the list. */
  lemma {:induction false} ApartAt(files: seq<FileRecord>, path: seq<FileRecord>, n: Node, m: Node,
                                   w: nat, j: nat, r1: FileRecord, q1: seq<FileRecord>, r2: FileRecord, q2: seq<FileRecord>)
    requires UniqueIds(files) && w < j < |files|
    requires Origin(files, path, n, files[w], r1, q1) && Origin(files, path, m, files[j], r2, q2)
    ensures n.id != m.id
  {
    OriginsApart(files, path, n, m, files[w], r1, q1, files[j], r2, q2);
  }

  /** A node below the directory built from `r` never carries `r`'s id. */
  lemma {:induction false} OriginBelow(files: seq<FileRecord>, path: seq<FileRecord>, r: FileRecord, n: Node,
                                       t: FileRecord, rec: FileRecord, q: seq<FileRecord>)
    requires UniqueIds(files) && r in files && IsAncestry(files, r.parentId, path)
    requires Origin(files, path + [r], n, t, rec, q)
    ensures n.id != r.id
  {
    BranchDeeper(files, path + [r], t, rec, q);
    AncestryUnique(files, rec.parentId, q, r.parentId, path);
    DistinctRecordsDistinctIds(files, rec, r);
  }

  /** Every node of the subtree built from `r` stems from the branch headed by `r`; the
      record it stems from and that record's ancestry are returned. */
  lemma {:induction false} NodeOrigins(files: seq<FileRecord>, r: FileRecord, path: seq<FileRecord>, n: Node)
    returns (rec: FileRecord, q: seq<FileRecord>)
    requires UniqueIds(files) && r in files && IsAncestry(files, r.parentId, path)
    requires n in Subtree(MakeNode(files, r, path))
    ensures Origin(files, path, n, r, rec, q)
    decreases |files| - |path|, 0, 0
  {
    AncestryBounded(files, r.parentId, path);
    var node := MakeNode(files, r, path);
    if n == node {
      rec, q := r, path;
    } else {
      AncestryExtend(files, path, r);
      AncestryBounded(files, Some(r.id), path + [r]);
      var k;
      k, rec, q := LevelOrigins(files, Some(r.id), path + [r], |files|, n);
      BranchUp(files, path, r, files[k], rec, q);
    }
  }

  /** Every node of the first `k` entries of a level stems from the branch headed by
      one of the records among `files[..k]`; its index is returned with the record the
      node stems from and that record's ancestry. */
  lemma {:induction false} LevelOrigins(files: seq<FileRecord>, parent: Option<int>, path: seq<FileRecord>, k: nat, n: Node)
    returns (w: nat, rec: FileRecord, q: seq<FileRecord>)
    requires UniqueIds(files) && IsAncestry(files, parent, path) && k <= |files|
    requires n in Flatten(Level(files, parent, path, k))
    ensures w < k && files[w].parentId == parent && Origin(files, path, n, files[w], rec, q)
    decreases |files| - |path|, 1, k
  {
    w := LevelIndex(files, parent, path, k, n);
    rec, q := NodeOrigins(files, files[w], path, n);
  }

  /** A node of the first `k` entries of a level lies below the node built from one of
      the records among `files[..k]`; the index is returned. */
  lemma {:induction false} LevelIndex(files: seq<FileRecord>, parent: Option<int>, path: seq<FileRecord>, k: nat, n: Node)
    returns (w: nat)
    requires UniqueIds(files) && IsAncestry(files, parent, path) && k <= |files|
    requires n in Flatten(Level(files, parent, path, k))
    ensures w < k && files[w].parentId == parent && files[w] in files
    ensures n in Subtree(MakeNode(files, files[w], path))
    decreases k
  {
    var earlier := LevelMember(files, parent, path, k, n);
    if earlier {
      w := LevelIndex(files, parent, path, k - 1, n);
    } else {
      w := k - 1;
    }
  }

  /** A node of the first `k` entries of a level lies in the first `k - 1` entries or
      below the node built from `files[k - 1]`. */
  lemma {:induction false} LevelMember(files: seq<FileRecord>, parent: Option<int>, path: seq<FileRecord>, k: nat, n: Node)
    returns (earlier: bool)
    requires UniqueIds(files) && IsAncestry(files, parent, path) && k <= |files|
    requires n in Flatten(Level(files, parent, path, k))
    ensures k > 0
    ensures earlier ==> n in Flatten(Level(files, parent, path, k - 1))
    ensures !earlier ==> (files[k - 1].parentId == parent && files[k - 1] in files &&
      n in Subtree(MakeNode(files, files[k - 1], path)))
  {
    earlier := n in Flatten(Level(files, parent, path, k - 1));
    var prev := Level(files, parent, path, k - 1);
    var r := files[k - 1];
    if r.parentId == parent {
      var node := MakeNode(files, r, path);
      assert Level(files, parent, path, k) == prev + [node];
      LevelSplit(prev, node);
    } else {
      assert Level(files, parent, path, k) == prev + [];
      assert prev + [] == prev;
    }
  }

  lemma {:induction false} LevelSplit(prev: seq<Node>, node: Node)
    ensures Flatten(prev + [node]) == Flatten(prev) + Subtree(node)
  {
    FlattenAppend(prev, [node]);
    assert [node][1..] == [];
    assert Flatten([node]) == Subtree(node) + Flatten([node][1..]);
  }

  lemma {:induction false} DistinctAppend(a: seq<Node>, b: seq<Node>)
    requires DistinctIds(a) && DistinctIds(b)
    requires forall x, y :: x in a && y in b ==> x.id != y.id
    ensures DistinctIds(a + b)
  {
    var s := a + b;
    forall i, j | 0 <= i < j < |s| ensures s[i].id != s[j].id {
      if j < |a| {
        assert s[i] == a[i] && s[j] == a[j];
      } else if i >= |a| {
        assert s[i] == b[i - |a|] && s[j] == b[j - |a|];
      } else {
        assert s[i] in a && s[j] in b;
      }
    }
  }

  /** The subtree built from `r` carries every id at most once. */
  lemma {:induction false} NodeDistinct(files: seq<FileRecord>, r: FileRecord, path: seq<FileRecord>)
    requires UniqueIds(files) && r in files && IsAncestry(files, r.parentId, path)
    ensures DistinctIds(Subtree(MakeNode(files, r, path)))
    decreases |files| - |path|, 0, 0
  {
    AncestryBounded(files, r.parentId, path);
    var node := MakeNode(files, r, path);
    if r.childrenIds.Some? {
      AncestryExtend(files, path, r);
      AncestryBounded(files, Some(r.id), path + [r]);
      var p2 := path + [r];
      var below := Flatten(Forest(files, Some(r.id), p2));
      LevelDistinct(files, Some(r.id), p2, |files|);
      forall x, y | x in [node] && y in below ensures x.id != y.id {
        var k, rec, q := LevelOrigins(files, Some(r.id), p2, |files|, y);
        OriginBelow(files, path, r, y, files[k], rec, q);
      }
      DistinctAppend([node], below);
    }
  }

  /** The first `k` entries of a level, flattened, carry every id at most once. */
  lemma {:induction false} LevelDistinct(files: seq<FileRecord>, parent: Option<int>, path: seq<FileRecord>, k: nat)
    requires UniqueIds(files) && IsAncestry(files, parent, path) && k <= |files|
    ensures DistinctIds(Flatten(Level(files, parent, path, k)))
    decreases |files| - |path|, 1, k
  {
    if k > 0 {
      LevelDistinct(files, parent, path, k - 1);
      if files[k - 1].parentId == parent {
        NodeDistinct(files, files[k - 1], path);
        LevelDistinctStep(files, parent, path, k);
      } else {
        LevelSkip(files, parent, path, k);
      }
    }
  }

  /** A record of another parent adds nothing to a level. */
  lemma {:induction false} LevelSkip(files: seq<FileRecord>, parent: Option<int>, path: seq<FileRecord>, k: nat)
    requires UniqueIds(files) && IsAncestry(files, parent, path) && 0 < k <= |files|
    requires files[k - 1].parentId != parent
    ensures Level(files, parent, path, k) == Level(files, parent, path, k - 1)
  {
    var prev := Level(files, parent, path, k - 1);
    assert Level(files, parent, path, k) == prev + [];
    assert prev + [] == prev;
  }

  /** Appending the subtree built from `files[k - 1]` to a level keeps its ids apart. */
  lemma {:induction false} LevelDistinctStep(files: seq<FileRecord>, parent: Option<int>, path: seq<FileRecord>, k: nat)
    requires UniqueIds(files) && IsAncestry(files, parent, path) && 0 < k <= |files|
    requires files[k - 1].parentId == parent
    requires DistinctIds(Flatten(Level(files, parent, path, k - 1)))
    requires DistinctIds(Subtree(MakeNode(files, files[k - 1], path)))
    ensures DistinctIds(Flatten(Level(files, parent, path, k)))
  {
    var prev := Level(files, parent, path, k - 1);
    var node := MakeNode(files, files[k - 1], path);
    assert Level(files, parent, path, k) == prev + [node];
    LevelSplit(prev, node);
    forall x, y | x in Flatten(prev) && y in Subtree(node) ensures x.id != y.id {
      LevelApart(files, parent, path, k - 1, x, y);
    }
    DistinctAppend(Flatten(prev), Subtree(node));
  }


  /** A node of the first `j` entries of a level and one below the node built from
      `files[j]` carry different ids. */
  lemma {:induction false} LevelApart(files: seq<FileRecord>, parent: Option<int>, path: seq<FileRecord>, j: nat,
                                      x: Node, y: Node)
    requires UniqueIds(files) && IsAncestry(files, parent, path) && j < |files|
    requires files[j].parentId == parent
    requires x in Flatten(Level(files, parent, path, j))
    requires y in Subtree(MakeNode(files, files[j], path))
    ensures x.id != y.id
  {
    var w, r1, q1 := LevelOrigins(files, parent, path, j, x);
    var r2, q2 := NodeOrigins(files, files[j], path, y);
    assert x.id != y.id by {
      ApartAt(files, path, x, y, w, j, r1, q1, r2, q2);
    }
  }

  /** `transformFilesIntoRenderableNodes` on records with unique ids yields a forest in
      which no two nodes share an id. */
  lemma {:induction false} BuildUniqueIds(files: seq<FileRecord>)
    requires UniqueIds(files)
    ensures UniqueTreeIds(Build(files))
  {
    LevelDistinct(files, None, [], |files|);
  }
}
