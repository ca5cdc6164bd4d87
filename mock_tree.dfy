/** The tree the store renders for the mock records (src/mocks.ts:17-90 through
    src/store.ts:161-185). */
module MockTree {
  import opened Wrappers
  import opened Records
  import opened Tree
  import opened Builder
  import opened Mocks

  /** The mock records from `lo` up to `hi` whose `parentId` is `p`, in order. */
  function Picked(p: Option<int>, lo: nat, hi: nat): seq<FileRecord>
    requires lo <= hi <= |MockFileNodes|
    decreases hi - lo
  {
    if lo == hi then []
    else (if MockFileNodes[lo].parentId == p then [MockFileNodes[lo]] else []) + Picked(p, lo + 1, hi)
  }

  /** `buildTree(p)` selects from a stretch of the mock list exactly `Picked`. */
  lemma {:induction false} MockScan(p: Option<int>, lo: nat, hi: nat)
    requires lo <= hi <= |MockFileNodes|
    ensures ChildRecords(MockFileNodes[lo..hi], p) == Picked(p, lo, hi)
    decreases hi - lo
  {
    if lo < hi {
      var s := MockFileNodes[lo..hi];
      ChildRecordsCons(s, p);
      assert s[0] == MockFileNodes[lo] && s[1..] == MockFileNodes[lo + 1..hi];
      MockScan(p, lo + 1, hi);
    }
  }

  /** What `buildTree(p)` selects from the mock list. */
  lemma {:induction false} MockSelection(p: Option<int>, expected: seq<FileRecord>)
    requires Picked(p, 0, 8) == expected
    ensures ChildRecords(MockFileNodes, p) == expected
  {
    assert MockFileNodes[0..8] == MockFileNodes;
    MockScan(p, 0, 8);
  }

  lemma MockTopSelection()
    ensures ChildRecords(MockFileNodes, None) == [MockFileNodes[0], MockFileNodes[1]]
  {
    assert Picked(None, 2, 8) == [];
    MockSelection(None, [MockFileNodes[0], MockFileNodes[1]]);
  }

  lemma MockRootSelection()
    ensures ChildRecords(MockFileNodes, Some(1)) == [MockFileNodes[2], MockFileNodes[3], MockFileNodes[4]]
  {
    assert Picked(Some(1), 5, 8) == [];
    MockSelection(Some(1), [MockFileNodes[2], MockFileNodes[3], MockFileNodes[4]]);
  }

  lemma MockRoot2Selection()
    ensures ChildRecords(MockFileNodes, Some(100)) == []
  {
    assert Picked(Some(100), 0, 8) == [];
    MockSelection(Some(100), []);
  }

  lemma MockDir1Selection()
    ensures ChildRecords(MockFileNodes, Some(2)) == [MockFileNodes[5], MockFileNodes[6]]
  {
    assert Picked(Some(2), 0, 5) == [];
    MockSelection(Some(2), [MockFileNodes[5], MockFileNodes[6]]);
  }

  lemma MockDir2Selection()
    ensures ChildRecords(MockFileNodes, Some(3)) == [MockFileNodes[7]]
  {
    assert Picked(Some(3), 0, 7) == [];
    MockSelection(Some(3), [MockFileNodes[7]]);
  }

  function Leaf(r: FileRecord): Node
  {
    Node(r.id, r.parentId, r.name, Null, false, r.movable, r.editable, r.writable)
  }

  function Dir(r: FileRecord, kids: seq<Node>): Node
  {
    Node(r.id, r.parentId, r.name, Items(kids), false, r.movable, r.editable, r.writable)
  }

  /** The forest the store renders for the mock list, written out. */
  function MockForest(): seq<Node>
  {
    var m := MockFileNodes;
    [ Dir(m[0], [ Dir(m[2], [Leaf(m[5]), Leaf(m[6])]), Dir(m[3], [Leaf(m[7])]), Leaf(m[4]) ]),
      Dir(m[1], []) ]
  }

  /** Introduction rules for `BuiltLevel` and `BuiltNode`, stated away from the literal
      list so that each use is one step. */
  lemma {:induction false} BuiltLevel0(files: seq<FileRecord>, parent: Option<int>)
    requires ChildRecords(files, parent) == []
    ensures BuiltLevel(files, parent, [])
  {
  }

  lemma {:induction false} BuiltLevel1(files: seq<FileRecord>, parent: Option<int>, a: Node, ra: FileRecord)
    requires ChildRecords(files, parent) == [ra] && BuiltNode(files, a, ra)
    ensures BuiltLevel(files, parent, [a])
  {
  }

  lemma {:induction false} BuiltLevel2(files: seq<FileRecord>, parent: Option<int>, a: Node, b: Node, ra: FileRecord, rb: FileRecord)
    requires ChildRecords(files, parent) == [ra, rb] && BuiltNode(files, a, ra) && BuiltNode(files, b, rb)
    ensures BuiltLevel(files, parent, [a, b])
  {
    var f := [a, b];
    assert forall i :: 0 <= i < 2 ==> BuiltNode(files, f[i], [ra, rb][i]);
  }

  lemma {:induction false} BuiltLevel3(files: seq<FileRecord>, parent: Option<int>, a: Node, b: Node, c: Node,
                                       ra: FileRecord, rb: FileRecord, rc: FileRecord)
    requires ChildRecords(files, parent) == [ra, rb, rc]
    requires BuiltNode(files, a, ra) && BuiltNode(files, b, rb) && BuiltNode(files, c, rc)
    ensures BuiltLevel(files, parent, [a, b, c])
  {
    var f := [a, b, c];
    assert forall i :: 0 <= i < 3 ==> BuiltNode(files, f[i], [ra, rb, rc][i]);
  }

  lemma {:induction false} BuiltLeaf(files: seq<FileRecord>, r: FileRecord)
    requires r.childrenIds.None?
    ensures BuiltNode(files, Leaf(r), r)
  {
  }

  lemma {:induction false} BuiltDir(files: seq<FileRecord>, r: FileRecord, kids: seq<Node>)
    requires r.childrenIds.Some? && BuiltLevel(files, Some(r.id), kids)
    ensures BuiltNode(files, Dir(r, kids), r)
  {
  }

  lemma MockDir1Built()
    ensures BuiltNode(MockFileNodes, Dir(MockFileNodes[2], [Leaf(MockFileNodes[5]), Leaf(MockFileNodes[6])]), MockFileNodes[2])
  {
    var m := MockFileNodes;
    MockDir1Selection();
    BuiltLeaf(m, m[5]);
    BuiltLeaf(m, m[6]);
    BuiltLevel2(m, Some(2), Leaf(m[5]), Leaf(m[6]), m[5], m[6]);
    BuiltDir(m, m[2], [Leaf(m[5]), Leaf(m[6])]);
  }

  lemma MockDir2Built()
    ensures BuiltNode(MockFileNodes, Dir(MockFileNodes[3], [Leaf(MockFileNodes[7])]), MockFileNodes[3])
  {
    var m := MockFileNodes;
    MockDir2Selection();
    BuiltLeaf(m, m[7]);
    BuiltLevel1(m, Some(3), Leaf(m[7]), m[7]);
    BuiltDir(m, m[3], [Leaf(m[7])]);
  }

  lemma MockRootBuilt()
    ensures BuiltNode(MockFileNodes, MockForest()[0], MockFileNodes[0])
  {
    var m := MockFileNodes;
    var a := Dir(m[2], [Leaf(m[5]), Leaf(m[6])]);
    var b := Dir(m[3], [Leaf(m[7])]);
    MockRootSelection();
    MockDir1Built();
    MockDir2Built();
    BuiltLeaf(m, m[4]);
    BuiltLevel3(m, Some(1), a, b, Leaf(m[4]), m[2], m[3], m[4]);
    BuiltDir(m, m[0], [a, b, Leaf(m[4])]);
  }

  lemma MockRoot2Built()
    ensures BuiltNode(MockFileNodes, MockForest()[1], MockFileNodes[1])
  {
    var m := MockFileNodes;
    MockRoot2Selection();
    BuiltLevel0(m, Some(100));
    BuiltDir(m, m[1], []);
  }

  /** `transformFilesIntoRenderableNodes(MOCK_FILE_NODES)` is the forest written out
      above: two top-level directories `root` (1) and `root2` (100) and no synthetic
      root; `root` lists 2, 3 and 4 in that order; 4 is a file. */
  lemma {:induction false} MockBuild()
    ensures UniqueIds(MockFileNodes)
    ensures Build(MockFileNodes) == MockForest()
    ensures var t := Build(MockFileNodes);
      |t| == 2 && t[0].id == 1 && t[1].id == 100 &&
      |Kids(t[0])| == 3 && Kids(t[0])[0].id == 2 && Kids(t[0])[1].id == 3 && Kids(t[0])[2].id == 4 &&
      Kids(t[0])[2].children.Null? && Kids(t[1]) == [] && t[1].children.Items?
  {
    var m := MockFileNodes;
    var f := MockForest();
    MockIdsUnique();
    MockTopSelection();
    MockRootBuilt();
    MockRoot2Built();
    BuiltLevel2(m, None, f[0], f[1], m[0], m[1]);
    assert f == [f[0], f[1]];
    BuildCharacterized(m, f);
  }
}
