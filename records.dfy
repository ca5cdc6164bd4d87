/** The flat, parent-linked records the backend serves (`FileTreeNode` in src/mocks.ts). */
module Records {
  import opened Wrappers

  /** One file or directory. `childrenIds` is `None` for a file and `Some` (possibly
      empty) for a directory; only `parentId` decides where a record is shown. */
  datatype FileRecord = FileRecord(
    id: int,
    parentId: Option<int>,
    name: string,
    childrenIds: Option<seq<int>>,
    movable: bool,
    editable: bool,
    writable: bool)

  /** No two records share an id. */
  predicate UniqueIds(files: seq<FileRecord>)
  {
    forall i, j :: 0 <= i < j < |files| ==> files[i].id != files[j].id
  }

  /** `files.find(f => f.id === id)`, as an index: the first record with that id. */
  function FindIndex(files: seq<FileRecord>, id: int): (r: Option<nat>)
    ensures r.None? <==> forall k :: 0 <= k < |files| ==> files[k].id != id
    ensures r.Some? ==> r.value < |files| && files[r.value].id == id
    ensures r.Some? ==> forall k :: 0 <= k < r.value ==> files[k].id != id
  {
    if files == [] then None
    else if files[0].id == id then Some(0)
    else match FindIndex(files[1..], id)
      case None => None
      case Some(k) => Some(k + 1)
  }

  /** The set of ids the records carry: never more than there are records. */
  function Ids(files: seq<FileRecord>): (r: set<int>)
    ensures |r| <= |files|
    ensures forall k :: 0 <= k < |files| ==> files[k].id in r
  {
    if files == [] then {}
    else
      var rest := Ids(files[1..]);
      assert forall k :: 1 <= k < |files| ==> files[k].id in rest by {
        forall k | 1 <= k < |files| ensures files[k].id in rest {
          assert files[k] == files[1..][k - 1];
        }
      }
      {files[0].id} + rest
  }

  /** With unique ids, two different records of the list carry different ids. */
  lemma {:induction false} DistinctRecordsDistinctIds(files: seq<FileRecord>, x: FileRecord, y: FileRecord)
    requires UniqueIds(files) && x in files && y in files && x != y
    ensures x.id != y.id
  {
    var i :| 0 <= i < |files| && files[i] == x;
    var j :| 0 <= j < |files| && files[j] == y;
    assert i != j;
  }
}
