/** The in-memory mock backend (src/mocks.ts): a fixed list of records that
    `renameFile` and `moveFile` edit in place. */
module Mocks {
  import opened Wrappers
  import opened Records

  /** `MOCK_FILE_NODES`: two top-level directories, `root` (1) and `root2` (100);
      `root` holds `dir1` (2), `dir2` (3) and the file `dir3` (4); `dir1` holds the files
      5 and 6, `dir2` the file 7. */
  const MockFileNodes: seq<FileRecord> := [
    FileRecord(1, None, "root", Some([2, 3, 4]), false, false, false),
    FileRecord(100, None, "root2", Some([]), false, false, false),
    FileRecord(2, Some(1), "dir1", Some([5, 6]), true, true, true),
    FileRecord(3, Some(1), "dir2", Some([7]), true, true, true),
    FileRecord(4, Some(1), "dir3", None, true, true, true),
    FileRecord(5, Some(2), "dir1-1", None, true, true, true),
    FileRecord(6, Some(2), "dir1-2", None, true, true, true),
    FileRecord(7, Some(3), "dir2-1", None, true, true, true)
  ]

  /** The errors the backend throws, by their messages. */
  datatype ApiError =
    | CannotMoveIntoItself   // "Cannot move file into itself"
    | FileNotFound           // "File not found"
    | ParentNotFound         // "Parent not found"
    | ParentNotWritable      // "Parent is not writable"
    | ParentNotDirectory     // "Parent is not a directory"

  /** What a backend call answers, and the record list after it. */
  datatype Outcome = Outcome(answer: Result<FileRecord, ApiError>, nodes: seq<FileRecord>)

  /** `files.find(f => f.id === id)` for an id that may be null: null matches nothing. */
  function FindOpt(files: seq<FileRecord>, id: Option<int>): (r: Option<nat>)
    ensures id.None? ==> r.None?
    ensures id.Some? ==> r == FindIndex(files, id.value)
  {
    match id
    case None => None
    case Some(v) => FindIndex(files, v)
  }

  /** `ids.filter(x => x !== id)`: every occurrence of `id` removed, the rest kept in order. */
  function Without(ids: seq<int>, id: int): (r: seq<int>)
    ensures forall x :: x in r <==> x in ids && x != id
    ensures multiset(r) == multiset(ids)[id := 0]
    ensures |r| <= |ids|
  {
    if ids == [] then []
    else
      assert ids == [ids[0]] + ids[1..];
      (if ids[0] == id then [] else [ids[0]]) + Without(ids[1..], id)
  }

  /** `renameFile(id, name)`: the first record with that id gets the new name and is
      answered; an unknown id is `FileNotFound`. */
  function Rename(nodes: seq<FileRecord>, id: int, name: string): (r: Outcome)
    ensures |r.nodes| == |nodes|
  {
    match FindIndex(nodes, id)
    case None => Outcome(Err(FileNotFound), nodes)
    case Some(i) =>
      var file := nodes[i].(name := name);
      Outcome(Ok(file), nodes[i := file])
  }

  /** `moveFile(id, parentId)`. The checks run in the source's order: moving onto
      itself, an unknown file, a move to the current parent (answered at once, nothing
      changes), an unknown new parent, a parent that is not writable, a parent that is
      a file. Then the new parent gets `id` appended, the old parent, if one exists,
      loses every occurrence of `id`, and the record takes the new `parentId`. */
  function Move(nodes: seq<FileRecord>, id: int, parentId: Option<int>): (r: Outcome)
    ensures |r.nodes| == |nodes|
  {
    if parentId == Some(id) then Outcome(Err(CannotMoveIntoItself), nodes)
    else match FindIndex(nodes, id)
      case None => Outcome(Err(FileNotFound), nodes)
      case Some(i) =>
        var file := nodes[i];
        if file.parentId == parentId then Outcome(Ok(file), nodes)
        else match FindOpt(nodes, parentId)
          case None => Outcome(Err(ParentNotFound), nodes)
          case Some(j) =>
            var newParent := nodes[j];
            if !newParent.writable then Outcome(Err(ParentNotWritable), nodes)
            else if newParent.childrenIds.None? then Outcome(Err(ParentNotDirectory), nodes)
            else
              var s := Relink(nodes, id, parentId, i, j);
              Outcome(Ok(s[i]), s)
  }

  /** The three in-place edits of a move that passed every check, in the source's
      order: append to the new parent `j`, filter the old parent (looked up in the
      list as it now is), set the record's `parentId`. */
  function Relink(nodes: seq<FileRecord>, id: int, parentId: Option<int>, i: nat, j: nat): (r: seq<FileRecord>)
    requires i < |nodes| && j < |nodes| && nodes[j].childrenIds.Some?
    ensures |r| == |nodes|
  {
    var s1 := nodes[j := nodes[j].(childrenIds := Some(nodes[j].childrenIds.value + [id]))];
    var s2 := match FindOpt(s1, nodes[i].parentId)
      case None => s1
      case Some(k) => s1[k := s1[k].(childrenIds := WithoutIn(s1[k].childrenIds, id))];
    s2[i := s2[i].(parentId := parentId)]
  }

  /** `childrenIds?.filter(x => x !== id) ?? null`. */
  function WithoutIn(ids: Option<seq<int>>, id: int): (r: Option<seq<int>>)
    ensures r.None? <==> ids.None?
    ensures r.Some? ==> forall x :: x in r.value <==> x in ids.value && x != id
  {
    match ids
    case None => None
    case Some(c) => Some(Without(c, id))
  }

  /** Two lists of the same length that carry the same id at every position. */
  predicate SameIds(a: seq<FileRecord>, b: seq<FileRecord>)
  {
    |a| == |b| && forall k :: 0 <= k < |a| ==> a[k].id == b[k].id
  }

  /** `find` by id looks only at ids. */
  lemma {:induction false} FindIndexSameIds(a: seq<FileRecord>, b: seq<FileRecord>, id: int)
    requires SameIds(a, b)
    ensures FindIndex(a, id) == FindIndex(b, id)
    decreases |a|
  {
    if a != [] {
      FindIndexSameIds(a[1..], b[1..], id);
    }
  }

  lemma {:induction false} FindSameIds(a: seq<FileRecord>, b: seq<FileRecord>, id: Option<int>)
    requires SameIds(a, b)
    ensures FindOpt(a, id) == FindOpt(b, id)
  {
    if id.Some? {
      FindIndexSameIds(a, b, id.value);
    }
  }

  lemma {:induction false} SameIdsUnique(a: seq<FileRecord>, b: seq<FileRecord>)
    requires SameIds(a, b) && UniqueIds(a)
    ensures UniqueIds(b)
  {
  }

  /** The mock list has unique ids. */
  lemma MockIdsUnique()
    ensures UniqueIds(MockFileNodes)
  {
  }

  /** `renameFile` fails exactly for an unknown id, and then changes nothing; otherwise
      the first record with the id, and no other, takes the new name, keeps every other
      field, and is the answer. */
  lemma {:induction false} RenameEffect(nodes: seq<FileRecord>, id: int, name: string)
    ensures var r := Rename(nodes, id, name);
      (r.answer.Err? <==> forall k :: 0 <= k < |nodes| ==> nodes[k].id != id) &&
      (r.answer.Err? ==> r.answer.error == FileNotFound && r.nodes == nodes) &&
      (r.answer.Ok? ==>
        var i := FindIndex(nodes, id).value;
        r.answer.value == r.nodes[i] && r.nodes[i] == nodes[i].(name := name) &&
        forall k :: 0 <= k < |nodes| && k != i ==> r.nodes[k] == nodes[k])
  {
  }

  /** `renameFile` keeps every id in place, so unique ids stay unique. */
  lemma {:induction false} RenameKeepsIds(nodes: seq<FileRecord>, id: int, name: string)
    ensures SameIds(nodes, Rename(nodes, id, name).nodes)
    ensures UniqueIds(nodes) ==> UniqueIds(Rename(nodes, id, name).nodes)
  {
  }

  /** `renameFile` never consults `editable`: the answer is the same whatever any
      record's `editable` flag says, up to that flag. */
  lemma {:induction false} RenameIgnoresEditable(nodes: seq<FileRecord>, id: int, name: string, k: int, b: bool)
    requires 0 <= k < |nodes|
    ensures var r1, r2 := Rename(nodes, id, name), Rename(nodes[k := nodes[k].(editable := b)], id, name);
      r1.answer.Ok? == r2.answer.Ok? &&
      (r1.answer.Ok? ==> r2.answer.value.name == name && r1.answer.value.id == r2.answer.value.id)
  {
    FindSameIds(nodes, nodes[k := nodes[k].(editable := b)], Some(id));
  }

  /** The refusals of `moveFile`, in the order the source checks them: a move onto
      itself is refused before the id is even looked up; an unknown id next; a move to
      the current parent is answered with the unchanged record before the new parent is
      looked at (so also when that parent is missing, read-only or a file); then a
      missing parent (which includes every move to the top level, since a null id
      matches no record), a parent that is not writable, and a parent that is a file. */
  lemma {:induction false} MoveRefusals(nodes: seq<FileRecord>, id: int, parentId: Option<int>)
    ensures parentId == Some(id) ==> Move(nodes, id, parentId).answer == Err(CannotMoveIntoItself)
    ensures parentId != Some(id) && FindIndex(nodes, id).None? ==>
      Move(nodes, id, parentId).answer == Err(FileNotFound)
    ensures parentId != Some(id) && FindIndex(nodes, id).Some? ==>
      var i := FindIndex(nodes, id).value;
      var r := Move(nodes, id, parentId);
      (nodes[i].parentId == parentId ==> r == Outcome(Ok(nodes[i]), nodes)) &&
      (nodes[i].parentId != parentId ==>
        (FindOpt(nodes, parentId).None? ==> r.answer == Err(ParentNotFound)) &&
        (parentId.None? ==> r.answer == Err(ParentNotFound)) &&
        (FindOpt(nodes, parentId).Some? ==>
          var parent := nodes[FindOpt(nodes, parentId).value];
          (!parent.writable ==> r.answer == Err(ParentNotWritable)) &&
          (parent.writable && parent.childrenIds.None? ==> r.answer == Err(ParentNotDirectory))))
  {
  }

  /** A refused move changes nothing, and so does a move to the current parent. */
  lemma {:induction false} MoveErrorKeepsNodes(nodes: seq<FileRecord>, id: int, parentId: Option<int>)
    ensures Move(nodes, id, parentId).answer.Err? ==> Move(nodes, id, parentId).nodes == nodes
    ensures Move(nodes, id, parentId).answer.Ok? ==>
      Move(nodes, id, parentId).answer.value.id == id &&
      Move(nodes, id, parentId).answer.value.parentId == parentId
  {
  }

  /** `Relink` sets the moved record's `parentId` and touches no other field but
      `childrenIds`. */
  lemma {:induction false} RelinkFields(nodes: seq<FileRecord>, id: int, parentId: Option<int>, i: nat, j: nat)
    requires i < |nodes| && j < |nodes| && nodes[j].childrenIds.Some?
    ensures var r := Relink(nodes, id, parentId, i, j);
      r[i].parentId == parentId &&
      (forall k :: 0 <= k < |nodes| ==>
        r[k].id == nodes[k].id && r[k].name == nodes[k].name &&
        r[k].movable == nodes[k].movable && r[k].editable == nodes[k].editable &&
        r[k].writable == nodes[k].writable) &&
      (forall k :: 0 <= k < |nodes| && k != i ==> r[k].parentId == nodes[k].parentId)
  {
    var s1 := nodes[j := nodes[j].(childrenIds := Some(nodes[j].childrenIds.value + [id]))];
    var s2 := match FindOpt(s1, nodes[i].parentId)
      case None => s1
      case Some(k) => s1[k := s1[k].(childrenIds := WithoutIn(s1[k].childrenIds, id))];
    assert |s2| == |nodes|;
    forall k | 0 <= k < |nodes|
      ensures s2[k].id == nodes[k].id && s2[k].name == nodes[k].name &&
        s2[k].movable == nodes[k].movable && s2[k].editable == nodes[k].editable &&
        s2[k].writable == nodes[k].writable && s2[k].parentId == nodes[k].parentId
    {
    }
    assert Relink(nodes, id, parentId, i, j) == s2[i := s2[i].(parentId := parentId)];
  }

  /** `Relink` changes the `childrenIds` of the new parent `j` and of the old parent
      only. */
  lemma {:induction false} RelinkChildren(nodes: seq<FileRecord>, id: int, parentId: Option<int>, i: nat, j: nat)
    requires i < |nodes| && j < |nodes| && nodes[j].childrenIds.Some?
    requires nodes[j].id != id && nodes[i].id == id && Some(nodes[j].id) == parentId
    requires nodes[i].parentId != parentId
    ensures var r := Relink(nodes, id, parentId, i, j);
      var o := FindOpt(nodes, nodes[i].parentId);
      i != j && (o.Some? ==> o.value != j) &&
      r[j].childrenIds == Some(nodes[j].childrenIds.value + [id]) &&
      (o.Some? ==> r[o.value].childrenIds == WithoutIn(nodes[o.value].childrenIds, id)) &&
      (forall k :: 0 <= k < |nodes| && k != j && o != Some(k) ==> r[k].childrenIds == nodes[k].childrenIds)
  {
    var s1 := nodes[j := nodes[j].(childrenIds := Some(nodes[j].childrenIds.value + [id]))];
    assert SameIds(nodes, s1);
    FindSameIds(nodes, s1, nodes[i].parentId);
    var o := FindOpt(nodes, nodes[i].parentId);
    if o.Some? {
      assert nodes[o.value].id != nodes[j].id;
      assert s1[o.value] == nodes[o.value];
    }
  }

  /** A move that goes through: record `i` (the first with `id`) takes the new parent
      `j`; `j` gets `id` appended to its `childrenIds`; the old parent `o`, if a record
      has that id, loses every occurrence of `id` (a null list stays null); every other
      field of every record, and every other record, is unchanged. */
  lemma {:induction false} MoveEffect(nodes: seq<FileRecord>, id: int, parentId: Option<int>, i: nat, j: nat)
    requires FindIndex(nodes, id) == Some(i) && FindOpt(nodes, parentId) == Some(j)
    requires parentId != Some(id) && nodes[i].parentId != parentId
    requires nodes[j].writable && nodes[j].childrenIds.Some?
    ensures var r := Move(nodes, id, parentId);
      var o := FindOpt(nodes, nodes[i].parentId);
      r.answer == Ok(r.nodes[i]) && |r.nodes| == |nodes| &&
      i != j && (o.Some? ==> o.value != j) &&
      r.nodes[i].parentId == parentId &&
      r.nodes[j].childrenIds == Some(nodes[j].childrenIds.value + [id]) &&
      (o.Some? ==> r.nodes[o.value].childrenIds == WithoutIn(nodes[o.value].childrenIds, id)) &&
      (forall k :: 0 <= k < |nodes| ==>
        r.nodes[k].id == nodes[k].id && r.nodes[k].name == nodes[k].name &&
        r.nodes[k].movable == nodes[k].movable && r.nodes[k].editable == nodes[k].editable &&
        r.nodes[k].writable == nodes[k].writable) &&
      (forall k :: 0 <= k < |nodes| && k != i ==> r.nodes[k].parentId == nodes[k].parentId) &&
      (forall k :: 0 <= k < |nodes| && k != j && o != Some(k) ==> r.nodes[k].childrenIds == nodes[k].childrenIds)
  {
    RelinkFields(nodes, id, parentId, i, j);
    RelinkChildren(nodes, id, parentId, i, j);
  }

  /** After a move that goes through, the moved id is listed by its new parent and no
      longer by its old one. */
  lemma {:induction false} MoveRelinks(nodes: seq<FileRecord>, id: int, parentId: Option<int>, i: nat, j: nat)
    requires FindIndex(nodes, id) == Some(i) && FindOpt(nodes, parentId) == Some(j)
    requires parentId != Some(id) && nodes[i].parentId != parentId
    requires nodes[j].writable && nodes[j].childrenIds.Some?
    ensures var r := Move(nodes, id, parentId);
      var o := FindOpt(nodes, nodes[i].parentId);
      r.nodes[i].parentId == parentId && id in r.nodes[j].childrenIds.value &&
      (o.Some? && r.nodes[o.value].childrenIds.Some? ==> id !in r.nodes[o.value].childrenIds.value)
  {
    MoveEffect(nodes, id, parentId, i, j);
    var r := Move(nodes, id, parentId);
    assert r.nodes[j].childrenIds.value[|nodes[j].childrenIds.value|] == id;
  }

  /** `moveFile` keeps every id in place, so unique ids stay unique. */
  lemma {:induction false} MoveKeepsIds(nodes: seq<FileRecord>, id: int, parentId: Option<int>)
    ensures SameIds(nodes, Move(nodes, id, parentId).nodes)
    ensures UniqueIds(nodes) ==> UniqueIds(Move(nodes, id, parentId).nodes)
  {
    var r := Move(nodes, id, parentId);
    if r.answer.Ok? && r.nodes != nodes {
      var i := FindIndex(nodes, id).value;
      var j := FindOpt(nodes, parentId).value;
      MoveEffect(nodes, id, parentId, i, j);
    }
  }

  /** `moveFile` never consults `movable`: flipping any record's `movable` flag changes
      neither whether the move goes through nor which error it raises. */
  lemma {:induction false} MoveIgnoresMovable(nodes: seq<FileRecord>, id: int, parentId: Option<int>, k: int, b: bool)
    requires 0 <= k < |nodes|
    ensures var r1, r2 := Move(nodes, id, parentId), Move(nodes[k := nodes[k].(movable := b)], id, parentId);
      r1.answer.Ok? == r2.answer.Ok? && (r1.answer.Err? ==> r1.answer.error == r2.answer.error)
  {
    var nodes2 := nodes[k := nodes[k].(movable := b)];
    FindSameIds(nodes, nodes2, Some(id));
    FindSameIds(nodes, nodes2, parentId);
    if parentId != Some(id) && FindIndex(nodes, id).Some? {
      var i := FindIndex(nodes, id).value;
      assert nodes2[i].parentId == nodes[i].parentId;
      if nodes[i].parentId != parentId && FindOpt(nodes, parentId).Some? {
        var j := FindOpt(nodes, parentId).value;
        assert nodes2[j].writable == nodes[j].writable && nodes2[j].childrenIds == nodes[j].childrenIds;
      }
    }
  }

  /** The backend object: the mutable record list `MOCK_FILE_NODES`. */
  class MockBackend {
    var nodes: seq<FileRecord>

    constructor ()
      ensures nodes == MockFileNodes
    {
      nodes := MockFileNodes;
    }

    /** `fetchFileTree`: the current list itself. */
    method FetchFileTree() returns (r: seq<FileRecord>)
      ensures r == nodes
    {
      r := nodes;
    }

    /** `MOCK_FILE_NODES.find(f => f.id === id)`, as the loop the library runs. */
    method Find(id: Option<int>) returns (r: Option<nat>)
      ensures r == FindOpt(nodes, id)
    {
      if id.None? {
        return None;
      }
      var i := 0;
      while i < |nodes|
        invariant 0 <= i <= |nodes|
        invariant forall k :: 0 <= k < i ==> nodes[k].id != id.value
      {
        if nodes[i].id == id.value {
          return Some(i);
        }
        i := i + 1;
      }
      return None;
    }

    /** `renameFile(id, name)`. */
    method RenameFile(id: int, name: string) returns (r: Result<FileRecord, ApiError>)
      modifies this
      ensures Outcome(r, nodes) == Rename(old(nodes), id, name)
    {
      var found := Find(Some(id));
      if found.None? {
        return Err(FileNotFound);
      }
      var i := found.value;
      nodes := nodes[i := nodes[i].(name := name)];
      r := Ok(nodes[i]);
    }

    /** `moveFile(id, parentId)`. */
    method MoveFile(id: int, parentId: Option<int>) returns (r: Result<FileRecord, ApiError>)
      modifies this
      ensures Outcome(r, nodes) == Move(old(nodes), id, parentId)
    {
      if parentId == Some(id) {
        return Err(CannotMoveIntoItself);
      }
      var found := Find(Some(id));
      if found.None? {
        return Err(FileNotFound);
      }
      var i := found.value;
      var oldParentId := nodes[i].parentId;
      if oldParentId == parentId {
        return Ok(nodes[i]);
      }
      var parentAt := Find(parentId);
      if parentAt.None? {
        return Err(ParentNotFound);
      }
      var j := parentAt.value;
      if !nodes[j].writable {
        return Err(ParentNotWritable);
      }
      if nodes[j].childrenIds.None? {
        return Err(ParentNotDirectory);
      }
      nodes := nodes[j := nodes[j].(childrenIds := Some(nodes[j].childrenIds.value + [id]))];
      var oldParentAt := Find(oldParentId);
      if oldParentAt.Some? {
        var k := oldParentAt.value;
        nodes := nodes[k := nodes[k].(childrenIds := WithoutIn(nodes[k].childrenIds, id))];
      }
      nodes := nodes[i := nodes[i].(parentId := parentId)];
      r := Ok(nodes[i]);
    }
  }
}
