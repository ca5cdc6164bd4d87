/** The file store (src/store.ts:71-186): the records last loaded, the forest built
    from them, the search term, and the forest shown for that term. */
module Store {
  import opened Wrappers
  import opened Records
  import opened Tree
  import opened Builder
  import opened BuiltIds
  import opened Shapes
  import opened Search
  import opened Moves
  import opened Collapse
  import opened Mocks

  /** Why a store action stops: the backend threw, the store was used before any
      records were loaded (the source dereferences `undefined` there and throws a
      `TypeError`), or `canMove` refused ("Cannot move file into itself"). */
  datatype StoreError = Backend(error: ApiError) | NotLoaded | CannotMove

  /** `files.map(f => f.id === id ? rec : f)`: every record carrying `id` is replaced. */
  function ReplaceById(files: seq<FileRecord>, id: int, rec: FileRecord): (r: seq<FileRecord>)
    ensures |r| == |files|
    ensures forall k :: 0 <= k < |files| && files[k].id != id ==> r[k] == files[k]
    ensures forall k :: 0 <= k < |files| && files[k].id == id ==> r[k] == rec
  {
    if files == [] then []
    else [if files[0].id == id then rec else files[0]] + ReplaceById(files[1..], id, rec)
  }

  /** Replacing records by one with the same id keeps every id in place. */
  lemma {:induction false} ReplaceKeepsIds(files: seq<FileRecord>, id: int, rec: FileRecord)
    requires rec.id == id
    ensures SameIds(files, ReplaceById(files, id, rec))
    ensures UniqueIds(files) ==> UniqueIds(ReplaceById(files, id, rec))
  {
  }

  /** After a rename, merging the backend's answer into a copy of the backend's list
      gives exactly the backend's new list. */
  lemma {:induction false} MergeRename(nodes: seq<FileRecord>, id: int, name: string)
    requires UniqueIds(nodes) && Rename(nodes, id, name).answer.Ok?
    ensures ReplaceById(nodes, id, Rename(nodes, id, name).answer.value) == Rename(nodes, id, name).nodes
  {
    var r := Rename(nodes, id, name);
    var i := FindIndex(nodes, id).value;
    var merged := ReplaceById(nodes, id, r.answer.value);
    forall k | 0 <= k < |nodes| ensures merged[k] == r.nodes[k] {
      if k != i {
        assert nodes[k].id != id by {
          DistinctRecordsDistinctIds(files := nodes, x := nodes[k], y := nodes[i]);
        }
      }
    }
  }

  /** After a move, merging the backend's answer into a copy of the backend's list
      gives the backend's new list up to the contents of the parents' `childrenIds`,
      which `buildTree` never reads: both build the same forest. */
  lemma {:induction false} MergeMove(nodes: seq<FileRecord>, id: int, dest: Option<int>)
    requires UniqueIds(nodes) && Move(nodes, id, dest).answer.Ok?
    ensures SameShape(ReplaceById(nodes, id, Move(nodes, id, dest).answer.value), Move(nodes, id, dest).nodes)
    ensures UniqueIds(ReplaceById(nodes, id, Move(nodes, id, dest).answer.value)) && UniqueIds(Move(nodes, id, dest).nodes)
    ensures Build(ReplaceById(nodes, id, Move(nodes, id, dest).answer.value)) == Build(Move(nodes, id, dest).nodes)
  {
    var r := Move(nodes, id, dest);
    var merged := ReplaceById(nodes, id, r.answer.value);
    MergeMoveShape(nodes, id, dest);
    BuildShapeOnly(merged, r.nodes);
  }

  lemma {:induction false} MergeMoveShape(nodes: seq<FileRecord>, id: int, dest: Option<int>)
    requires UniqueIds(nodes) && Move(nodes, id, dest).answer.Ok?
    ensures SameShape(ReplaceById(nodes, id, Move(nodes, id, dest).answer.value), Move(nodes, id, dest).nodes)
    ensures UniqueIds(ReplaceById(nodes, id, Move(nodes, id, dest).answer.value))
  {
    var r := Move(nodes, id, dest);
    var i := FindIndex(nodes, id).value;
    OnlyAt(nodes, i);
    if nodes[i].parentId == dest {
      assert r.nodes == nodes && r.answer.value == nodes[i];
      assert ReplaceById(nodes, id, r.answer.value) == nodes;
    } else {
      MergeRelinked(nodes, id, dest, i, FindOpt(nodes, dest).value);
    }
    ReplaceKeepsIds(nodes, id, r.answer.value);
  }

  /** With unique ids, the record at `i` is the only one carrying its id. */
  lemma {:induction false} OnlyAt(nodes: seq<FileRecord>, i: nat)
    requires UniqueIds(nodes) && i < |nodes|
    ensures forall k :: 0 <= k < |nodes| && k != i ==> nodes[k].id != nodes[i].id
  {
    forall k | 0 <= k < |nodes| && k != i ensures nodes[k].id != nodes[i].id {
      DistinctRecordsDistinctIds(nodes, nodes[k], nodes[i]);
    }
  }

  lemma {:induction false} MergeRelinked(nodes: seq<FileRecord>, id: int, dest: Option<int>, i: nat, j: nat)
    requires FindIndex(nodes, id) == Some(i) && FindOpt(nodes, dest) == Some(j)
    requires dest != Some(id) && nodes[i].parentId != dest
    requires nodes[j].writable && nodes[j].childrenIds.Some?
    requires forall k :: 0 <= k < |nodes| && k != i ==> nodes[k].id != id
    ensures SameShape(ReplaceById(nodes, id, Move(nodes, id, dest).answer.value), Move(nodes, id, dest).nodes)
  {
    MoveEffect(nodes, id, dest, i, j);
    var r := Move(nodes, id, dest);
    var o := FindOpt(nodes, nodes[i].parentId);
    RelinkedShapes(nodes, r.nodes, id, i, j, o);
    ReplaceShape(nodes, r.nodes, id, i);
  }

  /** Records that only had their `childrenIds` contents edited keep their shape. */
  lemma {:induction false} RelinkedShapes(nodes: seq<FileRecord>, after: seq<FileRecord>, id: int, i: nat, j: nat, o: Option<nat>)
    requires |after| == |nodes| && j < |nodes| && (o.Some? ==> o.value < |nodes|)
    requires nodes[j].childrenIds.Some? && after[j].childrenIds.Some?
    requires o.Some? ==> after[o.value].childrenIds == WithoutIn(nodes[o.value].childrenIds, id)
    requires forall k :: 0 <= k < |nodes| ==>
      after[k].id == nodes[k].id && after[k].name == nodes[k].name &&
      after[k].movable == nodes[k].movable && after[k].editable == nodes[k].editable &&
      after[k].writable == nodes[k].writable
    requires forall k :: 0 <= k < |nodes| && k != i ==> after[k].parentId == nodes[k].parentId
    requires forall k :: 0 <= k < |nodes| && k != j && o != Some(k) ==> after[k].childrenIds == nodes[k].childrenIds
    ensures forall k :: 0 <= k < |nodes| && k != i ==> Shape(after[k]) == Shape(nodes[k])
  {
    forall k | 0 <= k < |nodes| && k != i ensures Shape(after[k]) == Shape(nodes[k]) {
      assert after[k].childrenIds.Some? == nodes[k].childrenIds.Some?;
    }
  }

  /** Replacing the one record with `id` by its new version gives a list of the same
      shape as one that agrees with the old list, up to shape, everywhere else. */
  lemma {:induction false} ReplaceShape(nodes: seq<FileRecord>, after: seq<FileRecord>, id: int, i: nat)
    requires |after| == |nodes| && i < |nodes| && nodes[i].id == id
    requires forall k :: 0 <= k < |nodes| && k != i ==> nodes[k].id != id
    requires forall k :: 0 <= k < |nodes| && k != i ==> Shape(after[k]) == Shape(nodes[k])
    ensures SameShape(ReplaceById(nodes, id, after[i]), after)
  {
  }

  class FileStore {
    /** `_files`, `transformed`, `searchTerm`, `filtered`; `None` is `undefined`. */
    var files: Option<seq<FileRecord>>
    var transformed: Option<seq<Node>>
    var searchTerm: Option<string>
    var filtered: Option<seq<Node>>

    /** What every action keeps: records and forest are loaded together; the records
        have unique ids (the only lists the store is given); the forest is the one built
        from them up to `isCollapsed` flags, and carries every id once; a blank search
        term shows the forest itself. */
    ghost predicate Valid()
      reads this
    {
      (files.Some? <==> transformed.Some?) &&
      (transformed.Some? <==> filtered.Some?) &&
      (files.Some? ==>
        UniqueIds(files.value) &&
        Outline(transformed.value) == Outline(Build(files.value)) &&
        UniqueTreeIds(transformed.value)) &&
      (IsBlank(searchTerm) ==> filtered == transformed)
    }

    /** The store shows the records `fs`: they are loaded, the forest is the one built
        from them, and the shown forest is its view under the current term. */
    ghost predicate Shows(fs: seq<FileRecord>)
      reads this
    {
      UniqueIds(fs) && files == Some(fs) && transformed == Some(Build(fs)) &&
      filtered == Some(FilteredView(searchTerm, Build(fs)))
    }

    /** The initial state: everything `undefined`. */
    constructor ()
      ensures Valid()
      ensures files.None? && transformed.None? && searchTerm.None? && filtered.None?
    {
      files := None;
      transformed := None;
      searchTerm := None;
      filtered := None;
    }

    /** `updateFiltered`: a blank term shows the forest itself; otherwise the filtered
        view of the forest, which must be loaded. */
    method UpdateFiltered() returns (r: Result<(), StoreError>)
      requires Valid()
      modifies this
      ensures Valid()
      ensures files == old(files) && transformed == old(transformed) && searchTerm == old(searchTerm)
      ensures IsBlank(searchTerm) ==> r.Ok? && filtered == transformed
      ensures !IsBlank(searchTerm) && transformed.None? ==> r == Err(NotLoaded) && filtered == old(filtered)
      ensures !IsBlank(searchTerm) && transformed.Some? ==>
        r.Ok? && filtered == Some(FilteredView(searchTerm, transformed.value))
    {
      var term := searchTerm;
      if IsBlank(term) {
        filtered := transformed;
        return Ok(());
      }
      if transformed.None? {
        return Err(NotLoaded);
      }
      filtered := Some(FilteredView(term, transformed.value));
      r := Ok(());
    }

    /** `setSearchTerm`: store the term, then `updateFiltered`. */
    method SetSearchTerm(term: Option<string>) returns (r: Result<(), StoreError>)
      requires Valid()
      modifies this
      ensures Valid()
      ensures searchTerm == term && files == old(files) && transformed == old(transformed)
      ensures IsBlank(term) ==> r.Ok? && filtered == transformed
      ensures !IsBlank(term) && transformed.None? ==> r == Err(NotLoaded) && filtered == old(filtered)
      ensures !IsBlank(term) && transformed.Some? ==>
        r.Ok? && filtered == Some(FilteredView(term, transformed.value))
    {
      searchTerm := term;
      // In the source the two writes are one `set` followed at once by `updateFiltered`.
      // Here `Valid` must hold between them, and it asks a blank term to show the forest
      // itself, so the value `updateFiltered` is about to write is written first.
      if IsBlank(term) {
        filtered := transformed;
      }
      r := UpdateFiltered();
    }

    /** `setFiles`: store the records, build the forest, show it, then apply the
        current search term. */
    method SetFiles(fs: seq<FileRecord>)
      requires Valid() && UniqueIds(fs)
      modifies this
      ensures Valid()
      ensures files == Some(fs) && transformed == Some(Build(fs)) && searchTerm == old(searchTerm)
      ensures filtered == Some(FilteredView(searchTerm, Build(fs)))
    {
      files := Some(fs);
      var forest := TransformFilesIntoRenderableNodes(fs);
      BuildUniqueIds(fs);
      transformed := Some(forest);
      filtered := Some(forest);
      var _ := UpdateFiltered();
    }

    /** `triggerCollapsed`: flip `isCollapsed` of the node `findInTreeById` finds; an
        unknown id changes nothing. The shown forest follows for a blank term (it is
        the forest itself) and, for any other term, only when the node is a file:
        filtering copies directories but keeps files as they are, so a kept file is
        the very node that was flipped. */
    method TriggerCollapsed(id: int) returns (r: Result<(), StoreError>)
      requires Valid()
      modifies this
      ensures Valid()
      ensures files == old(files) && searchTerm == old(searchTerm)
      ensures old(transformed).None? ==> r == Err(NotLoaded) && transformed == old(transformed) && filtered == old(filtered)
      ensures old(transformed).Some? ==> r.Ok? && transformed == Some(ToggleForest(old(transformed).value, id))
      ensures old(transformed).Some? && FindById(old(transformed).value, id).None? ==>
        transformed == old(transformed) && filtered == old(filtered)
      ensures old(transformed).Some? && FindById(old(transformed).value, id).Some? ==>
        if IsBlank(searchTerm) then filtered == transformed
        else if FindById(old(transformed).value, id).value.children.Null? then
          filtered == Some(ToggleForest(old(filtered).value, id))
        else filtered == old(filtered)
    {
      if transformed.None? {
        return Err(NotLoaded);
      }
      var tree := transformed.value;
      var file := FindInTree(tree, id);
      if file.None? {
        return Ok(());
      }
      ToggleKeepsOutline(tree, id);
      ToggleKeepsUnique(tree, id);
      transformed := Some(ToggleForest(tree, id));
      if IsBlank(searchTerm) {
        filtered := transformed;
      } else if file.value.children.Null? {
        filtered := Some(ToggleForest(filtered.value, id));
      }
      r := Ok(());
    }

    /** `fetchFiles`: load the backend's list. */
    method FetchFiles(api: MockBackend)
      requires Valid() && UniqueIds(api.nodes)
      modifies this
      ensures Valid()
      ensures files == Some(api.nodes) && transformed == Some(Build(api.nodes)) && searchTerm == old(searchTerm)
      ensures filtered == Some(FilteredView(searchTerm, Build(api.nodes)))
    {
      var response := api.FetchFileTree();
      SetFiles(response);
    }

    /** `renameFile`: the backend renames first; a backend error propagates and leaves
        the store as it was; then the answer replaces the record with that id and the
        forest is rebuilt. With nothing loaded the backend has already renamed when
        the store fails. */
    method RenameFile(id: int, name: string, api: MockBackend) returns (r: Result<(), StoreError>)
      requires Valid()
      modifies this, api
      ensures Valid()
      ensures api.nodes == Rename(old(api.nodes), id, name).nodes
      ensures Rename(old(api.nodes), id, name).answer.Err? ==>
        (r == Err(Backend(FileNotFound)) && unchanged(this))
      ensures Rename(old(api.nodes), id, name).answer.Ok? && old(files).None? ==>
        (r == Err(NotLoaded) && unchanged(this))
      ensures Rename(old(api.nodes), id, name).answer.Ok? && old(files).Some? ==>
        (r.Ok? && searchTerm == old(searchTerm) &&
         Shows(ReplaceById(old(files).value, id, Rename(old(api.nodes), id, name).answer.value)))
      ensures old(files) == Some(old(api.nodes)) && r.Ok? ==> files == Some(api.nodes)
    {
      ghost var before := api.nodes;
      var response := api.RenameFile(id, name);
      RenameEffect(before, id, name);
      if response.Err? {
        return Err(Backend(response.error));
      }
      if files.None? {
        return Err(NotLoaded);
      }
      ReplaceKeepsIds(files.value, id, response.value);
      if files == Some(before) {
        MergeRename(before, id, name);
      }
      SetFiles(ReplaceById(files.value, id, response.value));
      r := Ok(());
    }

    /** `moveFile`: `canMove` on the current forest decides first, before the backend
        is called; a refusal changes nothing anywhere. Then the backend moves (to the
        destination as a non-null parent); a backend error propagates; then the
        answer replaces the record with that id and the forest is rebuilt. */
    method MoveFile(id: int, dest: int, api: MockBackend) returns (r: Result<(), StoreError>)
      requires Valid()
      modifies this, api
      ensures Valid()
      ensures old(transformed).None? ==>
        (r == Err(NotLoaded) && unchanged(this) && unchanged(api))
      ensures old(transformed).Some? && !CanMove(id, dest, old(transformed).value) ==>
        (r == Err(CannotMove) && unchanged(this) && unchanged(api))
      ensures old(transformed).Some? && CanMove(id, dest, old(transformed).value) ==>
        api.nodes == Move(old(api.nodes), id, Some(dest)).nodes
      ensures (old(transformed).Some? && CanMove(id, dest, old(transformed).value) &&
               Move(old(api.nodes), id, Some(dest)).answer.Err?) ==>
        (r == Err(Backend(Move(old(api.nodes), id, Some(dest)).answer.error)) && unchanged(this))
      ensures (old(transformed).Some? && CanMove(id, dest, old(transformed).value) &&
               Move(old(api.nodes), id, Some(dest)).answer.Ok?) ==>
        (r.Ok? && searchTerm == old(searchTerm) &&
         Shows(ReplaceById(old(files).value, id, Move(old(api.nodes), id, Some(dest)).answer.value)))
      ensures old(files) == Some(old(api.nodes)) && r.Ok? ==>
        (UniqueIds(api.nodes) && Build(files.value) == Build(api.nodes))
    {
      if transformed.None? {
        return Err(NotLoaded);
      }
      if !CanMove(id, dest, transformed.value) {
        return Err(CannotMove);
      }
      ghost var before := api.nodes;
      var response := api.MoveFile(id, Some(dest));
      MoveErrorKeepsNodes(before, id, Some(dest));
      if response.Err? {
        return Err(Backend(response.error));
      }
      ReplaceKeepsIds(files.value, id, response.value);
      if files == Some(before) {
        MergeMove(before, id, Some(dest));
      }
      SetFiles(ReplaceById(files.value, id, response.value));
      r := Ok(());
    }
  }
}
