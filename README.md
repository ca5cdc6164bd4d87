# File tree store, modelled in Dafny

The project models the state core of a small file-tree viewer. The backend holds a flat list of
file records (`FileTreeNode`: `id`, `parentId`, `name`, `childrenIds`, `movable`,
`editable`, `writable`). The store (`src/store.ts`) does the following:

- loads that list;
- builds the renderable forest (`transformFilesIntoRenderableNodes`);
- computes the forest shown for a search term (`updateFiltered`);
- flips a node's `isCollapsed` flag (`triggerCollapsed`);
- forwards renames and moves to the backend, then merges the answer back into its list.

Before forwarding a move, the store checks it with the recursive `canMove`. The mock
backend (`src/mocks.ts`) keeps the eight `MOCK_FILE_NODES` records and performs `renameFile`
and `moveFile` on them in place.

Modules:

- `Wrappers`: `Option` and `Result`.
- `Records`: the backend record, `FindIndex` (`Array.prototype.find` as an index) and unique ids.
- `Tree`: the renderable node. `Flatten` lists the nodes in depth-first pre-order.
  `FindById` and the loop `FindInTree` model `findInTreeById`.
- `Builder`: `buildTree` as a loop (`BuildTree`) and as a ghost function (`Build`). Both are
  proved equal to a declarative description (`BuiltLevel`).
- `BuiltIds`: a built forest carries every id at most once.
- `Shapes`: `buildTree` reads only whether `childrenIds` is null.
- `Search`: `hasMatchingDescendant`, `filterOutUnmatchingDescendants` and the filtered view.
- `Moves`: `canMove`, and an exact characterisation of it.
- `Collapse`: the toggle of `isCollapsed`.
- `Mocks`: the mock data and the two backend operations. They are written once as
  functions on the record list, and once as the class `MockBackend` whose methods update
  the list.
- `MockTree`: the forest built from the mock data.
- `Store`: the class `FileStore` with the four fields of the zustand store and one method
  per action.

## Model

| member | source | states |
|---|---|---|
| Records.FindIndex | src/mocks.ts:100 | the index of the first record with the id, or `None` exactly when no record has it |
| Tree.FirstMatch | src/store.ts:24-42 | `None` iff no node of the sequence has the id; otherwise the node at the first position carrying it |
| Tree.FindById | src/store.ts:24-42 | `findInTreeById` returns the first node with the id in depth-first pre-order of the forest |
| Tree.FindInSubtree | src/store.ts:33-37 | the recursive search in a directory's children finds the first match of the subtree in pre-order |
| Tree.FirstMatchAppend | src/store.ts:28-39 | a search over `a + b` answers from `a` when `a` has the id, otherwise from `b` |
| Tree.FindUnique | src/store.ts:24-42 | in a forest whose ids are unique, every node is what the search returns for its own id |
| Tree.FoundInForest | src/store.ts:24-42 | a found node is a node of the forest and carries the id asked for |
| Tree.FindInTree | src/store.ts:24-42 | the loop over the forest with its recursive calls returns exactly `FindById` |
| Builder.MakeNode | src/store.ts:167-176 | the node pushed for a record mirrors it: every field copied, not collapsed, `children` null exactly when `childrenIds` is null; its children are stated by `MakeNodeBuilt` |
| Builder.Level | src/store.ts:163-181 | the `children` array after the loop has seen a prefix of the records; what it holds is stated by `LevelSelects` |
| Builder.Forest | src/store.ts:162-182 | the value of `buildTree(parent)`; that it meets the declarative description is stated by `ForestBuilt` |
| Builder.Build | src/store.ts:184 | the forest `buildTree(null)` returns is a built level for the null parent, and by `BuildCharacterized` the only one |
| Builder.ChildRecords | src/store.ts:165-166 | the records the loop selects for a parent are exactly the input records with that `parentId` |
| Builder.ChildRecordsAppend | src/store.ts:165-179 | selecting from `a + b` is selecting from `a`, then from `b`: input order is kept |
| Builder.BuildTree | src/store.ts:162-182 | the loop `for (const node of files)` with its recursion computes `Forest`, the built level of the parent |
| Builder.TransformFilesIntoRenderableNodes | src/store.ts:161-185 | the result is `Build(files)`, and it is a built level for the null parent: one node per top-level record, in input order, each mirroring its record's fields, with children exactly when `childrenIds` is not null |
| Builder.LevelSelects | src/store.ts:163-181 | after the loop has seen a prefix of the records, `children` holds one node per selected record, in order |
| Builder.ForestBuilt | src/store.ts:162-182 | every level `buildTree` produces meets the declarative description |
| Builder.MakeNodeBuilt | src/store.ts:167-176 | every node copies `id`, `parentId`, `name`, `movable`, `editable` and `writable`, is not collapsed, and is a directory iff `childrenIds` is not null |
| Builder.BuiltLevelUnique | src/store.ts:162-182 | the declarative description determines a level completely |
| Builder.BuildCharacterized | src/store.ts:161-185 | a forest meets the description of the top level iff it is the built forest |
| Builder.BuiltSubtreeNodes | src/store.ts:171 | every node below a built node mirrors some record, and is the node itself or a child of a directory in the subtree whose id is its `parentId` |
| Builder.BuildNodesAttached | src/store.ts:161-185 | every node of the built forest mirrors an input record and is top-level or a child of a directory node whose id is its `parentId` |
| Builder.OrphanDropped | src/store.ts:165-171 | a record whose parent id belongs to no directory record gets no node anywhere in the forest |
| BuiltIds.BuildUniqueIds | src/store.ts:161-185 | records with unique ids build a forest in which every id occurs once in pre-order |
| BuiltIds.NodeDistinct | src/store.ts:167-176 | the subtree built for one record carries distinct ids |
| BuiltIds.LevelDistinct | src/store.ts:162-182 | a built level carries distinct ids across all its subtrees |
| Shapes.BuildShapeOnly | src/store.ts:171 | two record lists that differ only in the contents of non-null `childrenIds` build the same forest |
| Search.HasMatchingDescendant | src/store.ts:104-114 | a node whose name contains the term matches, and a file matches exactly when its name does; the full meaning is `MatchIffNameInSubtree` |
| Search.SomeMatch | src/store.ts:113 | `children.some(hasMatchingDescendant)` holds iff some node of the sequence has a matching descendant |
| Search.FilterForest | src/store.ts:133-135 | one level of `filter` and `map` is never longer than its input; which nodes it keeps is `FilterForestSelects` |
| Search.ContainsAt | src/store.ts:105 | `includes` holds iff the term occurs at some position of the name |
| Search.FilteredView | src/store.ts:97-138 | a blank term (`undefined` or "") shows the forest itself; otherwise the view has no more nodes than the forest, and every node in it has a matching descendant |
| Search.FilterOut | src/store.ts:116-131 | a filtered node keeps every field but `children`, and stays a file or a directory |
| Search.MatchIffNameInSubtree | src/store.ts:104-114 | `hasMatchingDescendant` holds iff some node of the subtree, the node itself included, has a name containing the term |
| Search.SomeMatchIffNameInForest | src/store.ts:113 | `children.some(hasMatchingDescendant)` holds iff some node of the children's forests has a matching name |
| Search.MatchLiftsToAncestor | src/store.ts:104-114 | a match anywhere below a node makes the node itself match |
| Search.FilterForestSelects | src/store.ts:133-135 | one level of filtering keeps exactly the nodes with a matching descendant, in their original order, each as `filterOutUnmatchingDescendants` of the original |
| Search.FilterNarrows | src/store.ts:133-135 | filtering never adds nodes |
| Search.FilterOutKeepsMatch | src/store.ts:116-131 | a matching node still matches once filtered, and a filtered node left without children matches by its own name |
| Search.FilteredNodesMatch | src/store.ts:116-137 | every node of the filtered forest, at any depth, has a matching descendant; one without children has a matching name |
| Search.FilteredNodesFromOriginal | src/store.ts:116-137 | every node of the filtered forest is the filtered copy of a node of the original forest: no field other than `children` changes |
| Search.MatchingNodesKept | src/store.ts:116-137 | every node with a matching descendant is kept, filtered, somewhere in the filtered forest |
| Search.AncestorsOfMatchKept | src/store.ts:104-137 | every ancestor of a node whose name contains the term is kept |
| Moves.CanMove | src/store.ts:44-69 | a missing id, a move onto the node itself and a move to its current parent are refused |
| Moves.CanMoveWithin | src/store.ts:54-66 | the body of `canMove` with a nesting bound; one call is unfolded by `CanMoveWithinStep` and decided by `CanMoveWithinExact` |
| Moves.EveryCanMove | src/store.ts:63-65 | `children.every(...)` as a recursion over the children; its meaning is `EveryCanMoveAll` |
| Moves.CanMoveWithinStep | src/store.ts:54-66 | one call refuses the destination as the node's id or parent, and otherwise asks every child |
| Moves.EveryCanMoveAll | src/store.ts:63-65 | `every` over the children holds iff each child can be moved |
| Moves.CanMoveWithinExact | src/store.ts:44-69 | with unique ids and enough nesting, the recursion decides the rule: no node of the subtree has the destination as id or parent |
| Moves.CanMoveFound | src/store.ts:44-69 | with unique ids, for a node the search finds, `canMove` holds iff no node of its subtree has the destination as id or as parent |
| Moves.CanMoveExact | src/store.ts:44-69 | with unique ids, `canMove` holds iff the node exists and no node of its subtree has the destination as id or as parent |
| Moves.CannotMoveIntoDescendant | src/store.ts:44-69 | a node can never be moved into a directory of its own subtree |
| Collapse.Flip | src/store.ts:82 | `isCollapsed: !node.isCollapsed` flips the flag and keeps every other field, children included |
| Collapse.ToggleForest | src/store.ts:77-84 | exactly the first node with the id in pre-order has its flag flipped, and every other field of every node is kept; an unknown id leaves the forest as it is |
| Collapse.ToggleNode | src/store.ts:82 | the same within the subtree of one node |
| Collapse.ToggleKeepsUnique | src/store.ts:77-84 | a toggle keeps ids unique |
| Collapse.ToggleTwice | src/store.ts:77-84 | triggering the same id twice restores the forest |
| Collapse.ToggleKeepsOutline | src/store.ts:77-84 | a toggle changes nothing but `isCollapsed` flags |
| Store.FileStore.constructor | src/store.ts:71-75 | the initial state: all four fields `undefined` |
| Store.FileStore.UpdateFiltered | src/store.ts:97-138 | a blank term shows the forest itself; an unloaded forest with a non-blank term fails and changes nothing; otherwise the filtered view is shown; the invariant `Valid` is kept |
| Store.FileStore.SetSearchTerm | src/store.ts:85-89 | the term is stored, and the shown forest follows as in `updateFiltered` |
| Store.FileStore.SetFiles | src/store.ts:90-96 | the records are stored, the forest is built from them, and the shown forest is its view under the current term |
| Store.FileStore.TriggerCollapsed | src/store.ts:77-84 | an unloaded store fails; an unknown id changes nothing; otherwise the forest is toggled. The shown forest follows for a blank term and, for a non-blank one, only when the node is a file, because filtering copies directories |
| Store.FileStore.FetchFiles | src/store.ts:139-142 | the backend's list is loaded as by `setFiles` |
| Store.FileStore.RenameFile | src/store.ts:143-149 | the backend renames first; a backend error leaves the store unchanged; an unloaded store fails after the backend has renamed; otherwise the store shows its list with the answer in place of the record with that id, and a store in step with the backend stays in step |
| Store.FileStore.MoveFile | src/store.ts:150-160 | `canMove` on the current forest is decided before the backend is called, and a refusal changes neither store nor backend; a backend error leaves the store unchanged; otherwise the store shows its list with the answer merged in, and a store in step with the backend builds the same forest as the backend's list |
| Store.ReplaceById | src/store.ts:145-147 | the `map` replaces every record with the id by the answer and keeps every other record at its place |
| Store.ReplaceKeepsIds | src/store.ts:145-147 | the merge keeps every id in place, so unique ids stay unique |
| Store.MergeRename | src/store.ts:143-149 | merging the backend's answer into the list the backend had reproduces the backend's renamed list exactly |
| Store.MergeMove | src/store.ts:150-160 | merging the answer of a move into the list the backend had gives a list that differs from the backend's only in the contents of `childrenIds`, so both build the same forest |
| Mocks.MockIdsUnique | src/mocks.ts:17-90 | the mock records have distinct ids |
| MockTree.MockBuild | src/mocks.ts:17-90 | the mock records build two top-level directories, 1 and 100; directory 1 holds 2, 3 and the file 4; directory 100 is empty |
| Mocks.MockBackend.constructor | src/mocks.ts:17-90 | the backend starts with the mock records |
| Mocks.MockBackend.FetchFileTree | src/mocks.ts:92-94 | the backend's current list is returned |
| Mocks.MockBackend.Find | src/mocks.ts:100 | the loop finds the first record with the id, and a null id finds none |
| Mocks.FindOpt | src/mocks.ts:128 | a lookup of a null id finds nothing; otherwise it is `FindIndex` |
| Mocks.Without | src/mocks.ts:145-146 | `filter(childId => childId !== id)` keeps every other id, with its multiplicity, and drops every occurrence of `id` |
| Mocks.WithoutIn | src/mocks.ts:145-146 | `?.filter(...) ?? null`: a null list stays null, a list loses the id |
| Mocks.Rename | src/mocks.ts:96-107 | a rename keeps the number of records |
| Mocks.RenameEffect | src/mocks.ts:96-107 | a rename fails iff no record has the id, with "File not found", and then changes nothing; otherwise only the first record with the id takes the new name, keeps every other field, and is the answer |
| Mocks.RenameKeepsIds | src/mocks.ts:96-107 | a rename keeps every id in place |
| Mocks.RenameIgnoresEditable | src/mocks.ts:96-107 | whether a rename succeeds, and its answer's id and name, never depend on any `editable` flag |
| Mocks.MockBackend.RenameFile | src/mocks.ts:96-107 | the method updates the list and answers exactly as `Rename` |
| Mocks.Move | src/mocks.ts:109-151 | a move keeps the number of records |
| Mocks.MoveRefusals | src/mocks.ts:113-139 | the refusals come in source order: into itself; unknown id; current parent, answered with the unchanged record; missing or null parent; parent not writable; parent not a directory |
| Mocks.MoveErrorKeepsNodes | src/mocks.ts:109-151 | a refused move changes nothing, and a successful answer carries the id and the new parent |
| Mocks.Relink | src/mocks.ts:141-149 | the three in-place writes of a successful move keep the number of records; what they change is `RelinkFields` and `RelinkChildren` |
| Mocks.RelinkFields | src/mocks.ts:141-149 | the relinking sets the moved record's parent and changes no field other than `childrenIds` and that one `parentId` |
| Mocks.RelinkChildren | src/mocks.ts:141-147 | only the new parent's and the old parent's `childrenIds` change |
| Mocks.MoveEffect | src/mocks.ts:109-151 | in a successful move the record takes the new parent; the new parent's `childrenIds` gains the id at the end; the old parent, if any, loses every occurrence of it; nothing else changes |
| Mocks.MoveRelinks | src/mocks.ts:141-149 | after a successful move the new parent lists the id and the old parent no longer does |
| Mocks.MoveKeepsIds | src/mocks.ts:109-151 | a move keeps every id in place, so unique ids stay unique |
| Mocks.MoveIgnoresMovable | src/mocks.ts:109-151 | neither whether a move succeeds nor its error ever depends on any `movable` flag |
| Mocks.MockBackend.MoveFile | src/mocks.ts:109-151 | the method updates the list and answers exactly as `Move` |

## Left out

- Asynchrony, zustand's `set`/`get` and re-rendering, and the React components are not
  modelled. Each action runs to completion. A rejected promise or a thrown error becomes an
  `Err` result.
- A `TypeError` from a non-null assertion on an `undefined` field (`transformed!`,
  `_files!`) is modelled as `Err(NotLoaded)` at the point where the source throws. In
  `renameFile` that point comes after the backend has renamed.
- The unguarded `findInTreeById(get().transformed!)` in `triggerCollapsed` is modelled as
  `Err(NotLoaded)` too, and changes nothing.
- Object identity between the store and the backend is not modelled. In the source,
  `_files` holds the backend's own record objects, so the backend's in-place edits show
  through. The model keeps two copies instead:
  - after a rename, a store that was in step with the backend holds exactly the backend's
    list (`MergeRename`);
  - after a move, the two lists may differ in the contents of `childrenIds`, and provably
    build the same forest (`MergeMove`).
- Object identity inside the store is modelled only where it is visible:
  - with a blank term the shown forest is the forest itself;
  - with a non-blank term, filtering copies directories and keeps files as they are. So
    `TriggerCollapsed` flips a shown node only when it is a file;
  - after toggles, the model does not relate a non-blank shown forest to the forest,
    because its directory copies have drifted.
- Builder.Build, Builder.BuildTree, Builder.TransformFilesIntoRenderableNodes,
  Store.FileStore.SetFiles, Store.FileStore.FetchFiles: these require unique ids in the
  record list, which the source does not ask for.
  - With duplicate ids and a cycle, the source's `buildTree` does not terminate.
  - The mock data has unique ids (`MockIdsUnique`), and rename and move keep them unique.
- Moves.CanMove: it is a recursion bounded by one more than the number of nodes. The source
  is unbounded, and with unique ids the bound is never reached (`CanMoveExact`).
- `src/transformer.ts` is a placeholder that ignores its input and returns a fixed tree; it
  is not part of this model.
- `src/types.ts` declares no `isCollapsed` field, although the store reads and writes one.
  The model gives every node the field.
- The record type documents three flags (`movable`, `editable`, `writable`,
  src/mocks.ts:9-14), but the code checks only `writable`. The model follows the code:
  - `renameFile` never checks `editable` (`RenameIgnoresEditable`);
  - `moveFile` never checks `movable` (`MoveIgnoresMovable`).
- There is no synthetic root: top-level records have a null `parentId`. Moving a nested
  record to the top level fails with "Parent not found"; a top-level record moved to null
  comes back unchanged (src/mocks.ts:122-126 and 128-130).
- The tree component calls `deleteFile` (src/components/FileTree.tsx:86,111), but neither
  the store nor the mock backend defines it, so there is nothing to model.
- The store's `moveFile` throws "Cannot move file into itself" for every refusal by
  `canMove`. The model reports it as `Err(CannotMove)`.
