# Data-room tree: a verified model

The service keeps a tree of folders and files in data rooms. Every folder row stores its place
twice: `parent_id` is the truth, and `path` (`/id/id/`) is a redundant index that makes subtree
queries, cycle checks, deletes, statistics, breadcrumbs and access checks a matter of string
prefixes. This project models that tree, the code that reads and rewrites the paths, and the
services built on it, and proves that the string answers are the answers of a walk over the
parent links, in every state that any sequence of requests can reach.

`dafny verify dfyconfig.toml` checks everything.

## How the project is laid out

- `Base`, `Tables`: ids, results, rows, and the `Database` object that the services update in place.
- `Like`, `Paths`: the LIKE operator, escaping, path building and parsing; paths are a faithful code
  for id chains.
- `Tree`: parent links (`Ancestor`, `Reaches`, `Lineage`, `LinkPath`) against the path column.
- `Integrity`, `Graft`, `Steps`, `Preservation`: the state invariant `Inv`; the prefix rewrite against
  the spelling of new links; what each request does, said with parent links only; why each request
  keeps `Inv`.
- `Outcomes`: every answer and every row after a request, written out.
- `FoldersService`, `FilesService`, `DataRoomsService`: the requests statement by statement, on path
  strings and LIKE. Each method is proved to do exactly what its function in `Steps` says.
- `Moves`, `MoveBackConflict`, `Stats`, `Paging`, `NameConflict`, `Conflicts`: laws of single features.
- `Access`, `AccessLaws`, `Shares`: the access decision, the share list, what moves, deletions and
  revocations do to access, breadcrumbs.
- `Histories`, `Upload`, `Service`: whole runs of requests; the finely interleaved upload handshake;
  requests and storage together.

Most results ask for `Inv`; `Histories.HistoriesKeepInv` shows that every reachable state has it.
Each request of the folder, file and room services is one atomic step. Only the upload handshake is
interleaved. Rows returned without ORDER BY come in an arbitrary order. Generated ids, the clock,
what storage reports about a key, the size limit and the verdict on the MIME type are parameters.

Whether storage accepts a second PUT on an existing object is a parameter too. No result about the
presence of objects depends on it. That a size which confirm compared stays the size of the object
assumes that storage refuses such a PUT (`Upload.UploadsLeaveNoPhantom`); the upload URL asks for no
overwriting, and `Upload.OverwriteBreaksSizes` shows that the assumption is needed.

## Where the code does less than its documentation says

- `README.md:208` of the repository says that name conflicts resolve and do not fail. They fail, with
  a 409, when the wanted name is taken, its own suffixed form is not recognised by the search, and
  ` (1)` is taken as well. A suffixed form goes unrecognised when the base holds a line terminator
  (U+2028 and U+2029 pass the name validation), and, for files, when a name of two or more characters
  ends in a dot. `NameConflict.ResolvedTaken` gives the exact condition, `Conflicts` carries it to
  every request, and `NameConflict.TrailingDotCollides` and `NameConflict.LineSeparatorCollides` are
  concrete inputs.
- For the same reason moving a folder there and back can end in a name conflict, which leaves the
  branch at the target (`MoveBackConflict.MoveBackConflicts` is a store and two such moves). Whenever
  the move back is accepted, every path and parent comes back; `Moves.MoveThereAndBack` has the exact
  condition.
- `README.md:177` says breadcrumbs are trimmed at the share root. For a share on the room they are
  empty instead, because a room id never occurs in a folder path
  (`AccessLaws.NoBreadcrumbsAtBoundary`).

## Model

| member | source | states |
|---|---|---|
| Paths.PathCode | src/folders/path.service.ts:8-39 | Path strings are a faithful code for id chains of any length: parsing undoes building, slash count minus one is the depth, and startsWith and LIKE each decide the prefix order on chains |
| Paths.ParseConcat | src/folders/path.service.ts:12-14 | Splitting and dropping empty segments distributes over a slash |
| Paths.ParseChildPath | src/folders/path.service.ts:8-14 | Building a child path appends exactly one id to what parsing returns |
| Paths.SplitJoins | src/folders/path.service.ts:12-14 | Splitting cuts at every slash and only there: joining undoes it and no segment holds a slash |
| Paths.RenderText | src/folders/path.service.ts:8-10 | The path text is a slash, and per id of the chain the id and one more slash |
| Like.PrefixAndSuffix | src/common/services/name-conflict.service.ts:48-52 | Escaped base, percent sign, escaped extension accept exactly the strings that start with the base, end with the extension and hold both |
| Like.EscapedPrefix | src/common/services/name-conflict.service.ts:68-70 | An escaped literal is consumed literally whatever LIKE characters it contains |
| Like.PlainPrefix | src/folders/path.service.ts:24-26 | On text without LIKE characters the subtree pattern is the prefix test |
| Like.Wildcards | src/common/services/name-conflict.service.ts:68-70 | `_` lets any one character through and `%` any number, which is why the literals have to be escaped |
| Tree.PathTestsAreReachability | src/folders/path.service.ts:12-39 | startsWith, LIKE, the parsed ids and the slash depth give the answers of the walk over parent links |
| Tree.PathIsLinkPath | src/folders/folders.service.ts:74-84 | The stored path is the one a walk over the parent links spells, and that walk is unique |
| Tree.Acyclic | src/folders/folders.service.ts:151-153 | No folder is its own proper ancestor |
| Tree.LinkPathsDetermineTree | src/folders/folders.service.ts:173-187 | Two tables with the same links carry the same paths |
| Integrity.FolderIndexIsSiblingQuery | src/database/migrations/1786809554648-InitialSchema.ts:66-75 | The two unique folder indexes accept a changed row exactly if the sibling query at its place does not return its name |
| Integrity.FileIndexIsSiblingQuery | src/database/migrations/1786809554648-InitialSchema.ts:97-105 | The same for the two unique file indexes |
| Graft.SubtreeQueryIsBranch | src/folders/folders.service.ts:204-216 | The subtree query selects exactly the live folders that reach the folder by parent links |
| Graft.MovedIsGrafted | src/folders/path.service.ts:41-56 | Prefix rewrite plus one-row relink equals detaching the branch, attaching it elsewhere and spelling every live path anew from the links |
| Graft.MovedRows | src/folders/path.service.ts:41-56 | Row by row: only branch paths change, and outside the branch every row is the same |
| Graft.MovedKeepsTree | src/folders/folders.service.ts:173-187 | After a move every live path again extends its live parent's path in the same room |
| Graft.ChainOutside | src/folders/folders.service.ts:173-187 | A move leaves the ancestor chain of every folder outside the branch as it was |
| Graft.ChainInside | src/folders/folders.service.ts:173-187 | Inside the branch exactly the part of the chain above the moved folder is exchanged |
| Graft.RewriteToSamePath | src/folders/folders.service.ts:173-180 | Rewriting to the same path changes nothing, so skipping it is harmless |
| FoldersService.MaxSubtreeDepth | src/folders/path.service.ts:28-39 | Returns the greatest slash depth in the subtree query, and 0 for no row |
| FoldersService.RewriteSubtreePaths | src/folders/path.service.ts:41-56 | For an old path without LIKE characters: exactly the live rows of the room whose path starts with it get the new path plus their old tail; every other row and table is equal to before |
| FoldersService.DepthTestIsExact | src/folders/folders.service.ts:155-161 | The MAX query decides whether some folder of the branch would end deeper than 20 |
| FoldersService.ResolveSiblingName | src/folders/folders.service.ts:408-438 | Asking only for LIKE-matching siblings gives the name that searching all siblings would give |
| FoldersService.Create | src/folders/folders.service.ts:57-91 | Same outcome, error and rows as the link-only step, and keeps the invariant |
| FoldersService.Rename | src/folders/folders.service.ts:114-141 | Same outcome as the link-only step, and keeps the invariant |
| FoldersService.Move | src/folders/folders.service.ts:143-197 | Same outcome as the link-only step: rejected as a cycle exactly if the target reaches the folder, as too deep exactly if some branch folder would be, rolled back on a name conflict, otherwise the grafted table; keeps the invariant |
| FoldersService.SoftDelete | src/folders/folders.service.ts:199-218 | Stamps exactly the live folders that reach the folder and the live files in them; keeps the invariant |
| FoldersService.StampsAreBranch | src/folders/folders.service.ts:204-216 | The two LIKE statements equal the deletion said with parent links |
| FoldersService.StampFoldersFirst | src/folders/folders.service.ts:204-216 | With the two statements swapped no file would be stamped |
| Outcomes.CreateFolderAnswers | src/folders/folders.service.ts:57-87 | 404 without a live room or a live parent in it, then too deep beyond 20 levels, then 409 for a taken name that cannot be resolved; accepted otherwise |
| Outcomes.CreateFolderInserts | src/folders/folders.service.ts:66-83 | Exactly one row is added: live, at the wanted place, with the path that its links spell and the wanted name or, if a sibling has it, a free one |
| Outcomes.RenameFolderOutcome | src/folders/folders.service.ts:114-141 | Each answer with its guard; accepted, only the name of the one row changes, to the wanted name or a free one |
| Outcomes.MoveFolderAnswers | src/folders/folders.service.ts:143-161 | The order and exact guards of 404, cycle, depth and conflict, over parent links |
| Outcomes.MoveFolderRelinks | src/folders/folders.service.ts:163-190 | Only the folder's parent and name change, and the paths: every live path is again the one its links spell, deleted rows stay |
| Outcomes.DeleteFolderOutcome | src/folders/folders.service.ts:199-218 | A row dies exactly if it is a live folder that reaches the folder or a live file in one; no other column changes |
| FilesService.ResolveSiblingName | src/files/files.service.ts:228-258 | Pre-filtered search equals the search over all siblings, with extensions split |
| FilesService.CreateUploadUrl | src/files/files.service.ts:41-56 | Exact errors; the issued key passes the room test of confirm; the promised name is the one confirm would choose among the same siblings |
| FilesService.Confirm | src/files/files.service.ts:58-114 | Same outcome as the link-only step for every input and storage report; keeps the invariant |
| FilesService.Rename | src/files/files.service.ts:131-155 | Same outcome as the link-only step; keeps the invariant |
| FilesService.Move | src/files/files.service.ts:157-182 | Same outcome as the link-only step; keeps the invariant |
| FilesService.SoftDelete | src/files/files.service.ts:184-197 | Stamps the one row and names the key whose object is removed afterwards; keeps the invariant |
| Outcomes.ConfirmAnswers | src/files/files.service.ts:58-110 | The order and exact guards of every error of confirm |
| Outcomes.ConfirmAdds | src/files/files.service.ts:83-107 | Exactly one row is added: live, at the wanted place, with the size and key of the request and the wanted name or a free one |
| Outcomes.RenameFileOutcome | src/files/files.service.ts:131-155 | Each answer with its guard; accepted, only the name of the one row changes |
| Outcomes.MoveFileOutcome | src/files/files.service.ts:157-182 | Each answer with its guard; accepted, only folder and name of the one row change |
| Outcomes.DeleteFileOutcome | src/files/files.service.ts:184-197 | A live file is accepted and dies, with every other column, row and table as before; any other id is a 404 that changes nothing |
| DataRoomsService.SoftDelete | src/data-rooms/data-rooms.service.ts:47-64 | Closes files, folders and room; keeps the invariant |
| DataRoomsService.DeletedRoomIsEmpty | src/data-rooms/data-rooms.service.ts:47-64 | Afterwards nothing live remains in the room; every row of another room, live or deleted, the other room rows and the shares are untouched, and rows of the room change in nothing but life |
| Outcomes.CreateRoomOutcome | src/data-rooms/data-rooms.service.ts:27-31 | Exactly one live room is added, and it belongs to its creator |
| Outcomes.CreatorOwnsRoom | src/data-rooms/data-rooms.service.ts:27-31 | The creator of a room may open it as Owner, and nobody else may open it at all |
| Outcomes.DeleteRoomAnswers | src/data-rooms/data-rooms.service.ts:47-64 | A live room is accepted, any other id is a 404 that changes nothing |
| AccessLaws.DeletedRoomIsClosed | src/data-rooms/data-rooms.service.ts:47-64 | Nobody, by account or by link, may open anything in a deleted room; every other decision stays |
| Preservation.CreateFolderKeepsInv | src/folders/folders.service.ts:57-91 | Creating a folder keeps the invariant |
| Preservation.MoveFolderKeepsInv | src/folders/folders.service.ts:143-197 | Moving a folder keeps the invariant: paths, depth 20, sibling names, file places |
| Preservation.DeleteFolderKeepsInv | src/folders/folders.service.ts:199-218 | No live row is left under a deleted folder |
| Preservation.ConfirmKeepsInv | src/files/files.service.ts:83-113 | Registering a file in a live room keeps the invariant |
| Moves.MoveInPlace | src/folders/folders.service.ts:143-197 | Moving to the current parent is accepted and changes nothing at all |
| Moves.MoveThereAndBack | src/folders/folders.service.ts:143-197 | Moving back after any accepted move, when accepted, restores every row up to the folder's name; it is rejected exactly on an unresolvable name |
| MoveBackConflict.MoveBackConflicts | src/folders/folders.service.ts:143-197 | A store that satisfies the invariant, an accepted move in it, and the move back rejected with a name conflict |
| Moves.DepthGuardIsExact | src/folders/folders.service.ts:155-161 | The depth guard rejects exactly the moves after which some branch folder is deeper than 20 |
| Moves.ReachesAfterMove | src/folders/folders.service.ts:143-197 | Who reaches whom after a move, for every pair of live folders |
| Stats.StatsOf | src/folders/folders.service.ts:220-271 | The single query returns the recursive fold over parent links and the exact direct counts; NotFound exactly for a folder that is not live |
| Stats.FoldIsBranch | src/folders/folders.service.ts:231-242 | The recursive fold counts the set of folders that reach the folder, and the files and bytes in it |
| Stats.FiguresMeaning | src/folders/folders.service.ts:231-258 | The figures count the live folders that reach the folder, the live files in it or in those, their bytes, and the live rows right in it |
| Stats.BytesAdd | src/folders/folders.service.ts:237 | One more file adds its size to the total |
| Stats.MoveConservesStats | src/folders/folders.service.ts:143-197 | Old-only ancestors lose exactly the branch's figures, new-only ancestors gain them, all others keep theirs |
| Stats.DeleteStampsStats | src/folders/folders.service.ts:199-271 | The rows that softDelete stamps number subtreeFolderCount + 1 and subtreeFileCount, and nothing else changes |
| Paging.BuildContents | src/folders/folders.service.ts:277-334 | A page is sorted, within the limit, after the cursor, without gap before nextCursor; nextCursor is null exactly if nothing is left; totalItems counts the children. The order, also against the cursor, is by name and among equal names by id |
| Paging.ChildrenAreRows | src/folders/folders.service.ts:297-305 | The children are the live folder rows and live file rows of the room with that parent |
| Paging.CountDirectChildren | src/folders/folders.service.ts:336-358 | The two counts add up to the number of listed children |
| Paging.TotalIsDirectItemCount | src/folders/folders.service.ts:261-265 | The listing's total equals directItemCount of the statistics |
| Paging.RunIncreases | src/folders/folders.service.ts:283-328 | Along any run, whatever changes between requests, the returned keys strictly increase by name, and among equal names by id |
| Paging.StayerReturnedOnce | src/folders/folders.service.ts:283-328 | A child present under the same name at every request is returned exactly once in a run that ends |
| Paging.QuietRunReturnsAll | src/folders/folders.service.ts:283-328 | Without changes the pages concatenate to exactly the sorted children |
| Paging.QuietRunPages | src/folders/folders.service.ts:314-328 | They do so in max(1, ceil(n / limit)) pages |
| Paging.QuietRunEnds | src/folders/folders.service.ts:314-328 | While a cursor is returned, fewer rows were delivered than exist, so the run ends |
| NameConflict.Resolve | src/common/services/name-conflict.service.ts:16-46 | The loops compute the specified name whatever the iteration order |
| NameConflict.ExecFindsMatch | src/common/services/name-conflict.service.ts:14 | The suffix pattern has at most one match, and exec finds it |
| NameConflict.SuffixOfMeaning | src/common/services/name-conflict.service.ts:26-38 | A taken name is read as number k exactly if it is base, suffix with number k, extension |
| NameConflict.CharacterClasses | src/common/services/name-conflict.service.ts:14 | The digits are the ten ASCII digits, and the base may hold anything but the four line terminators |
| NameConflict.DecimalNumeral | src/common/services/name-conflict.service.ts:40-45 | The suffix is written as a decimal numeral without leading zeros |
| NameConflict.DecimalValue | src/common/services/name-conflict.service.ts:36 | The suffix of a taken name is read as a decimal numeral |
| NameConflict.SplitNameMeaning | src/common/services/name-conflict.service.ts:54-66 | The extension is what follows the last dot with text on both sides, and is empty otherwise |
| NameConflict.ResolvedTaken | src/common/services/name-conflict.service.ts:16-46 | The result is taken exactly if the name is taken, its candidates are not recognised and the first candidate is taken; unrecognised names always get (1) |
| NameConflict.LeastSuffix | src/common/services/name-conflict.service.ts:40-45 | The suffix is the least positive number that no taken name parses to, at most the number of taken names |
| NameConflict.PreFilterHarmless | src/common/services/name-conflict.service.ts:48-52 | Resolving among LIKE-filtered names equals resolving among all names |
| NameConflict.PromisedNameIsKept | src/files/files.service.ts:46-51 | Resolving the promised name again among the same siblings keeps it, except exactly in the unresolvable case |
| NameConflict.TrailingDotCollides | src/common/services/name-conflict.service.ts:59-65 | A concrete file name ending in a dot for which the result is taken |
| NameConflict.LineSeparatorCollides | src/common/services/name-conflict.service.ts:14 | A concrete name with a line separator for which the result is taken |
| Conflicts.CreateFolderConflict | src/folders/folders.service.ts:67-87 | Creating a folder ends in 409 exactly for an unresolvable name |
| Conflicts.RenameFolderConflict | src/folders/folders.service.ts:114-141 | Renaming a folder ends in 409 exactly for an unresolvable name |
| Conflicts.MoveFolderConflict | src/folders/folders.service.ts:163-190 | Moving a folder ends in 409 exactly for an unresolvable name |
| Conflicts.PlaceFileConflict | src/files/files.service.ts:131-182 | Renaming or moving a file ends in 409 exactly for an unresolvable name |
| Conflicts.ConfirmConflict | src/files/files.service.ts:83-110 | Confirm ends in 409 exactly for an unresolvable name or a storage key that any row, live or deleted, has |
| Access.LoadResource | src/access/typeorm-access.repository.ts:77-148 | Finds exactly the live resources; the ancestor list from the path is the chain by parent links |
| Access.FindGrants | src/access/typeorm-access.repository.ts:44-75 | Returns exactly the admitting shares on the given ids |
| Access.StrongestGrant | src/access/access-resolver.service.ts:36-59 | The loop finds the strongest role and the topmost granted ancestor for any grants in any order |
| Access.DecisionUnique | src/access/access-resolver.service.ts:42-57 | The decision depends only on the set of grants |
| Access.DecisionInherited | src/access/role.enum.ts:17-27 | On a longer ancestor list the boundary stays and the role is at least as strong, for grants with any roles |
| Access.Resolve | src/access/access-resolver.service.ts:15-62 | Decides by parent links: owner, topmost granted ancestor, or nothing |
| Access.OwnerIsRoomOwner | src/access/access-resolver.service.ts:22-24 | The decision is Owner exactly for the owner of the room of the live node |
| Access.SharesDecide | src/access/access-resolver.service.ts:26-61 | For anyone else: the first ancestor with an unrevoked, unexpired share for the user id or e-mail address, or with the token, is the boundary, with role Viewer; without one there is no access |
| Access.NodeChainMeaning | src/access/typeorm-access.repository.ts:77-148 | The ancestors are the room, then the folders that a walk up the parent links meets, then the file |
| Access.LowerIgnoresCase | src/access/typeorm-access.repository.ts:53-68 | Two e-mail addresses are the same exactly if they differ at most in the case of letters |
| Access.RoleOrder | src/access/role.enum.ts:17-27 | Owner stands above Viewer, and the stronger of two roles is Owner if one is |
| AccessLaws.AccessInherited | src/access/access-resolver.service.ts:36-61 | Whoever may open a node may open everything below it in the same role with the same boundary |
| AccessLaws.TokenOpensItsSubtree | src/access/typeorm-access.repository.ts:53-68 | A token alone opens exactly the nodes at or under the resource of its unrevoked, unexpired public link |
| AccessLaws.ShareOpensItsSubtree | src/access/typeorm-access.repository.ts:53-68 | For a non-owner without a token exactly the nodes at or under a resource shared with the user id or e-mail address are open |
| AccessLaws.MoveKeepsOtherDecisions | src/access/typeorm-access.repository.ts:96-148 | Moving a folder changes no decision outside its branch |
| AccessLaws.MoveDecidesBranch | src/access/typeorm-access.repository.ts:96-148 | Inside the branch the owner stays, and otherwise the topmost shared id decides on the chain of room, target's ancestors, target and the old chain from the moved folder on |
| AccessLaws.DeletedFolderIsClosed | src/folders/folders.service.ts:199-218 | Nobody, by account or by link, may open a deleted folder or anything under it; every other decision stays |
| AccessLaws.DeletedFileIsClosed | src/files/files.service.ts:184-197 | Nobody may open a deleted file; every other decision stays |
| AccessLaws.Revoke | src/shares/shares.service.ts:76-103 | Marks the one share revoked if the actor owns the room of its live resource; exact errors otherwise |
| AccessLaws.OnlyOwnersRevoke | src/shares/shares.service.ts:86-102 | A revocation is accepted from exactly the owner of the room of a live resource, and once |
| Outcomes.RevokeOutcome | src/shares/shares.service.ts:76-103 | 404 for a share that is revoked or not the actor's to see, 403 for anyone but the owner of the room; accepted, only the mark of the one share changes |
| AccessLaws.RevokeOnlyRemoves | src/shares/shares.service.ts:76-103 | After a revocation access remains exactly for those whom another share admits |
| AccessLaws.BreadcrumbsAreChainTail | src/folders/folders.service.ts:369-394 | Breadcrumbs are a contiguous end piece of the proper ancestors, starting exactly at the boundary; the liveness filter drops none |
| AccessLaws.NoBreadcrumbsAtBoundary | src/folders/folders.service.ts:375-382 | A boundary at the folder itself or at its room leaves them empty |
| AccessLaws.CallerMayOpenBreadcrumbs | src/folders/folders.service.ts:369-394 | The caller may open every folder shown, with the same decision |
| Shares.CollapseNested | src/shares/shares.service.ts:154-208 | The path-prefix filter keeps each shared resource once, with its first row and in the order of the rows, and exactly those that no other shared resource lies above |
| Shares.SharedWithMe | src/shares/shares.service.ts:122-152 | Lists exactly the roots of the actor's unexpired shares on live resources, newest share first, each with its kind and dated by the newest of the actor's shares on it |
| Shares.RootsLoseNothing | src/shares/shares.service.ts:173-196 | No root lies above another, and every shared resource lies at or under a root |
| Shares.ListAgreesWithCheck | src/shares/shares.service.ts:122-196 | For a non-owner without a token, access is granted exactly at or under a listed root; that root is unique and is the boundary |
| Histories.HistoriesKeepInv | src/folders/folders.service.ts:57-218 | Every state that any sequence of requests reaches satisfies the invariant |
| Histories.RoomIsActiveUntilDeleted | src/data-rooms/data-rooms.service.ts:16-25 | In every history the rooms that getActiveRoom accepts are those created and not deleted since |
| Histories.ReachableFolders | src/folders/folders.service.ts:57-218 | In every reachable state each live folder has the path of its links, a live parent and room, no cycle, depth at most 20 and a name no sibling has |
| Histories.ReachableFiles | src/files/files.service.ts:58-197 | In every reachable state each live file has a live place, a name no sibling has and a key no other row has |
| Histories.PathAnswersAreLinkAnswers | src/folders/path.service.ts:8-39 | In every reachable state the path tests answer as the parent links do, for every pair of live folders |
| Upload.UploadsLeaveNoPhantom | src/files/files.service.ts:67-111 | In every interleaving, deletes that read before another one stamps included, each live file row has its object in storage; compared sizes stay true if storage refuses a second PUT |
| Upload.KeyUsedOnce | src/database/migrations/1786809554648-InitialSchema.ts:106-108 | A key that ever had a row belongs to that row for ever |
| Upload.OverwriteBreaksSizes | src/files/files.service.ts:73-81 | An execution in which an overwriting PUT makes a compared size wrong |
| Upload.UploadCompletes | src/files/files.service.ts:41-114 | From any state the four steps of an undisturbed handshake are all enabled, and together they add one live row, its object and the used key and change nothing else |
| Upload.DeleteCompletes | src/files/files.service.ts:184-197 | From any state the three steps of an undisturbed delete are all enabled, and together they stamp the row, remove its object and change nothing else |
| Upload.DoubleDelete | src/files/files.service.ts:184-197 | When two deletes both read the row before either stamps it, all six steps are enabled and the end state is that of one delete |
| Upload.DeletesAreOne | src/files/files.service.ts:184-197 | However many deletes of one file run, in whatever interleaving, the state after all are through is that of one delete |
| Upload.RequestsTakeFileSteps | src/files/files.service.ts:83-197 | Whatever any request does to the file rows is one step of the handshake protocol |
| Upload.ConfirmInserts | src/files/files.service.ts:67-111 | A confirm that the service accepts on a true report is an enabled head check followed by an enabled insert of its own key and size, and these two leave the service's file rows |
| Upload.RequestsRun | src/files/files.service.ts:58-197 | Every request the service serves is a run of enabled handshake steps that leaves the service's file rows and touches no object; the delete of a live file leaves its key to be removed |
| Service.Handle | src/folders/folders.service.ts:57-218 | Served by the service methods, a request leaves the tables of the history step, and the invariant |
| Service.LiveFilesHaveObjects | src/files/files.service.ts:58-197 | At every moment of every run of requests, PUTs and removals each live file row has its object, and compared sizes stay true if storage refuses a second PUT |
| Service.RequestsAreServed | src/files/files.service.ts:58-197 | In a sound state with a true report every request can be served by enabled steps, so the run above excludes none |

## Left out

- Controllers, decorators, guards, DTO validation, documentation, exception filter, modules, health and configuration: framework plumbing; their success is a precondition (confirm sees a live room, a page limit is at least 1).
- Authentication, passwords, Google sign-in and users: foreign libraries.
- The storage client: storage is a map from key to size, issued keys are fresh.
- The encoding of cursors: a cursor is a pair of name and id.
- Database collation: names and ids are ordered by arbitrary strict total orders.
- Races between folder transactions: the code takes no locks, so those requests are serial steps; confirm is one step there and two steps only in `Upload`.
- JavaScript number rounding of large sizes and suffixes: integers are unbounded.
- Timestamps other than live or deleted, revoked, the creation of a share and its expiry against now; room names, owner names, MIME types and the mapping to response objects.
- Creating and listing shares: `Histories` has one step that adds a share on a live resource; the one-link-per-resource index and the lookup by token are not modelled.
- Room rename and listing: they touch no path.
- Access.Lower: lower-cases ASCII letters only, where JavaScript and PostgreSQL also map other letters.
- Paging.SelectOrdered: stands for the ordering and limiting that the database performs; it is not a part of the repository.
- FoldersService.RewriteSubtreePaths: promises nothing for an old path that holds a LIKE character; no stored path of a live folder does (Graft.PathIsPlain).
- Upload.Next: an insert step leaves the chosen name and the folder check open, so the protocol covers every choice of them.
