# PI planner: verified model

A Dafny model of the parts of the PI planner whose correctness is not obvious from reading them: two greedy
schedulers, the edit lock and the bulk tool that brackets it, the planning board with its feature continuations,
the OAuth grant lifecycle with its token store, the key caches and rate limiters in front of it, holiday calendars,
dated working patterns, and project export and import.

`dafny verify dfyconfig.toml` checks the whole project.

| module | what it models |
|---|---|
| `Shard`, `ShardLimit` | dealing end-to-end specs longest first onto the lightest shard, and how bad that can be |
| `SprintPlan` | packing stories largest first into the first sprint with room |
| `EditLock`, `BulkTools` | the single-writer lease as runs of requests, and the bulk tool that holds it |
| `BoardState`, `BoardService` | the board's tables, what each request makes of them, and the requests row by row |
| `BoardRequests` | each board request from the stored rows: when it is refused, and what every row is afterwards |
| `Lineage`, `BoardInvariants`, `BoardLimits`, `BoardRoundTrips` | continuation forests, what every run keeps, which requests do not keep it and exactly when, and which requests undo which |
| `Digests`, `TokenStore` | the lazily pruned store and its file, against a map that is never pruned |
| `OAuthProvider` | consent, code exchange, refresh rotation, key re-check, revocation and registration, over any run |
| `OAuthRequests` | each of those requests from the stored grants: who is answered, with which scopes, and what is left |
| `SlidingWindow`, `RegistrationLimit`, `KeyCache` | the registration limiter, the failure limiter and the one-minute key caches |
| `RevokedKeys` | the provider and the caches together: what becomes of a revoked key |
| `Holidays`, `HolidayCleanup`, `HolidayWindow`, `CopyYear`, `SprintHolidays` | half-days, redundant absences, window replacement, copying a year, sprint headers |
| `WorkingPatterns` | versions with a start date each, and the one in force on a day |
| `ProjectImport`, `ImportedBoard` | rebuilding an exported project under fresh ids, and what that makes of the board |
| `ImportRequests` | the same said of each object where it stands in the payload, kind by kind |
| `ProjectExport` | writing a project out, and what an import makes of an export |
| `Wrappers`, `Sums`, `Sorting` | shared helpers |

Classes follow the objects the program updates in place; each of their methods is proved against a function, or
against ghost state that is never pruned, and the lemmas are about that function or state.

## Conventions

- Each request is one atomic step. Clocks are parameters and do not run backwards; random tokens and ids are
  parameters that have not been used before. SHA-256 is a free constructor, so distinct secrets have distinct hashes.
- Efforts, timings and times are `real`: rounding is not modelled. A day is an integer counted from a Monday.
- The backend's view of an API key is a parameter of each request in `OAuthProvider`, and an arbitrary function of
  key and time in `KeyCache`; `RevokedKeys` joins the two. A question to the backend takes no time here: the program
  starts the cached minute when the reply arrives, so there an answer can be a minute and one round trip old.
- Requests that fail leave the tables as they were; a unique index that a commit would violate is the error `Integrity`.

## What turned out not to hold

Each of these is stated with its exact condition, most with a concrete failing input besides.

- A restart does not always give back the store: one access token saved without an expiry makes start-up forget every
  grant and client (`TokenStore.NullExpiryForgetsAll`, `TokenStore.RestartKeepsAnswersWhen`). The same input leaves the
  raw secrets of an old-format file on disk, where the comment at mcp_server/oauth_provider.py:289 says they are
  replaced at once (`TokenStore.Store.Load`). Such an entry comes only through the store's own API or a foreign file:
  the provider saves every token with an expiry, so a provider started on a file that can be read back never writes
  one that cannot, and its restarts lose nothing (`OAuthProvider.Provider.Answers`, `OAuthProvider.StartAgain`).
- Creating a group can strand a placed story's own group, after which the story cannot be placed again
  (`BoardLimits.CreateGroupTidyWhen`, `BoardLimits.TakenStoryCannotBePlaced`, `BoardLimits.StrandedIsReachable`).
- Clearing the backlog can leave a continuation whose origin is gone (`BoardLimits.ClearBacklogKeepsWhen`,
  `BoardLimits.SeveredIsReachable`), a story update can put a story in another feature's group
  (`BoardLimits.ChangeGroupKeepsWhen`, `BoardLimits.MisplacedIsReachable`), and a feature update can put a feature in a
  PI without a swimlane (`BoardLimits.WriteLocationKeepsWhen`, `BoardLimits.LiftedCannotPlace`).
- A move can leave a feature planned in another PI than its swimlane's (`BoardLimits.MoveHomesWhen`).
- A released lock is taken again by its last owner's next keepalive (`EditLock.KeepaliveUndoesRelease`,
  `EditLock.FreeProjectIsTaken`).
- Replacing a holiday window fails half way when a holiday was entered twice and a member works both
  (`HolidayWindow.TwiceEnteredFails`, `HolidayWindow.InsertCarried`, `HolidayWindow.DistinctKeysNeverClash`).
- The copy-year preview fails for the whole year when one entry runs from the afternoon of 28 February to the next
  morning in a leap year, or ends in 9999 (`CopyYear.ProposalExistsWhen`, `CopyYear.LeapNightFails`).
- Cleanup candidates are grouped by their words as well as their dates, where the comment at
  backend/app/routes/team_holidays.py:219 says the words decide nothing (`HolidayCleanup.CleanupCandidates`).
- An import accepts any known id as a story's or group's feature, not only a feature's
  (`ProjectImport.ProjectAsParentIsAccepted`, `ProjectImport.FeatureIsFeatureWhen`). An object of the payload may even
  carry the project's own id; references to that id then lead to the object, while the new rows still belong to the
  new project (`ProjectImport.ImportIsIsomorphic`).
- An import accepts payloads that leave the board broken: continuations in a cycle, a group whose feature is in another
  swimlane, a story in another feature's group (`ImportedBoard.ImportKeepsBoardWhen`, `ImportedBoard.CycleIsAccepted`).
  No export of a project from a whole board is one of them (`ProjectExport.ExportedBoardComesBackWhole`).

## Model

| member | source | states |
|---|---|---|
| `Shard.LightestIsFirstLeast` | scripts/e2e-shard.py:30 | the chosen shard is the first of the least loaded |
| `Shard.WeightIs` | scripts/e2e-shard.py:23-25 | a spec weighs its recorded seconds if it has any, otherwise the average of those recorded, or one second if none is |
| `Shard.DealInto` | scripts/e2e-shard.py:27-32 | the loop over both arrays deals exactly as the greedy rule, and each load stays the weight of its bucket |
| `Shard.Shard` | scripts/e2e-shard.py:21-33 | a shard prints, by name, what that deal of the specs listed puts on it |
| `Shard.SplitIsDealt` | scripts/e2e-shard.py:22-32 | the split is the specs listed, longest first and by name among equals, each put on the first of the shards that are least loaded at that moment |
| `Shard.SplitIsPartition` | scripts/e2e-shard.py:27-33 | every spec is in exactly one shard |
| `Shard.GrahamBound` | scripts/e2e-shard.py:29-32 | the heaviest shard weighs at most 4/3 - 1/(3m) times the heaviest shard of any other assignment of the same specs |
| `ShardLimit.BoundIsReached` | scripts/e2e-shard.py:21-33 | for every number of shards there are timings for which the greedy split weighs exactly that ratio times another split of the same specs, so the ratio cannot be improved |
| `SprintPlan.ProposeSprintPlan` | mcp_server/tools/workflows.py:223-285 | of the outputs themselves: first-fit by falling effort, over exactly the stories that ask to be planned, each assigned or reported |
| `SprintPlan.PackStories` | mcp_server/tools/workflows.py:242-269 | one story at a time into the first sprint with room, remaining room tracked in the map |
| `SprintPlan.FirstRoomIsFirst` | mcp_server/tools/workflows.py:251-262 | the sprint found is the first with room, and none is found only when none has room |
| `SprintPlan.CandidatesAre` | mcp_server/tools/workflows.py:235-239 | the candidates are exactly the stories of features of the PI asked about that ask to be planned, as often as they are listed |
| `SprintPlan.ProposalIsFirstFit` | mcp_server/tools/workflows.py:223-269 | what is handed out are stories of the PI asked about, the largest first, each in the sprint of the lowest index that has room for it after the ones before it |
| `SprintPlan.EveryStoryAnswered` | mcp_server/tools/workflows.py:235-269 | each story of the PI that asks to be planned is assigned or reported with its effort, and nothing else is |
| `SprintPlan.UnassignedHaveNoRoom` | mcp_server/tools/workflows.py:264-269 | a story left out asked to be planned, and what the plan leaves of any sprint is too little for it |
| `SprintPlan.SummaryIs` | mcp_server/tools/workflows.py:270-285 | each sprint is reported with its capacity, what was assigned to it and what that leaves |
| `SprintPlan.ProposalIsGreedy` | mcp_server/tools/workflows.py:235-279 | candidates are split exactly into assigned and unassigned, no sprint is overfilled, and every unassigned story is larger than what any sprint has left |
| `SprintPlan.ProposalIsHalfOptimal` | mcp_server/tools/workflows.py:235-269 | the proposal plans at least half the effort of any feasible assignment of the same stories to the same sprints |
| `SprintPlan.HalfIsTight` | mcp_server/tools/workflows.py:248-269 | no better constant holds: three stories and one sprint come arbitrarily close to half |
| `EditLock.LockTable.AcquireLock` | backend/app/routes/edit_lock.py:49-83 | acquire is refused only while another user holds an unexpired lock; otherwise the row is the caller's until the timeout |
| `EditLock.LockTable.KeepaliveLock` | backend/app/routes/edit_lock.py:99-112 | keepalive is the row owner's only, expired or not, and moves the expiry |
| `EditLock.LockTable.ReleaseLock` | backend/app/routes/edit_lock.py:86-96 | release by the owner expires the row now; by anyone else it does nothing |
| `EditLock.LockTable.RequireEditLock` | backend/app/middleware/deps.py:165-237 | for each of the seven parameters, the first that is given decides: its row, through group, swimlane, sprint and PI to a project, and an editor is refused exactly while that project's lock is unexpired and another's; a missing row lets the request through |
| `EditLock.LeaseExcludes` | backend/app/routes/edit_lock.py:58-64 | from an accepted acquire or keepalive until the timeout, with no release of its own, every accepted acquire, keepalive or guarded write is that user's, and the user's writes are accepted |
| `EditLock.OwnerChangesByAcquire` | backend/app/routes/edit_lock.py:66-78 | in every run ownership changes only by an acquire that found the old owner's lock no longer live |
| `EditLock.LeaseEnds` | backend/app/routes/edit_lock.py:66-109 | a renewed lock stops being held only by its user's release or after the whole timeout |
| `EditLock.KeepaliveIsLastOwners` | backend/app/routes/edit_lock.py:105-109 | a keepalive is heard exactly from the user of the last accepted acquire, so never from an earlier holder |
| `EditLock.FreeProjectIsTaken` | backend/app/routes/edit_lock.py:55-109 | a free project becomes held exactly by an editor's acquire or by its last owner's keepalive |
| `EditLock.KeepaliveUndoesRelease` | backend/app/routes/edit_lock.py:92-109 | a late keepalive by the same user takes a released lock again |
| `EditLock.StaysFree` | backend/app/routes/edit_lock.py:92-109 | without an acquire or a keepalive of the last owner a free project stays free |
| `BulkTools.ApplySprintPlan` | mcp_server/tools/workflows.py:308-323 | nothing is attempted without the lock; stories are tried in order up to the first LOCKED or unexpected failure; the lock is released once, last |
| `BulkTools.PlacedIs` | mcp_server/tools/workflows.py:308-323 | the number answered is that of the stories placed |
| `BulkTools.ErrorsAre` | mcp_server/tools/workflows.py:308-323 | the errors answered are exactly the refusals, each with its code beside its story |
| `BulkTools.RaisedIs` | mcp_server/tools/workflows.py:308-323 | what ends a batch reaches the caller as it is: a refusal by the backend under its code, any other failure as another error |
| `BulkTools.EveryStoryReported` | mcp_server/tools/workflows.py:308-323 | a batch that runs to its end accounts for every story, placed or with its error |
| `BulkTools.BracketNeverLosesLock` | mcp_server/lock.py:19-31 | a bracket finished within the timeout never meets a lost lock, nobody else writes inside it, and it leaves the project free |
| `BoardService.DetachFromGroup` | backend/app/services/pbi_delete.py:47-74 | a story leaves its group, and the group goes exactly when it was implicit and is now empty |
| `BoardService.Rehome` | backend/app/routes/features.py:274-282 | detaching the stories one after another drops exactly the implicit groups they all leave empty, whatever the order |
| `BoardService.Board.MoveToSwimlane` | backend/app/routes/features.py:79-95 | the loop over groups commits the move, into the PI named, none if null is named, or the swimlane's own, and leaves the tables alone on an unknown row or a name clash |
| `BoardService.Board.ReturnToBacklog` | backend/app/routes/features.py:98-109 | groups are deleted one by one after their stories lose them |
| `BoardService.Board.SplitFeature` | backend/app/routes/features.py:212-297 | every guard in order, the whole-feature case a move, otherwise a continuation with the selected stories |
| `BoardService.Board.Cancel` | backend/app/routes/features.py:300-345 | every guard in order, then stories to the origin and the feature with its groups gone |
| `BoardService.Board.Delete` | backend/app/services/feature_delete.py:74-110 | the deletion walks the lineage and removes it with its stories and groups |
| `BoardService.Board.Place` | backend/app/routes/pbis.py:240-290 | guards in order, then an implicit group for the story, unless the index refuses it |
| `BoardService.Board.Unplace` | backend/app/routes/pbis.py:298-322 | the story is ungrouped and an implicit group deleted |
| `BoardService.Board.MakeGroup` | backend/app/routes/groups.py:67-109 | validation loop over the listed stories, insert, then the assignment loop |
| `BoardService.Board.RemoveGroup` | backend/app/routes/groups.py:171-190 | the loop ungroups every member before the group goes |
| `BoardService.Board.RemoveLane` | backend/app/routes/swimlines.py:144-165 | the loop returns features to the backlog and the groups cascade |
| `BoardService.Board.RemovePi` | backend/app/routes/pis.py:255-279 | the PI goes with its swimlanes as they would, and whatever else named it names none |
| `BoardService.Board.UpdateStoryGroup` | backend/app/routes/pbis.py:194-206 | the group is written unchecked, and an implicit group this empties goes |
| `BoardService.Board.UpdateLocation` | backend/app/routes/features.py:112-118 | location, PI and swimlane are written as they stand |
| `BoardService.Board.EmptyBacklog` | backend/app/routes/features.py:375-380 | the two bulk deletes remove exactly the backlog's features and their stories |
| `BoardRequests.MoveRefusedWhen` | backend/app/routes/features.py:79-95 | a move is refused exactly for a feature or swimlane that is not there, or when a group coming along meets one of its name |
| `BoardRequests.MovedIs` | backend/app/routes/features.py:79-95 | where the feature is afterwards, its PI, and that its groups and nothing else come along |
| `BoardRequests.SplitRefusedWhen` | backend/app/routes/features.py:212-245 | which refusal a split meets, each exactly when |
| `BoardRequests.SplitOfAllMoves` | backend/app/routes/features.py:246-252 | with every story selected the feature itself moves to the target |
| `BoardRequests.SplitMakes` | backend/app/routes/features.py:254-286 | the continuation's origin, PI and swimlane, where the selected stories are and every other row as it was |
| `BoardRequests.CancelRefusedWhen` | backend/app/routes/features.py:300-324 | a cancellation is refused exactly for a feature that is not there, continues nothing, is continued itself, or whose origin is gone |
| `BoardRequests.CancelledIs` | backend/app/routes/features.py:325-345 | the stories are with the origin in its PI and swimlane and ungrouped, the feature and its groups are gone, every other row is as it was |
| `BoardRequests.PlaceRefusedWhen` | backend/app/routes/pbis.py:240-290 | which refusal a placement meets, in order; the index refuses exactly a story that has an implicit group already |
| `BoardRequests.PlacedIs` | backend/app/routes/pbis.py:263-290 | the story is in a new implicit group of its feature, in the feature's swimlane and in the sprint asked for |
| `BoardRequests.UnplacedIs` | backend/app/routes/pbis.py:298-322 | the story loses group and swimlane; an implicit group goes and takes out every story in it |
| `BoardRequests.DeletedStoryIs` | backend/app/services/pbi_delete.py:47-74 | a deleted story takes its group along exactly when nothing else was in it |
| `BoardRequests.ChangedGroupIs` | backend/app/routes/pbis.py:194-206 | the story is in the group written, and an implicit group this leaves empty goes |
| `BoardRequests.WrittenLocationIs` | backend/app/routes/features.py:112-118 | which of PI and swimlane a location update writes, and what |
| `BoardRequests.GroupRefusedWhen` | backend/app/routes/groups.py:67-104 | which refusal a new group meets, in order |
| `BoardRequests.NewGroupIs` | backend/app/routes/groups.py:90-109 | the new group is explicit and holds every story listed |
| `BoardRequests.UpdateRefusedWhen` | backend/app/routes/groups.py:132-161 | a group update is refused exactly for a group that is not there, or one that ends up explicit under another's name |
| `BoardRequests.UpdatedGroupIs` | backend/app/routes/groups.py:132-165 | a rename makes an implicit group explicit and of no story; a sprint alone does not |
| `BoardRequests.DeletedPiIs` | backend/app/routes/pis.py:255-279 | a PI's swimlanes and their groups go with it, and exactly their features go to the backlog |
| `BoardRequests.DeletedPiKeepsStories` | backend/app/routes/pis.py:255-279 | every story stays, out of a group that went, and names neither the PI nor a swimlane of it |
| `BoardRequests.DeletedLaneIs` | backend/app/routes/swimlines.py:144-165 | a swimlane's groups go with it, its features go to the backlog, and no story names it any more |
| `BoardRequests.MissingIsNotFound` | backend/app/routes/pbis.py:45-50 | a deletion or an unchecked update is refused exactly for a row that is not there |
| `Lineage.DescendantIds` | backend/app/services/continuation.py:26-46 | the breadth-first walk finds exactly the features that continue a root transitively, and ends even on a cycle |
| `Lineage.SomeLeafExists` | backend/app/routes/features.py:313-320 | while any continuation exists one of them is continued by nothing |
| `Lineage.EveryFeatureHasRoot` | backend/app/services/continuation.py:59-65 | climbing the links from any feature of a forest ends at one that continues nothing |
| `BoardInvariants.StepKeepsValid` | backend/app/routes/features.py:79-345 | each of the seventeen requests that create, move, split, cancel, place, group or delete keeps groups in their feature's swimlane, grouped stories with their group's feature, features located, links a forest, swimlanes in a PI and the unique indexes |
| `BoardInvariants.EveryRunIsValid` | backend/app/routes/pbis.py:248-315 | every board reachable by any sequence of those requests satisfies that invariant |
| `BoardInvariants.SplitKeeps` | backend/app/routes/features.py:234-286 | splitting keeps the invariant, in both its cases |
| `BoardInvariants.CancelKeeps` | backend/app/routes/features.py:306-345 | cancelling a continuation keeps the invariant |
| `BoardInvariants.DeleteFeatureKeeps` | backend/app/services/feature_delete.py:45-110 | deleting a feature leaves no link to a deleted feature and no story in a deleted group |
| `BoardInvariants.PlaceKeeps` | backend/app/routes/pbis.py:248-290 | placing a story keeps the invariant |
| `BoardInvariants.WithoutLanesKeeps` | backend/app/routes/swimlines.py:153-163 | deleting swimlanes, any number of them, keeps the invariant |
| `BoardInvariants.DeletePiKeeps` | backend/app/routes/pis.py:262-279 | deleting a PI keeps the invariant, no swimlane of it being left |
| `BoardInvariants.SplitDivides` | backend/app/routes/features.py:234-286 | a split divides the stories in two disjoint nonempty sets with the story set and the total effort preserved, and touches no other feature's stories |
| `BoardInvariants.CancelUndoesSplit` | backend/app/routes/features.py:325-345 | cancelling the continuation a split made gives back the feature set and every story's parent and effort; unselected stories are unchanged altogether |
| `BoardInvariants.CancelKeepsRoots` | backend/app/routes/features.py:325-345 | cancelling a leaf leaves every feature and every story, effort unchanged, under the root of its lineage |
| `BoardInvariants.SomeLeafCancels` | backend/app/routes/features.py:306-324 | while a continuation exists some leaf can be cancelled |
| `BoardInvariants.AnyOrderKeepsRoots` | backend/app/routes/features.py:306-345 | in whatever order leaves are cancelled, every story stays under its root with its effort |
| `BoardInvariants.AnyOrderCounts` | backend/app/routes/features.py:306-345 | each cancellation of any such sequence takes one continuation away and no other feature |
| `BoardInvariants.AnyOrderEndsAtRoots` | backend/app/routes/features.py:306-345 | cancelling in any order until nothing can be cancelled takes as many steps as there were continuations and leaves every story under its root feature |
| `BoardInvariants.UnwindEverything` | backend/app/routes/features.py:306-324 | such a sequence of cancellations exists from every board |
| `BoardLimits.CreateGroupTidyWhen` | backend/app/routes/groups.py:90-109 | a new group leaves every implicit group with its own story exactly when it lists no story from one |
| `BoardLimits.EveryRunIsTidy` | backend/app/routes/pbis.py:263-290 | in runs that list no placed story, every implicit group holds its story and no other |
| `BoardLimits.UngroupedIsPlaceable` | backend/app/routes/pbis.py:248-290 | then every ungrouped story of a feature in a swimlane can be placed |
| `BoardLimits.TakenStoryCannotBePlaced` | backend/app/models/group.py:53-65 | a placed story taken into a group and unplaced again cannot be placed any more |
| `BoardLimits.StrandedIsReachable` | backend/app/routes/groups.py:67-109 | seven requests leave a story that, unplaced, cannot be placed again |
| `BoardLimits.ClearBacklogKeepsWhen` | backend/app/routes/features.py:360-380 | clearing the backlog keeps the board whole exactly when no feature in a PI continues a backlog feature |
| `BoardLimits.SeveredCannotBeCancelled` | backend/app/routes/features.py:306-323 | a continuation left behind by it can never be cancelled |
| `BoardLimits.SeveredIsReachable` | backend/app/routes/features.py:360-380 | eight requests and a cleared backlog leave such a continuation |
| `BoardLimits.ChangeGroupKeepsWhen` | backend/app/routes/pbis.py:194-206 | a direct group change keeps the board whole exactly when the group is none or one of the story's own feature |
| `BoardLimits.MisplacedIsReachable` | backend/app/routes/pbis.py:194-206 | eight requests and such a change put a story in another feature's group |
| `BoardLimits.WriteLocationKeepsWhen` | backend/app/routes/features.py:112-118 | a raw location update keeps the board whole exactly when it neither puts a backlog feature in a PI nor clears the swimlane of one that is |
| `BoardLimits.LiftedCannotPlace` | backend/app/routes/pbis.py:260-264 | no story of a feature put in a PI like that can be placed |
| `BoardLimits.MoveHomesWhen` | backend/app/routes/features.py:93-95 | a move leaves every feature in its swimlane's PI exactly when it names no other |
| `BoardLimits.EveryRunIsHomed` | backend/app/routes/features.py:93-95 | in runs whose moves name no other PI, every feature's PI is its swimlane's |
| `BoardRoundTrips.UnplaceUndoesPlace` | backend/app/routes/pbis.py:298-315 | unplacing a story just placed gives the board back, but for the story's swimlane |
| `BoardRoundTrips.MovingBackRestores` | backend/app/routes/features.py:86-95 | moving a feature to another swimlane and back restores the board, sprint assignments included |
| `BoardRoundTrips.DeleteGroupUndoesCreate` | backend/app/routes/groups.py:182-189 | deleting a group made from ungrouped stories restores the board |
| `BoardRoundTrips.DeletedLaneKeepsStories` | backend/app/routes/swimlines.py:153-163 | no story is lost with a swimlane, and one is ungrouped exactly when its feature was in it |
| `BoardRoundTrips.DeletionTakesLineage` | backend/app/services/feature_delete.py:45-110 | a deletion takes exactly the features descending from the one deleted, with their stories and groups |
| `TokenStore.MigrateSection` | mcp_server/oauth_provider.py:248-254 | the loop re-keys a section by hash and strips the secrets |
| `TokenStore.MigrationKeepsEntries` | mcp_server/oauth_provider.py:248-254 | a migrated section stands for the same map from raw token to entry |
| `TokenStore.AgreesLater` | mcp_server/oauth_provider.py:338-387 | what answers as the never-pruned map does now does so ever after |
| `TokenStore.PruningAgrees` | mcp_server/oauth_provider.py:343-346 | dropping expired entries changes no answer |
| `TokenStore.RestartKeepsAnswersWhen` | mcp_server/oauth_provider.py:256-295 | a restart answers every lookup as before exactly when no stored expiry is null, or nothing was live |
| `TokenStore.NullExpiryForgetsAll` | mcp_server/oauth_provider.py:280-295 | one access token stored without an expiry makes the next start forget everything; the provider stores none |
| `TokenStore.LoadedIsReadBack` | mcp_server/oauth_provider.py:256-295 | from the fields of the file in each of its three formats: each section is read back as itself, codes as codes and refresh tokens as refresh tokens, and the clients too, unless an expiry is null |
| `TokenStore.Store.Load` | mcp_server/oauth_provider.py:256-295 | start-up reads any format into the sections it spells out; old ones are rewritten hashed, each section under its own name, unless an expiry cannot be compared |
| `TokenStore.Store.constructor` | mcp_server/oauth_provider.py:239-246 | a store stands for what its file spells out, section by section, or for nothing when an expiry cannot be compared |
| `TokenStore.Store.Reopened` | mcp_server/oauth_provider.py:256-295 | a store opened on the file another wrote stands for what that one stood for, if the file can be read back |
| `TokenStore.Store.SaveToken` | mcp_server/oauth_provider.py:328-336 | saving updates the never-pruned map and the file |
| `TokenStore.Store.GetToken` | mcp_server/oauth_provider.py:338-352 | the answer is the never-pruned map's, filtered by expiry |
| `TokenStore.Store.DeleteToken` | mcp_server/oauth_provider.py:354-359 | exactly this token is forgotten, written only if it was in memory |
| `TokenStore.Store.SaveRefreshToken` | mcp_server/oauth_provider.py:363-371 | the same for refresh tokens |
| `TokenStore.Store.GetRefreshToken` | mcp_server/oauth_provider.py:373-387 | the same, a refresh token without an expiry never expiring |
| `TokenStore.Store.GetRefreshTokenClaims` | mcp_server/oauth_provider.py:389-391 | the claims of a live refresh token are those it was saved with |
| `TokenStore.Store.DeleteRefreshToken` | mcp_server/oauth_provider.py:393-398 | exactly this refresh token is forgotten |
| `TokenStore.Store.DeleteGrantsForKey` | mcp_server/oauth_provider.py:400-423 | exactly the entries of this key go from all three sections, and the count is right |
| `TokenStore.Store.SaveAuthCode` | mcp_server/oauth_provider.py:427-434 | the same for codes |
| `TokenStore.Store.GetAuthCode` | mcp_server/oauth_provider.py:436-459 | the same, an unreadable code counting as missing |
| `TokenStore.Store.DeleteAuthCode` | mcp_server/oauth_provider.py:461-466 | exactly this code is forgotten |
| `TokenStore.Store.SaveClient` | mcp_server/oauth_provider.py:470-473 | a registration is added or replaced |
| `TokenStore.Store.PruneUnusedClients` | mcp_server/oauth_provider.py:478-492 | exactly the old registrations nothing stored was issued to go; none holds a live credential |
| `OAuthProvider.Provider.StartAuthorization` | mcp_server/oauth_provider.py:732-750 | expired consent sessions are dropped and one is opened |
| `OAuthProvider.Provider.GiveConsent` | mcp_server/oauth_provider.py:1039-1145 | every refusal in order; a good key yields one code and closes the session, and a file that can be read back stays so |
| `OAuthProvider.Provider.RedeemCode` | mcp_server/oauth_provider.py:763-818 | one step of the machine: the code goes, the pair is saved; what the pair is, is said by `OAuthRequests.CodePairIs` and `OAuthRequests.CodeScopesAre` |
| `OAuthProvider.Provider.RotateRefreshToken` | mcp_server/oauth_provider.py:825-905 | one step of the machine: age check, key re-check and rotation; its outcomes are `OAuthRequests.RefreshedWhen`, `OAuthRequests.RotatedPairIs` and `OAuthRequests.RefreshScopesAre` |
| `OAuthProvider.Provider.RecheckKey` | mcp_server/oauth_provider.py:918-937 | a revoked or reader key loses every grant; an unreachable backend changes nothing |
| `OAuthProvider.Provider.LoadAccessToken` | mcp_server/oauth_provider.py:907-916 | a live token is accepted unless its key is finished |
| `OAuthProvider.Provider.RevokeToken` | mcp_server/oauth_provider.py:939-945 | exactly the presented token is forgotten |
| `OAuthProvider.Provider.RegisterClient` | mcp_server/oauth_provider.py:661-676 | below the cap the client is added and nobody else is touched; at the cap exactly the registrations over a day old that nothing stored was issued to are evicted, and the client is accepted exactly when that makes room |
| `OAuthProvider.EveryRunKeeps` | mcp_server/oauth_provider.py:763-905 | every run, restarts included, keeps one credential per consent, agreeing stamps and bounded access tokens |
| `OAuthProvider.FileBegins` | mcp_server/oauth_provider.py:256-295 | whatever file a provider starts on, runs can begin there: each stored code and refresh token a consent of its own, and grants without a stamp not begun |
| `OAuthProvider.RunExtends` | mcp_server/oauth_provider.py:725-945 | a run with one more request is one step from where the run has come to |
| `OAuthProvider.Start` | mcp_server/oauth_provider.py:548-567 | a provider just started satisfies the invariant, with a history its file can have |
| `OAuthProvider.StartAgain` | mcp_server/oauth_provider.py:548-567 | a provider restarted on its file is one more step of the same run, keeping every grant if the file can be read back |
| `OAuthProvider.RedeemedOnePerConsent` | mcp_server/oauth_provider.py:766-805 | redeeming leaves each consent with at most one stored code or refresh token |
| `OAuthProvider.RedeemedStamps` | mcp_server/oauth_provider.py:800-805 | every refresh token of a consent carries the beginning of its grant |
| `OAuthProvider.RedeemedAccess` | mcp_server/oauth_provider.py:773-781 | no access token outlives the grant's maximum age plus one token lifetime |
| `OAuthProvider.RunKeepsTerms` | mcp_server/oauth_provider.py:766-892 | once every code and token of a consent is within given terms (a client, a key, a ceiling of scopes), every later one is, over any run |
| `OAuthProvider.ConsentFixesTerms` | mcp_server/oauth_provider.py:766-892 | whatever happens after an approval, every code or token descended from it, through any number of refreshes, is for the client that asked and the key typed in, and has no scope but "editor", and "admin" if the key's user was an admin |
| `OAuthProvider.GrantAgeIsBounded` | mcp_server/oauth_provider.py:842-848 | no refresh of a grant succeeds more than the maximum age after it began, and its access tokens die within one lifetime of that, over any run |
| `OAuthProvider.GrantBegins` | mcp_server/oauth_provider.py:800-861 | a grant begins with its code exchange, or, without a stamp, with its first refresh |
| `OAuthProvider.RunRemembers` | mcp_server/oauth_provider.py:842-861 | the beginning of a grant never changes once set |
| `OAuthProvider.CredentialsExpire` | mcp_server/oauth_provider.py:773-892 | over any run a code works five minutes at most, an access token one lifetime, a refresh token one refresh lifetime |
| `OAuthProvider.RedeemedAtMostOnce` | mcp_server/oauth_provider.py:766-872 | a code is exchanged at most once and a refresh token rotated at most once, whatever happens in between, restarts included; section 4.1.2 of RFC 6749 for the code |
| `OAuthProvider.FinishedKeyLosesAll` | mcp_server/oauth_provider.py:918-937 | a re-check that fails leaves nothing of that key and everything of every other key as it was |
| `OAuthProvider.FinishedKeyStaysGone` | mcp_server/oauth_provider.py:400-423 | nothing of that key reappears in any run until someone consents with it |
| `OAuthProvider.AllowedIsExactly` | mcp_server/oauth_provider.py:855-860 | the scopes kept are exactly those asked for that the role allows |
| `OAuthProvider.RefreshedScopesFollowRole` | mcp_server/oauth_provider.py:855-860 | a refresh the backend answered grants "editor", and "admin" only to an admin of now, and nothing else |
| `OAuthRequests.AuthorizeOpens` | mcp_server/oauth_provider.py:725-750 | a consent session lasts five minutes, and opening one drops exactly those that have run out |
| `OAuthRequests.ConsentGivenWhen` | mcp_server/oauth_provider.py:1039-1105 | a code is issued exactly to a complete form of an open session, in time, from an address not limited, for a key whose user is no reader |
| `OAuthRequests.ConsentIssues` | mcp_server/oauth_provider.py:1105-1145 | the code's client, key, user, role, scopes and five minutes; the session goes with a code or a reader's key and with nothing else |
| `OAuthRequests.CodeRedeemedWhen` | mcp_server/oauth_provider.py:752-766 | a code is redeemed exactly in time by the client it was issued to; anyone else is refused and nothing changes |
| `OAuthRequests.CodeScopesAre` | mcp_server/oauth_provider.py:66-68 | what is granted for a code is "editor", "admin" exactly when the key's user is an admin, and nothing else |
| `OAuthRequests.CodePairIs` | mcp_server/oauth_provider.py:763-818 | the code is gone and the pair is for its client, key, user and role, each with its lifetime from now; nothing else changes |
| `OAuthRequests.RefreshedWhen` | mcp_server/oauth_provider.py:820-850 | a refresh succeeds exactly for a live token of this client that was granted all the scopes asked for, of a grant not too old, whose key is not known to be finished |
| `OAuthRequests.RefusedRefreshCosts` | mcp_server/oauth_provider.py:842-853 | a refused refresh costs a grant too old its token, a finished key everything of its own, and otherwise nothing |
| `OAuthRequests.RefreshScopesAre` | mcp_server/oauth_provider.py:855-860 | "admin" is granted only while the key's user is an admin or the backend cannot say; "editor" is left when nothing else would be |
| `OAuthRequests.RotatedPairIs` | mcp_server/oauth_provider.py:861-905 | user and role are the backend's of now, the beginning of the grant and its original scopes stay, the token presented is gone and nothing else changes |
| `OAuthRequests.BearerAcceptedWhen` | mcp_server/oauth_provider.py:907-916 | a bearer token is accepted as stored exactly until it runs out, unless its key is known to be finished |
| `OAuthRequests.RevocationTakesOne` | mcp_server/oauth_provider.py:939-945 | a revocation takes the token presented and nothing else |
| `OAuthRequests.RestartKeeps` | mcp_server/oauth_provider.py:548-567 | a restart closes the consent sessions and keeps every grant of a file that can be read back |
| `OAuthRequests.EditorsConsentStaysEditors` | mcp_server/oauth_provider.py:855-860 | over any run after a consent with a key that was no admin's, promotions included, no token of that consent has the scope "admin" |
| `RevokedKeys.RevokedTokenIsRefused` | mcp_server/oauth_provider.py:907-937 | from a minute after the backend began to answer for the key with an error status it does not use for outages, a token is refused whenever such an answer comes, on calls and refreshes alike |
| `RevokedKeys.RevokedCannotConsent` | mcp_server/oauth_provider.py:1079-1098 | from then on no consent with the key yields a code |
| `RevokedKeys.RevokedKeyIsShutOut` | mcp_server/oauth_provider.py:400-423 | once the key's grants are gone nothing is issued from it again in any run, whoever consents |
| `RevokedKeys.ConsentPost` | mcp_server/oauth_provider.py:1039-1098 | by the status of the response: a 4xx but 404 adds one failure to the address, no response, 404 or 5xx adds none, a good key wipes them; the limiter is asked only of a complete form |
| `RevokedKeys.AcceptBearer` | mcp_server/oauth_provider.py:907-916 | by the status of the response or of one at most a minute old: refused with every grant of the key gone on a 4xx but 404, accepted as stored on an outage |
| `RegistrationLimit.RegistrationRateLimit.Admit` | mcp_server/oauth_provider.py:111-134 | refused exactly when ten were accepted from the address in the last hour, though every request prunes all lists |
| `RegistrationLimit.NoWindowExceedsLimit` | mcp_server/oauth_provider.py:118-133 | no hour, wherever it starts, holds more than ten accepted registrations of one address |
| `RegistrationLimit.InWindowCount` | mcp_server/oauth_provider.py:118-133 | what is counted are the accepted registrations of that hour, each once |
| `SlidingWindow.WithinLater` | mcp_server/oauth_provider.py:118-121 | pruning now and counting later is counting later |
| `SlidingWindow.WithinAre` | mcp_server/oauth_provider.py:118-121 | the times kept are exactly those less than the span ago, each as often as it was |
| `SlidingWindow.PruningRemembers` | mcp_server/oauth_provider.py:118-121 | pruned lists count for every address what the whole history would |
| `KeyCache.EveryAnswerIsRecent` | mcp_server/auth.py:114-152 | after any queries, every answer is one the backend itself gave for that key at most a minute ago |
| `KeyCache.MeaningIs` | mcp_server/auth.py:155-190 | by its status a response is an identity, a refusal or an outage: 200 with a readable body, any other status below 500 but 404, and the rest with no response at all |
| `KeyCache.AskLooksUp` | mcp_server/auth.py:83-96 | the cache answers from an identity at most a minute old, asks otherwise, and stores identities only |
| `KeyCache.RevokedIsRefused` | mcp_server/auth.py:134-152 | if from the revocation on each response is none, a 404, a 5xx or another 4xx, then a minute later the key is refused exactly when the response is such a 4xx, and is never accepted |
| `KeyCache.Verifier.VerifyApiKey` | mcp_server/auth.py:114-131 | the cache by hash: an identity at most a minute old, or what the response of now says by its status |
| `KeyCache.Verifier.CheckApiKeyId` | mcp_server/auth.py:134-152 | the cache by id: an identity at most a minute old, or what the response of now says by its status |
| `KeyCache.Verifier.IsRateLimited` | mcp_server/auth.py:43-51 | limited exactly when the address failed twenty times in the last minute since its last success |
| `KeyCache.Verifier.RecordFailure` | mcp_server/auth.py:54-55 | one more failure now |
| `KeyCache.Verifier.ClearFailures` | mcp_server/auth.py:58-59 | the address's failures are forgotten, no other's |
| `KeyCache.Verifier.VerifyToken` | mcp_server/auth.py:208-243 | a limited address and an outage answer nobody and leave the failures alone; a bad key adds one failure, a good one clears the address and carries "admin" and "editor", "editor" or "reader" by its role |
| `Holidays.HalfDays` | backend/app/services/occurrences.py:143-154 | the walk lists exactly the half-days of the block inside the window |
| `Holidays.CoversIsInterval` | backend/app/services/occurrences.py:143-154 | a block covers exactly the half-days between its two ends |
| `Holidays.RecurringDays` | backend/app/services/occurrences.py:85-109 | skipping to the window by arithmetic and stepping through it finds exactly the days that are whole steps from the anchor, within the window and the rule |
| `Holidays.FallsWhen` | backend/app/services/occurrences.py:95-109 | stepping from the anchor reaches exactly the days a multiple of the step away |
| `Holidays.RecursWhen` | backend/app/services/occurrences.py:85-109 | it recurs every so many weeks from the first such weekday on or after the start, up to the end if there is one |
| `Holidays.FoldIgnoresSpace` | backend/app/services/holidays.py:46-50 | how much space is between two words, or around them, does not change a folded label |
| `Holidays.FoldIgnoresCase` | backend/app/services/holidays.py:46-50 | neither does the case of a letter |
| `Holidays.FoldKeepsTidy` | backend/app/services/holidays.py:46-50 | a label in lower case with single spaces inside folds to itself, so that different ones stay different |
| `HolidayCleanup.AbsentHalfDays` | backend/app/services/occurrences.py:127-154 | an absence, of whatever kind, covers exactly the half-days it is defined to |
| `HolidayCleanup.TakesWhen` | backend/app/services/occurrences.py:127-154 | without halves an absence runs from the morning of its first day to the evening of its last, or of its first if none is given; a recurring one takes its own halves of its days |
| `HolidayCleanup.OnHolidayWhen` | backend/app/services/holidays.py:150-178 | an entry of a calendar that is on gives the half-day, unless the member, being of that team, is excepted that day |
| `HolidayCleanup.CandidateWhen` | backend/app/routes/team_holidays.py:216-275 | from the stored fields: an absence of the team may go exactly when the same was entered for someone else and a holiday gives every half-day of it |
| `HolidayCleanup.WindowLosesNothing` | backend/app/services/holidays.py:142-148 | loading only the span of the absences loses no holiday on any of their half-days |
| `HolidayCleanup.IsRedundant` | backend/app/routes/team_holidays.py:238-243 | redundant exactly when there is a half-day and every one is on holiday for that member |
| `HolidayCleanup.SharedWhen` | backend/app/routes/team_holidays.py:256-257 | two people in a group means each row has another person's beside it |
| `HolidayCleanup.CleanupCandidates` | backend/app/routes/team_holidays.py:216-275 | the loops find exactly the shared redundant absences, grouped by dates and words |
| `HolidayCleanup.CleanupKeepsOff` | backend/app/routes/team_holidays.py:238-243 | deleting any subset of the candidates leaves every member off exactly when they were |
| `HolidayCleanup.DeletionUnnoticedWhen` | backend/app/routes/team_holidays.py:216-243 | one absence can go unnoticed exactly when each of its half-days is off for another reason |
| `HolidayCleanup.TeamHolidays.ApplyCleanup` | backend/app/routes/team_holidays.py:285-310 | all ticked absences go or none, refused exactly when one is no candidate, and who is off when never changes |
| `HolidayCleanup.TeamHolidays.EnableCalendar` | backend/app/routes/team_holidays.py:116-136 | enabling is idempotent, refused for an unknown team or calendar, and for a calendar more than twenty |
| `HolidayCleanup.TeamHolidays.DisableCalendar` | backend/app/routes/team_holidays.py:140-147 | only the switch is removed |
| `HolidayCleanup.TeamHolidays.SetException` | backend/app/routes/team_holidays.py:175-194 | refused for a foreign member, an unknown entry, a day outside it or a calendar that is off; otherwise idempotent |
| `HolidayCleanup.TeamHolidays.ClearException` | backend/app/routes/team_holidays.py:201-210 | only that exception goes, whether or not the calendar is on |
| `HolidayCleanup.ExceptionMovesOneDay` | backend/app/services/holidays.py:174-178 | an exception moves one member on one day, and only if no other holiday covers it for them |
| `HolidayCleanup.SwitchingBackRestores` | backend/app/routes/team_holidays.py:140-147 | a calendar switched off counts for nothing and switched back on restores who is off |
| `HolidayWindow.FirstsAre` | backend/app/routes/holiday_calendars.py:380-382 | the kept items have each key once, the first of its kind |
| `HolidayWindow.WindowHasEach` | backend/app/routes/holiday_calendars.py:362-424 | every incoming holiday has an entry of the calendar that starts in the window, with its dates, halves and, up to case and spacing, its words |
| `HolidayWindow.WindowHasOnly` | backend/app/routes/holiday_calendars.py:362-424 | every entry of the calendar that starts in the window is such a holiday and new, and no two of them are the same |
| `HolidayWindow.OutsideStays` | backend/app/routes/holiday_calendars.py:372-384 | every entry of another calendar, or that starts before the window or after it, is unchanged and keeps exactly its exceptions |
| `HolidayWindow.NothingElseAppears` | backend/app/routes/holiday_calendars.py:403-424 | an entry outside the window was there before, outside it too |
| `HolidayWindow.CountsAre` | backend/app/routes/holiday_calendars.py:372-424 | deleted counts the calendar's old entries from the first to the last day of the window, created its new ones, and kept and dropped their exceptions |
| `HolidayWindow.ReplacementRefusedWhen` | backend/app/routes/holiday_calendars.py:362-424 | which refusal a replacement meets, in order: an item that ends before it starts or starts outside the window, no such calendar, more than two thousand entries, two carried exceptions that collide |
| `HolidayWindow.ExceptionsSurvive` | backend/app/routes/holiday_calendars.py:385-421 | kept and dropped add up to all exceptions on replaced entries, and each member works the same days of every holiday that came back |
| `HolidayWindow.ReplacingTwice` | backend/app/routes/holiday_calendars.py:362-424 | the same replacement again succeeds, drops none and yields the same holidays and the same working days |
| `HolidayWindow.DistinctKeysNeverClash` | backend/app/routes/holiday_calendars.py:385-421 | with the window's stored keys distinct no two carried exceptions collide |
| `HolidayWindow.TwiceEnteredFails` | backend/app/routes/holiday_calendars.py:403-423 | such a calendar: one holiday entered twice, a member working both |
| `HolidayWindow.InsertCarried` | backend/app/routes/holiday_calendars.py:419-421 | inserting one by one breaks the unique constraint exactly when two of them collide |
| `HolidayWindow.HolidayCalendars.ReplaceEntries` | backend/app/routes/holiday_calendars.py:362-424 | one replacement, refused as `HolidayWindow.ReplacementRefusedWhen` says; a dry run and a failure change nothing |
| `HolidayWindow.HolidayCalendars.CreateEntries` | backend/app/routes/holiday_calendars.py:182-199 | identical entries are skipped, and past two thousand none is added |
| `HolidayWindow.AddingUnites` | backend/app/routes/holiday_calendars.py:182-199 | afterwards the calendar has exactly its old holidays and the new ones |
| `HolidayWindow.NothingFirstTwice` | backend/app/routes/holiday_calendars.py:182-199 | adding the same entries again adds nothing |
| `CopyYear.NextYearIs` | backend/app/routes/holiday_calendars.py:430-434 | the same day next year, 29 February becoming the 28th, up to 9998 |
| `CopyYear.ExistsWhen` | backend/app/schemas/holiday.py:50-61 | the dates there are, month by month, with the rule for leap years |
| `CopyYear.BeforeWhen` | backend/app/routes/holiday_calendars.py:459-462 | one date is before another exactly when its number is lower |
| `CopyYear.NextYearKeepsOrder` | backend/app/routes/holiday_calendars.py:459-462 | next year keeps the order of dates, so the clamp on the end never applies |
| `CopyYear.NextYearMerges` | backend/app/routes/holiday_calendars.py:430-434 | two dates come out as one exactly for 28 and 29 February of a leap year |
| `CopyYear.ProposalExistsWhen` | backend/app/routes/holiday_calendars.py:459-474 | a stored entry has a valid proposal exactly when it is not that one night and ends before 9999 |
| `CopyYear.LeapNightFails` | backend/app/schemas/holiday.py:50-61 | the night of 28 to 29 February 2028 is a valid entry whose proposal is not |
| `CopyYear.ProposalIsOneYearLater` | backend/app/routes/holiday_calendars.py:459-474 | a proposal is its source one year later in every field |
| `CopyYear.ProposedIs` | backend/app/routes/holiday_calendars.py:459-475 | each proposal with its source's date, its weekend flag and whether that holiday is already there |
| `CopyYear.NumbersCount` | backend/app/routes/holiday_calendars.py:466-473 | consecutive dates are consecutive days of the week |
| `CopyYear.TouchesWeekendWhen` | backend/app/routes/holiday_calendars.py:466-475 | a proposal is flagged exactly when its days get past a Friday |
| `CopyYear.PreviewCopyYear` | backend/app/routes/holiday_calendars.py:437-478 | the preview proposes each entry of the year once, or fails exactly when one of them has no proposal |
| `SprintHolidays.CostsTime` | backend/app/routes/team_holidays.py:346-355 | an entry counts exactly when it removes a contracted half-day of someone active who counts and is not excepted |
| `SprintHolidays.CostsWhen` | backend/app/routes/team_holidays.py:346-355 | that is, when someone active and counted, by the version in force and the weekday, works on a half-day of the entry in the sprint and is not excepted |
| `SprintHolidays.SprintHeader` | backend/app/routes/team_holidays.py:357-373 | a sprint shows exactly the entries that cost it time |
| `WorkingPatterns.ExactlyOneGoverns` | backend/app/models/team.py:151-162 | with distinct dates every day resolves to exactly one version |
| `WorkingPatterns.ResolveVersion` | backend/app/services/team_capacity.py:194-213 | the walk finds the latest version begun by that day, or the earliest of all |
| `WorkingPatterns.EffectiveVersion` | backend/app/routes/team_members.py:139-162 | the version shown does not depend on the order of the rows |
| `WorkingPatterns.EveryRunResolves` | backend/app/routes/team_members.py:277-577 | after any creations, replacements, moves and deletions every day resolves to exactly one version |
| `WorkingPatterns.RunExtends` | backend/app/routes/team_members.py:425-578 | a run with one more request is one step from where the run has come to |
| `WorkingPatterns.OneMoreVersion` | backend/app/models/team.py:151-162 | one more version governs its own interval and changes no other day |
| `WorkingPatterns.PostingMoves` | backend/app/routes/team_members.py:449-484 | adding a version changes the answer on its own interval only |
| `WorkingPatterns.PostReplaces` | backend/app/routes/team_members.py:449-484 | posted on a date that is taken, the pattern replaces that version's, under the same id, exactly if its tag is named |
| `WorkingPatterns.PostAdds` | backend/app/routes/team_members.py:484-496 | posted on a free date it is one more version, unless there are fifty |
| `WorkingPatterns.EditChanges` | backend/app/routes/team_members.py:499-538 | what an edit writes, and its refusals: an unknown version, a stale tag, a date another version has |
| `WorkingPatterns.DeleteTakes` | backend/app/routes/team_members.py:541-578 | a deletion takes that version and no other, refused for the earliest and under a stale tag |
| `WorkingPatterns.UnknownIsNotFound` | backend/app/routes/team_members.py:499-578 | an id no version has is not found, once a tag is given |
| `WorkingPatterns.DeletingMoves` | backend/app/routes/team_members.py:551-577 | deleting a version changes the answer on its days only, where its predecessor takes over |
| `WorkingPatterns.MovingMoves` | backend/app/routes/team_members.py:513-530 | moving a version changes the answer on the days it leaves, where its heir takes over, and on its new interval, and nowhere else |
| `WorkingPatterns.SecondWriterIsTold` | backend/app/services/concurrency.py:116-134 | of two writers who read the same version the second is told it is stale |
| `WorkingPatterns.Member.CreatePatternVersion` | backend/app/routes/team_members.py:425-496 | create or replace, with the tag demanded exactly when a version is overwritten |
| `WorkingPatterns.Member.UpdatePatternVersion` | backend/app/routes/team_members.py:499-538 | an edit under its tag, refused when another version has the date |
| `WorkingPatterns.Member.DeletePatternVersion` | backend/app/routes/team_members.py:541-578 | a deletion under its tag, refused for the earliest version |
| `WorkingPatterns.Member.constructor` | backend/app/routes/team_members.py:263-283 | a member comes with a first version |
| `ProjectImport.BuildIdMap` | backend/app/routes/projects.py:207-225 | every id of the payload gets one fresh id, no two the same, none of the objects' the new project's |
| `ProjectImport.Flush` | backend/app/routes/projects.py:409-424 | pending rows are written one by one until a primary key or a unique index refuses one |
| `ProjectImport.RefusedWhen` | backend/app/models/swimline.py:34-37 | an index refuses a row exactly when its object conflicts, within the payload, with one already written |
| `ImportRequests.AcceptedHas` | backend/app/routes/projects.py:198-204 | of an accepted payload no group or story lacks a known feature, and no two different objects have one id, one name under one parent or one implicit group's story |
| `ImportRequests.DanglingHas` | backend/app/routes/projects.py:198-204 | a payload is refused for a missing feature only if some group or story in it has none that the payload knows |
| `ImportRequests.IntegrityHas` | backend/app/models/swimline.py:34-37 | an index refuses only a payload with two objects that clash, or one in it twice |
| `ImportRequests.EarlyClashComesFirst` | backend/app/routes/projects.py:409-418 | two different objects above the groups that clash are what is answered, whatever else is wrong |
| `ImportRequests.GroupClashComesNext` | backend/app/routes/projects.py:420-424 | with each group's feature known, two groups that clash are answered before any story is read |
| `ProjectImport.ReadGroups` | backend/app/routes/projects.py:311-324 | the nested loops read exactly the groups, or stop at the first that names no known object as its feature |
| `ProjectImport.AddAll` | backend/app/routes/projects.py:408-424 | the first pass writes a row for every object or ends in the verdict on the payload |
| `ProjectImport.VerdictIs` | backend/app/routes/projects.py:378-430 | a payload is accepted exactly when no required reference dangles and no two objects share an id, a name or number, or an implicit group's story |
| `ProjectImport.StoriesUniqueWhen` | backend/app/models/group.py:59-64 | linking two implicit groups to one story breaks the index exactly when the payload did so |
| `ProjectImport.LinkEach` | backend/app/routes/projects.py:350-375 | the second pass sets exactly the links that could point forward |
| `ProjectImport.ImportIsIsomorphic` | backend/app/routes/projects.py:378-430 | the new rows are the payload over again: same kinds, names and contents, the same references among them, and all of them in the new project |
| `ImportRequests.EveryObjectHasRow` | backend/app/routes/projects.py:236-375 | kind by kind and where it stands in the payload: each object has a new row with its words and, of the references its kind may have, each to what the payload knows |
| `ImportRequests.EveryRowHasObject` | backend/app/routes/projects.py:236-375 | every new row is that of an object of the payload, and no old row is touched |
| `ProjectImport.UnknownLinksAreDropped` | backend/app/routes/projects.py:232-233 | a reference survives exactly when the payload has what it names, and never leads to an old row |
| `ProjectImport.FeatureIsFeatureWhen` | backend/app/routes/projects.py:198-204 | a required feature reference leads to a feature exactly when the payload's did |
| `ProjectImport.ProjectAsParentIsAccepted` | backend/app/routes/projects.py:198-204 | a story whose parent is the project itself is accepted |
| `ProjectImport.CandidatesDiffer` | backend/app/routes/projects.py:161-169 | no two candidate names are the same |
| `ProjectImport.CandidateIs` | backend/app/routes/projects.py:161-169 | the name as it is, then with "(imported)", then with "(imported 2)" and so on in decimal |
| `ProjectImport.UniqueProjectName` | backend/app/routes/projects.py:161-169 | the loop ends with the first candidate name no project has |
| `ProjectImport.Projects.ImportProject` | backend/app/routes/projects.py:378-433 | everything or nothing: refused with the verdict on the payload, otherwise the rebuilt rows under fresh ids in the new project, which has the first free name |
| `ImportedBoard.ImportKeepsBoardWhen` | backend/app/routes/projects.py:378-430 | imported into a whole board, a payload leaves it whole exactly when its groups are in their features' swimlanes, its grouped stories in their features' groups, its features in a PI exactly when in a swimlane, and its continuations end |
| `ImportedBoard.CycleIsAccepted` | backend/app/routes/projects.py:350-375 | two features that continue one another are accepted and leave a board that is not whole |
| `ProjectExport.Write` | backend/app/services/snapshot.py:204-223 | a query for one kind under one parent is written out with each row once |
| `ProjectExport.WriteLanes` | backend/app/services/snapshot.py:226-256 | the nested loops write each swimlane of the PI once, each of its groups under it, and no other |
| `ProjectExport.SerializeProject` | backend/app/services/snapshot.py:194-366 | the payload holds every row that is of the project, directly or by way of its PI or swimlane, exactly once, and nothing else |
| `ProjectExport.ExportIsAcceptedWhen` | backend/app/routes/projects.py:378-430 | an import refuses an export exactly when some group or story of the project has its feature outside it |
| `ProjectExport.ImportOfExportCopies` | backend/app/services/snapshot.py:194-366 | exported and imported again, each row of the project has exactly one copy in the new project, with references to the copies of what it referred to; a reference out of the project is dropped, and nothing else is new |
| `ProjectExport.ExportedBoardComesBackWhole` | backend/app/services/snapshot.py:194-366 | a project exported from a whole board leaves whole the board it is imported into |

## Left out

- HTTP routing, sessions, JSON, broadcasts, logging, password and JWT cryptography: plumbing or foreign calls.
- Interleavings inside one request and two database transactions racing: each request is one step.
- Floating-point rounding in weights, efforts and times: they are exact reals.
- Redirect-host checks, CIMD documents, consent HTML and metadata routes; PKCE and scope validation done by the SDK
  beyond what its callers are promised.
- Item fields other than those named in the tables, swimlane and PI names, state lists, completion dates, item ids and their
  uniqueness on the board, PI state transitions and reordering: single-branch guards.
- The order of the lists a response or an export carries, where the source sorts for display only.
- ProjectExport.SerializeProject: a row's columns but for ids, references and unique names are one value, so that the
  import drops an export's creation times and recomputes a feature's effort is not modelled.
- ProjectExport.ExportedBoardComesBackWhole: takes the features, swimlanes and groups that the project's rows refer to
  to be the project's own.
- Label folding beyond ASCII: case and whitespace are folded for ASCII characters only.
- Clearing every feature of a project, which empties the board, and the CSV import, which writes many rows at once.
- A story's own location, PI and swimlane written by a story update: nothing on the board reads them.
- BoardState.Split: the story's own location field, which nothing on the board reads, is not modelled.
- ProjectImport.Projects.ImportProject: the shape of the file and of single values is not modelled; a broken index is
  one error here, though the program answers it with 409 only at the final commit.
- HolidayWindow.HolidayCalendars.CreateEntries: the calendar's updates of single entries and their exceptions, and the
  `.ics` import and export, are not modelled.
- OAuthProvider.Provider.StartAuthorization: the check of the redirect address is not modelled.
- OAuthProvider.Provider.GiveConsent: the address's failures are kept in RevokedKeys.ConsentPost, not here.
- OAuthProvider.Provider.RegisterClient: refusals for a redirect host or a client document are not modelled.
- WorkingPatterns.Member.UpdatePatternVersion: the member's own fields and their validity window are not modelled.
- Service functions for capacity, meetings, CSV import and restoring snapshots: not part of this model.
