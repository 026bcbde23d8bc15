# Verified model of the content engine and the chat engine

A Dafny 4.11 model of two stateful engines of a Django backend, with proofs about
every call, every reachable state and every run. `dafny verify dfyconfig.toml`
checks the whole project.

**The content engine** (`backend/apps/cms/`). A block placement has a draft, a
published copy, a numbered and pruned version history written through a throttle,
and two layers of an index that says which media files its content references. The
content is nested JSON. Deleting and cleaning up media trust the index; publishing
trusts a validator that runs in a strict and a permissive mode.

**The chat engine** (`backend/apps/chat/`). A conversation has numbered messages, a
cached last message, participant rows with admins and succession, a request state
per participant, seen watermarks, unread counts and cursor pagination. Sequence
numbers are read without a lock; a unique constraint decides who aborts.

## How it is built

| files | content |
|---|---|
| `JsonTree`, `MediaRefs`, `MediaPlaces` | content trees; finding and clearing media references; both told place by place |
| `Schemas`, `Validator`, `ValidatorLoops`, `Sanitizer` | block schemas, the two validation modes, cleaning |
| `ValidatorMeaning`, `SanitizerMeaning` | what is reported kind by kind, and what a cleaned document is |
| `Versions` | one block's version history: numbers, retention, throttle, rollback |
| `Reorder` | the two-pass reorder under its unique constraint |
| `Cms`, `CmsInvariants`, `CmsTheorems`, `CmsStore` | the tables and each service call as a step; what each step keeps; theorems over runs; the services as a class |
| `PublishContracts`, `CmsContracts` | what the calls do and refuse, on the rows of the tables |
| `CmsDrafts`, `CmsWitnesses` | drafts against versions and the draft index; runs on which a promise fails |
| `Chat`, `ChatInvariants`, `ChatShapes`, `ChatTheorems` | one conversation: steps, invariants, what a call can change, promises |
| `Messenger`, `Inbox`, `ChatTexts`, `Paging`, `ChatStore` | all conversations, unread counts, kept texts, pagination, the services as a class |
| `ChatContracts`, `MessengerContracts` | what the calls do and refuse, on rows and messages |
| `ChatManagers` | who can manage a group |
| `ChatWitnesses` | a run on which a promise fails |
| `SequenceRace` | concurrent senders, statement by statement |

Code that loops or updates rows is written as methods with loops over class fields
(`CmsStore.Store`, `ChatStore.Store`, `Reorder.OrderTable`, the walks in `MediaRefs`,
the validator and the sanitizer). Each is proved equal to a step function, on success
and on every error path, and the theorems are proved about the step functions: the
methods' `ensures` join the two.

Conventions:

- A service call is one transaction: it ends in the specified state, or it fails and
  every table is as before. `Uncaught` stands for an exception no service handles,
  such as a non-string `media_id`, content that is not an object where a dict is
  expected, a malformed part of a schema, a missing file row, or a field key longer
  than the column.
- Schemas are taken as they can be stored: a field may lack its key or type, and a rule
  may be of the wrong type, in which case using it raises.
- Time is an integer argument. Retention (`keep`), the throttle window, the message
  and group limits are constants of a configuration value and are arbitrary.
- Library functions are parameters: UUID parsing and printing (with the one law that a
  printed id parses back to itself), the HTML cleaner, tag stripping, regular
  expressions and Python's `==`. Only `SanitizeIsIdempotent` assumes the cleaner settles.
- Permission, feature-gate, quota, block-list and connection lookups enter as booleans or
  as the error they end in.
- Two history variables of `Versions.History` record what the tables forget: `created`
  counts the versions ever inserted, and `nulled` lists the files that tombstoning has
  cleared from the draft since the newest snapshot.
- A conversation's id is its position, and row and message keys come from one counter.

## Where the code and its promises part

For each, a lemma gives the condition under which the promise holds, as an
if-and-only-if unless "Left out" says otherwise, and a lemma gives a case in which it
fails.

- Permissive validation and cleaning raise on schemas the structural check accepts: it
  looks at neither the keys and types of item fields nor the types of rules
  (`Validator.NeverRaisesIffWellTyped`, `Validator.PermissiveRaisesIff`,
  `Sanitizer.NeverRaisesIffTagsWellTyped`; case: `Validator.AcceptedSchemaRaises`).
- A reference whose id is spelled non-canonically (upper case, say) survives
  tombstoning: extraction parses ids, clearing compares text
  (`MediaRefs.NullingFiltersReferences`, `CmsTheorems.TombstoneKeepsDraftIndex`; case:
  `MediaRefs.UppercaseReferenceSurvives`).
- Import and rollback write drafts without syncing the draft index
  (`CmsDrafts.ImportKeepsIndexIff`, `CmsDrafts.RollbackKeepsIndexIff`; cases:
  `CmsWitnesses.ImportSkipsIndex`, `CmsWitnesses.RollbackSkipsIndex`), and cleanup takes
  draft-layer rows with the file (`CmsDrafts.CleanUpKeepsDraftIndexIff`; case:
  `CmsWitnesses.CleanUpSkipsDraft`).
- Rolling back and then forward again does not restore a draft that lost a media
  reference of its newest version to tombstoning (`CmsDrafts.RollingBackTwice`,
  `CmsDrafts.RestoredIffReferencesStand`, `Versions.RoundTripRestoresDraft`; case:
  `CmsWitnesses.RoundTripLosesDraft`).
- A page with a null draft exports, but its import fails when the block has fields
  (`CmsTheorems.ImportRestoresExport`; case: `CmsWitnesses.NullDraftDoesNotImport`).
- With retention 0 every version is number 1, and with retention 1 or more numbers are
  never reused (`Versions.RetentionZeroReusesNumbers`, `Versions.CreateKeepsBlock`).
- A reorder fails when a row still waiting for its first update already holds an order
  at the 100000 offset that the pass writes first
  (`Reorder.EveryUpdateUniqueIffNoCollision`; case: `Reorder.OffsetOrderCollides`).
- The only admin of a group may remove themselves and leave it without one
  (`ChatTheorems.CallKeepsLed`, `Messenger.ActiveGroupsAreLed`; case:
  `ChatWitnesses.SoleAdminAbdicates`).
- The lookup never finds a global DM that was created with a scope id, so the pair gets
  a second one from the next creation, whatever scope id that gives
  (`Messenger.OneDmPerPair`; case: `Messenger.ScopedGlobalDmIsDuplicated`).
- The guard of the membership calls accepts only users, so a group can have an admin and
  nobody who can manage it: when it is created by a business or the platform, or when its
  last user admin is removed, demoted, or succeeded by an entity
  (`ChatManagers.ManagedOverRuns`; case: `ChatWitnesses.EntityGroupIsUnmanaged`).
- Deleting a file that no published content references hides it from cleanup, and its
  stored object stays for good (`CmsTheorems.SoftDeletedForGood`,
  `CmsTheorems.SoftDeletionStrands`); for a tombstoned file that cleanup would have
  removed, exactly then (`CmsTheorems.OutOfReachIff`; case:
  `CmsWitnesses.DeletingAgainStrands`).
- A DM addressed to its own creator returns their DM with somebody else
  (`Messenger.ReturnedPeopleIff`; case: `ChatWitnesses.SelfAddressedDmIsAnothers`).

Two more facts of the code that a reader may not expect: what a message keeps as its
original is its first non-empty text until it is deleted, and its last text afterwards
(`ChatTexts.TextsOverRuns`); and system messages are sent as the user with the creator's
id even when the creator is a business or the platform (`Chat.PostSystem`).

## Model

| member | source | states |
|---|---|---|
| MediaRefs.ExtractMediaReferences | backend/apps/cms/services.py:1884-1909 | the growing list of nested loops is the reading of the tree's sites in walk order, or a crash |
| MediaRefs.NullMediaIdInContent | backend/apps/cms/services.py:1934-1944 | the update loop yields the tree with exactly the objects carrying that id text replaced by null |
| MediaRefs.NullingFiltersSites | backend/apps/cms/services.py:1934-1944 | for any tree, clearing removes exactly the sites with that text; the others keep order, paths and raw ids |
| MediaRefs.NullingUnchangedIffFree | backend/apps/cms/services.py:1934-1944 | a tree is unchanged by clearing if and only if no site carries the text |
| MediaRefs.NullingIsIdempotent | backend/apps/cms/services.py:1934-1944 | clearing twice is clearing once |
| MediaRefs.NullingCommutes | backend/apps/cms/services.py:1934-1944 | two files can be cleared in either order |
| MediaRefs.NullingFiltersReferences | backend/apps/cms/services.py:1884-1944 | the extracted references become the old list with the file filtered out if and only if the content spells that id canonically |
| MediaRefs.UppercaseReferenceSurvives | backend/apps/cms/services.py:1884-1944 | a lawful parser and a tree whose reference clearing does not see |
| MediaRefs.OtherSpellingSurvives | backend/apps/cms/services.py:1884-1944 | for any parser, any second spelling of an id keeps a reference that clearing does not see |
| MediaPlaces.WalkFindsExactly | backend/apps/cms/services.py:1884-1909 | the walk finds exactly the objects with a media id that are entries of the document or of objects reached through lists, each under its dotted key |
| MediaPlaces.ReadsExactly | backend/apps/cms/services.py:1884-1909 | reading them fails exactly on an id neither text nor null, else gives exactly the keys the texts denote |
| MediaPlaces.ClearedAtPlaces | backend/apps/cms/services.py:1934-1944 | at every place of the tree, clearing keeps the key and replaces exactly the objects with that id text by null |
| MediaPlaces.DecimalDenotes | backend/apps/cms/services.py:1884-1909 | list positions in dotted keys are printed in decimal |
| Schemas.ValidateSchemaStructure | backend/apps/cms/validators.py:42-100 | a schema passes if and only if it is complete, of known types, with distinct keys, allowed patterns and no nested repeater; a refusal names an offence of the first field at which that fails |
| Schemas.AcceptedIffNoOffence | backend/apps/cms/validators.py:42-100 | a schema is accepted exactly if it is a list of fields none of which offends in any of the listed ways |
| ValidatorLoops.ValidateContent | backend/apps/cms/validators.py:103-157 | the issue list grown by the loop is the concatenation of the fields' issues, required fields first judged by mode |
| ValidatorLoops.ValidateFieldValue | backend/apps/cms/validators.py:227-474 | for every kind and mode exactly the issues of that kind, in order: a selection off its choices, an item off them, sizes and lengths beyond their bounds, a wrong type, a missing, deleted or tombstoned file; it raises exactly on a malformed rule or, in strict mode, an id that is no key |
| ValidatorLoops.TextIssues | backend/apps/cms/validators.py:239-283 | raises exactly on a malformed rule; TooLong, TooShort and the pattern issues are reported exactly beyond the bounds and on the pattern's outcome |
| ValidatorLoops.NumberIssues | backend/apps/cms/validators.py:311-336 | a value passes exactly if it is a number, booleans included, within the given bounds; each issue is reported exactly on its side of them |
| ValidatorLoops.SelectionIssues | backend/apps/cms/validators.py:359-395 | one issue per invalid choice, then the two size limits |
| ValidatorLoops.RepeaterIssues | backend/apps/cms/validators.py:431-469 | the two size limits exactly beyond their bounds, then the issues of each object item under its indexed path |
| ValidatorLoops.ValidateItems | backend/apps/cms/validators.py:458-469 | issues of items with their keys rewritten to indexed paths |
| ValidatorMeaning.ValueMeans | backend/apps/cms/validators.py:227-474 | the verdict on any value of any kind is exactly what its rules and the value say, without reference to how it is computed |
| ValidatorMeaning.ContentMeans | backend/apps/cms/validators.py:103-157 | each field is judged on its own value: an empty required field is reported in strict mode alone, other empty values are passed over; issues come field after field, and the first field that raises ends it |
| Validator.PermissiveIsStrictFiltered | backend/apps/cms/validators.py:103-474 | permissive mode reports exactly the strict issues without the three strict-only kinds, same order and paths, at any depth; it raises only where strict mode raises, and strict mode alone only for a media id that is no key |
| Validator.PermissiveRaisesIff | backend/apps/cms/validators.py:103-474 | permissive validation raises exactly on the content that makes it read a malformed part of the schema |
| Validator.NeverRaisesIffWellTyped | backend/apps/cms/validators.py:103-474 | it raises on no content at all if and only if fields are complete and the rules their kinds use well typed, through item schemas |
| Validator.AcceptedSchemaRaises | backend/apps/cms/validators.py:91-100 | a schema that passes the structural check, and content on which validation raises |
| Validator.StrictPassIffReady | backend/apps/cms/validators.py:103-474 | strict validation passes if and only if permissive does, required fields are filled and media fields name live files, through repeaters |
| Sanitizer.SanitizeContent | backend/apps/cms/validators.py:160-224 | the overwritten copy is the document with each field cleaned in schema order; it raises exactly when the submitted document meets a malformed part of the schema |
| Sanitizer.SanitizeKeepsOtherValues | backend/apps/cms/validators.py:160-224 | the keys stay, and so does every value that is neither rich text nor a repeater |
| Sanitizer.SanitizeKeepsSites | backend/apps/cms/validators.py:160-224 | the media walk collects the same sites before and after cleaning |
| Sanitizer.SanitizeKeepsReferences | backend/apps/cms/services.py:1238-1275 | so the index of the cleaned draft is the index of what was submitted |
| SanitizerMeaning.SanitizedIsCleaned | backend/apps/cms/validators.py:160-224 | with distinct keys every rich text, in list items too, is the submitted one cleaned with its own field's tags, and everything else is as submitted |
| Sanitizer.SanitizeIsIdempotent | backend/apps/cms/validators.py:160-224 | cleaning twice is cleaning once when the cleaner settles and keys are distinct at every level |
| Sanitizer.IdempotentIffSettles | backend/apps/cms/validators.py:160-224 | cleaning is idempotent on every document if and only if, for each key, what its fields do to a value in a row is; no assumption on keys or cleaner |
| Sanitizer.NeverRaisesIffTagsWellTyped | backend/apps/cms/validators.py:175-217 | cleaning raises on no document if and only if fields are complete and rich text tags usable, through item schemas |
| Sanitizer.RepeatedItemKeyNeedNotSettle | backend/apps/cms/validators.py:42-100 | distinct keys cannot be dropped for an arbitrary settling cleaner: an accepted schema with a repeated item key |
| Versions.LatestVersion | backend/apps/cms/selectors.py:416-421 | the row with the greatest number, none if there are no rows |
| Versions.PruneOldVersions | backend/apps/cms/services.py:1840-1852 | keeps exactly the rows with fewer than `keep` newer ones |
| Versions.CreateContentVersion | backend/apps/cms/services.py:1774-1799 | inserts number latest+1 and prunes |
| Versions.CreateContentVersionThrottled | backend/apps/cms/services.py:1802-1837 | rewrites the newest draft save of the same user inside the window, else inserts |
| Versions.CreateKeepsBlock | backend/apps/cms/services.py:1774-1852 | stored numbers stay one contiguous block of at most N whose top counts every version ever created; only the oldest go |
| Versions.SaveKeepsBlock | backend/apps/cms/services.py:1802-1837 | the same for throttled saves, which rewrite nothing but the newest snapshot |
| Versions.PruneKeepsBlock | backend/apps/cms/tasks.py:35-62 | the retention task finds nothing left to delete |
| Versions.RetentionZeroReusesNumbers | backend/apps/cms/services.py:1774-1852 | with retention 0 the number is reused every time |
| Versions.SaveStep | backend/apps/cms/services.py:1802-1837 | a save is folded in exactly inside the window of this user's last new version, whose time it keeps |
| Versions.SavesAreSpaced | backend/apps/cms/services.py:1802-1837 | in any run of one user's saves, new versions are at least a window apart |
| Versions.LastSaveIsNewest | backend/apps/cms/services.py:1802-1837 | and the newest snapshot is the last saved content, whether or not a version was added |
| Versions.SavesPerSpan | backend/apps/cms/services.py:1802-1837 | k new versions in a span of T seconds satisfy (k-1)*W <= T |
| Versions.FindInBlock | backend/apps/cms/selectors.py:403-413 | a number is found if and only if it lies in the stored block |
| Versions.RollbackRoundTrip | backend/apps/cms/services.py:1285-1336 | rolling back to k gives snapshot k; going back to the previous top works if and only if two versions are kept, and gives its snapshot |
| Versions.RoundTripRestoresDraft | backend/apps/cms/services.py:1285-1336 | the round trip restores the draft if and only if every media reference of the newest snapshot still stands in it |
| Versions.UnchangedIffSitesStand | backend/apps/cms/services.py:1934-1944 | clearing any files changes content exactly if one of its media sites is gone afterwards |
| Reorder.EveryUpdateUniqueIffNoCollision | backend/apps/cms/services.py:738-747 | (parent, order) is unique after every single update of both passes if and only if no waiting row holds an order the first pass writes; any id list |
| Reorder.OffsetOrderCollides | backend/apps/cms/services.py:738-747 | two rows, one already at the offset, on which the first update breaks uniqueness |
| Reorder.SmallOrdersNeverCollide | backend/apps/cms/services.py:766-786 | orders below the offset never collide |
| Reorder.CompletedReorder | backend/apps/cms/services.py:878-892 | each listed row ends at its last position in the list; no other row changes |
| Reorder.ListingIsTheGivenList | backend/apps/cms/services.py:714-749 | for a repeat-free list, sorting by order afterwards gives exactly the list |
| Reorder.OrderTable.Update | backend/apps/cms/services.py:742-744 | one row update, refused exactly when it breaks the constraint |
| Reorder.OrderTable.WritePass | backend/apps/cms/services.py:779-786 | a pass succeeds exactly when each of its updates is accepted |
| Reorder.OrderTable.ReorderChildren | backend/apps/cms/services.py:751-791 | fails exactly on a mismatching id set or a collision, and then changes nothing; else every listed row is at its position |
| CmsInvariants.SyncedRows | backend/apps/cms/services.py:1855-1881 | a sync replaces the rows of one placement and layer and leaves all others in place |
| CmsInvariants.SyncKeeps | backend/apps/cms/services.py:1855-1881 | after a sync the layer's rows are exactly the content's references, in order |
| CmsInvariants.StepKeepsInv | backend/apps/cms/services.py:960-1633 | every call, successful or rolled back, keeps published index, foreign keys, version block and draft mirror |
| CmsInvariants.RunKeepsInv | backend/apps/cms/services.py:960-1633 | so does every run |
| CmsTheorems.UsedIffReferenced | backend/apps/cms/services.py:1534-1537 | a file has published usage rows if and only if some published content references it |
| CmsTheorems.PublishEffect | backend/apps/cms/services.py:1022-1053 | the write loop freezes exactly the page's placements and adds one version to each |
| CmsTheorems.PublishCopiesDrafts | backend/apps/cms/services.py:960-1071 | a publish copies every draft of the page, hidden blocks included, with the current schema version; other pages and all drafts stay |
| CmsTheorems.NoStepTakesAPublishedFile | backend/apps/cms/services.py:1514-1633 | no call removes, unstores or soft-deletes a file that some published content references |
| CmsTheorems.PublishedFilesServable | backend/apps/cms/services.py:1599-1633 | in every reachable state files referenced by published content have their rows and storage objects |
| CmsTheorems.OnlyPublishChangesPublished | backend/apps/cms/services.py:1022-1053 | a published column changes exactly by a successful publish of its page, to the draft |
| CmsTheorems.PublishedIsLastPublishedDraft | backend/apps/cms/services.py:1022-1053 | over every run it is the draft at the page's last successful publish |
| CmsTheorems.PublishGate | backend/apps/cms/services.py:994-1020 | the gate passes if and only if each visible or required block passes permissive validation, fills required fields and names live files |
| CmsTheorems.PublishSucceedsIff | backend/apps/cms/services.py:960-1071 | a publish succeeds if and only if the page exists, the gate passes and every block of the page can be indexed |
| PublishContracts.MediaFieldIssues | backend/apps/cms/validators.py:397-429 | a strict media field is not found exactly if its id is null or of a missing or deleted file, tombstoned exactly if that file is, passed exactly if it is neither, and raises exactly on an id that is no key |
| PublishContracts.PassesIffServed | backend/apps/cms/validators.py:103-474 | strict validation finds nothing if and only if permissive validation finds nothing, required fields are filled and media fields with a value name rows neither deleted nor tombstoned, through repeaters |
| PublishContracts.FaultReportedIff | backend/apps/cms/validators.py:397-429 | not-found and tombstoned are reported if and only if some media field of the document, in list items too, has such an id |
| PublishContracts.PublishedExactlyWhen | backend/apps/cms/services.py:960-1071 | a publish succeeds if and only if the page exists, its shown or required blocks pass on the file rows, and all its drafts reference existing files under keys of at most 100 characters |
| PublishContracts.PublishedMediaServable | backend/apps/cms/services.py:994-1020 | after a publish every media field with a value of a shown or required block of the page names a file row neither deleted nor tombstoned, and every required field is filled |
| PublishContracts.RefusedPublishLists | backend/apps/cms/services.py:994-1020 | a refused publish lists exactly the strict issues of the shown or required blocks; not-found and tombstoned are listed if and only if one of their media fields has such an id |
| PublishContracts.RefusedByGate | backend/apps/cms/services.py:960-1020 | NotFound exactly for an unknown page, a list of issues exactly if the gate finds them, an exception otherwise |
| PublishContracts.PublishLeaves | backend/apps/cms/services.py:1022-1071 | the page is live as of now, every placement of it has its draft published against the current schema and in a new publish version, and every other row is as before |
| CmsTheorems.DeleteTombstonesIffPublished | backend/apps/cms/services.py:1514-1565 | a deleted file is tombstoned exactly when published content references it, else soft-deleted |
| CmsTheorems.CleanUpRemovesExactly | backend/apps/cms/services.py:1599-1633 | cleanup removes exactly the tombstoned files nothing published references, with their usage rows and objects, bar storage errors |
| CmsContracts.DeleteErrors | backend/apps/cms/services.py:1514-1565 | not found exactly if the file is missing or deleted; an exception exactly if a published use calls for clearing a draft that is no document |
| CmsContracts.DeleteLeaves | backend/apps/cms/services.py:1514-1565 | the tombstone flag, the drafts a draft row ties to the file cleared and those rows gone, or the deleted flag alone; every other row stays |
| CmsContracts.CleanUpLeaves | backend/apps/cms/services.py:1599-1633 | the remaining files, exactly their usage rows, and everything else stay |
| CmsTheorems.OutOfReachIff | backend/apps/cms/services.py:1599-1633 | the object of a tombstoned file that nothing published references stays stored in every later run if and only if the file is soft-deleted too |
| CmsTheorems.SoftDeletionStrands | backend/apps/cms/services.py:1534-1555 | deleting a file that nothing published references, tombstoned or not, soft-deletes it and leaves its object stored in every later run |
| CmsTheorems.SoftDeletedForGood | backend/apps/cms/services.py:1599-1633 | no run undoes a soft deletion or removes the object of a soft-deleted file |
| CmsWitnesses.DeletingAgainStrands | backend/apps/cms/services.py:1534-1555 | save, publish, delete the file, publish, delete the file: the object is out of reach |
| CmsTheorems.SavedDraftIsIndexed | backend/apps/cms/services.py:1215-1283 | a draft save succeeds if and only if cleaning and permissive validation meet no malformed part of the schema and the submitted references can be read and inserted, and leaves the draft indexed |
| CmsTheorems.WellTypedSavesNeedReferencesOnly | backend/apps/cms/services.py:1215-1283 | with a well-typed schema only the references decide |
| CmsContracts.SaveDraftStores | backend/apps/cms/services.py:1238-1275 | the draft column and the newest version hold the submitted document cleaned by the schema, in the same version inside the throttle window and in a new draft-save version outside; every other column, block and file stays |
| CmsContracts.StoredTextsAreClean | backend/apps/cms/services.py:1238-1253 | every rich text of the stored draft is the submitted one cleaned with its field's tags |
| CmsContracts.ReferencesArePlaced | backend/apps/cms/services.py:1855-1909 | a column cannot be indexed exactly if it holds no document or an id is neither text nor null; else its references are exactly the keys denoted by the texts at its places |
| CmsTheorems.TombstoneKeepsDraftIndex | backend/apps/cms/services.py:1539-1544 | with an agreeing draft index the tombstone branch succeeds; agreement holds again if and only if drafts spell the id canonically; each such draft loses just that file |
| CmsTheorems.UnsyncedWriteIndexedIff | backend/apps/cms/services.py:1186-1195 | a draft written without a sync stays indexed if and only if its references did not change |
| CmsDrafts.RollbackKeepsIndexIff | backend/apps/cms/services.py:1285-1336 | a rollback keeps the draft index in agreement if and only if the old snapshot has the draft's references |
| CmsDrafts.ImportedDrafts | backend/apps/cms/services.py:1147-1204 | a successful import of any document, with repeated, unknown, foreign or draftless entries, writes exactly the last draft given for each placement of the page |
| CmsDrafts.ImportKeepsIndexIff | backend/apps/cms/services.py:1147-1204 | it keeps the draft index in agreement if and only if each draft it gives has the references of the one it replaces |
| CmsDrafts.CleanUpKeepsDraftIndexIff | backend/apps/cms/services.py:1599-1633 | cleanup keeps it in agreement if and only if no draft references a file it removes |
| CmsWitnesses.CleanUpSkipsDraft | backend/apps/cms/services.py:1599-1633 | delete the file, publish, save the reference again, clean up: the draft index disagrees |
| CmsWitnesses.ImportSkipsIndex | backend/apps/cms/services.py:1186-1195 | an import after which the draft index disagrees |
| CmsWitnesses.RollbackSkipsIndex | backend/apps/cms/services.py:1312-1322 | save, save, roll back: the draft index disagrees |
| CmsTheorems.TombstoneMissesUnindexedDrafts | backend/apps/cms/services.py:1912-1931 | a draft still references a tombstoned file exactly if it did and no draft row said so |
| CmsDrafts.RollingBackTwice | backend/apps/cms/services.py:1285-1336 | on the tables: rolling back to a stored version and then to what was newest succeeds, makes the draft the newest snapshot and changes nothing else about the block |
| CmsContracts.RollBackStores | backend/apps/cms/services.py:1285-1336 | a rollback to any kept version puts its snapshot in the draft column and in a new rollback version, and changes nothing else |
| CmsDrafts.RestoredIffReferencesStand | backend/apps/cms/services.py:1285-1336 | in every reachable state that snapshot is the draft of before, null read as {}, if and only if every media reference of the snapshot still stands in it |
| CmsWitnesses.RoundTripLosesDraft | backend/apps/cms/services.py:1285-1336 | save, publish, delete the file, roll back, roll back: the draft of before is not restored |
| CmsTheorems.VersionsOverRuns | backend/apps/cms/services.py:1774-1852 | every reachable history is a contiguous block mirrored by its draft |
| CmsDrafts.NewestSnapshotIsTheDraft | backend/apps/cms/services.py:1802-1837 | in every run in which no deletion takes a media reference out of a block's draft, the newest snapshot of the block is its draft, null read as {} |
| CmsDrafts.StepKeepsSnapshotIff | backend/apps/cms/services.py:1539-1544 | any single call keeps that exactly if it is no tombstoning deletion of a file the indexed draft names |
| CmsDrafts.SavesAreSpacedInRuns | backend/apps/cms/services.py:1802-1837 | on the tables: in every run where only one user's draft saves write versions of a block, new versions of it are a window apart |
| CmsDrafts.SavesPerSpanInRuns | backend/apps/cms/services.py:1802-1837 | and k of them, when the block's saves span T seconds, satisfy (k-1)*W <= T, whenever other blocks are saved |
| CmsDrafts.NamedSavesOnly | backend/apps/cms/services.py:1285-1336 | the runs meant can be told by their calls: no import naming the block, publish of its page, rollback of it or draft save of another user |
| CmsDrafts.OthersWriteNoVersion | backend/apps/cms/services.py:1774-1852 | every other call leaves the block's versions as they are |
| CmsDrafts.ImportAnyDocument | backend/apps/cms/services.py:1147-1204 | importing any document succeeds if and only if each entry of a placement of the page can be validated; it writes the last draft given for each and one version for each entry, and nothing else |
| CmsContracts.ImportErrors | backend/apps/cms/services.py:1147-1204 | NotFound exactly for an unknown page, an exception exactly if an entry of a placement of the page cannot be validated |
| CmsContracts.ValidatableIff | backend/apps/cms/services.py:1178-1184 | a draft can be validated exactly if permissive validation judges it, or it is no object and no field is asked |
| CmsContracts.ImportVersions | backend/apps/cms/services.py:1186-1195 | the newest version of each placement named is an import of its draft by this user, now |
| CmsTheorems.ExportGivesDrafts | backend/apps/cms/services.py:1947-1980 | the document holds exactly the drafts of the page |
| CmsTheorems.ImportRestoresExport | backend/apps/cms/services.py:1113-1204 | whatever happens in between, importing an export restores every draft of the page with one version each and changes nothing else; it succeeds if and only if each draft is an object permissive validation can judge, or its schema has no fields |
| CmsWitnesses.NullDraftDoesNotImport | backend/apps/cms/services.py:1147-1204 | a fresh block with a field: its page exports and does not import |
| CmsStore.Store.SyncMediaUsage | backend/apps/cms/services.py:1855-1881 | delete then insert row by row is the specified sync |
| CmsStore.Store.UpdateDraftContent | backend/apps/cms/services.py:1215-1283 | a success stores the submitted document cleaned by the schema in the draft column and in the newest version, and changes no other column, block or file; else an error and no change |
| CmsStore.Store.RollbackContent | backend/apps/cms/services.py:1285-1336 | likewise, with NotFound for an unknown block or version |
| CmsStore.Store.ToggleVisibility | backend/apps/cms/services.py:1338-1380 | likewise; a required block cannot be hidden |
| CmsContracts.ToggleSets | backend/apps/cms/services.py:1338-1380 | hiding a required block is refused; else exactly that block's visible column is set |
| CmsStore.Store.ImportIntoPage | backend/apps/cms/services.py:1147-1204 | the loop over entries, undone as a whole by one failure |
| CmsStore.Store.CollectPublishErrors | backend/apps/cms/services.py:994-1020 | all issues of all checked blocks, labelled, before any write |
| CmsStore.Store.Publish | backend/apps/cms/services.py:960-1071 | validation pass, write pass, page row: afterwards every media field of a shown or required block names a file neither deleted nor tombstoned, and required fields are filled; or an error and no change |
| CmsStore.Store.Unpublish | backend/apps/cms/services.py:1073-1111 | takes exactly the page and its blocks offline and keeps the published copies; or an error and no change |
| CmsContracts.UnpublishTakesOffline | backend/apps/cms/services.py:1073-1111 | refused exactly for an unknown page or one not live; then the page and exactly its blocks are not live, and nothing else changes |
| CmsStore.Store.Upload | backend/apps/cms/services.py:1391-1474 | succeeds exactly for an allowed extension and type, and for a business within its quota and size limit, and then adds one file row with its storage object; else the first failing check's error and no change |
| CmsContracts.UploadOutcome | backend/apps/cms/services.py:1391-1474 | which limit or list decides the error, and the one row and object a success adds |
| CmsStore.Store.NullDraftMediaReferences | backend/apps/cms/services.py:1912-1931 | one save per usage row ends with every touched draft cleared once, even when a placement has several rows |
| CmsStore.Store.Delete | backend/apps/cms/services.py:1514-1565 | with a published use the file is tombstoned, the drafts its draft rows name are cleared and those rows go, without one it is soft-deleted; or an error and no change |
| CmsStore.Store.CleanupTombstoned | backend/apps/cms/services.py:1599-1633 | file by file in any order removes exactly the removable set and returns its size |
| CmsStore.Store.PruneContentVersions | backend/apps/cms/tasks.py:35-62 | the weekly task leaves every reachable state as it is |
| ChatInvariants.PostKeepsLog | backend/apps/chat/services.py:1722-1766 | a post, system messages included, takes number n+1 and the cache describes it |
| ChatInvariants.RewriteKeepsLog | backend/apps/chat/services.py:555-562 | rewriting a stored message keeps numbers and keeps the cache describing the newest message, preview included |
| ChatInvariants.CallKeepsInv | backend/apps/chat/services.py:360-1299 | every call keeps numbers 1..n, the cache, one row per identity, the member cap and the request quota |
| ChatTheorems.RemoveKeepsAdminIff | backend/apps/chat/services.py:919-995 | a removal leaves the group without an admin if and only if the only admin removes themselves |
| ChatWitnesses.SoleAdminAbdicates | backend/apps/chat/services.py:919-995 | a group of two whose creator removes themselves and leaves it without an admin |
| ChatWitnesses.RefusedRemovalIsOrderly | backend/apps/chat/services.py:938-943 | a plain member's refused attempt to remove themselves leaves the run orderly and the group led |
| ChatTheorems.DemotionOutcome | backend/apps/chat/services.py:1257-1299 | a demotion leaves the target a member and the group an admin; one refused by the rule was aimed at the only admin |
| ChatTheorems.AnswerRefusedIff | backend/apps/chat/services.py:690-777 | accepting or ignoring is refused exactly when no active row of the user is pending |
| ChatTheorems.LeaveLeavesAnAdmin | backend/apps/chat/services.py:999-1057 | after anyone leaves, a group still active has an admin, whatever it had before |
| ChatTheorems.SuccessorIsOldest | backend/apps/chat/services.py:1025-1046 | the successor is a longest-standing active participant and the only admin |
| ChatTheorems.CallKeepsLed | backend/apps/chat/policies.py:136-149 | a call keeps an active group led if and only if it is no abdication: the only admin removing themselves |
| ChatTheorems.AddedIsPlainMember | backend/apps/chat/services.py:785-915 | an addition makes one more active row, a plain member; every other identity's row stays |
| ChatTheorems.RemovedRowIsInactive | backend/apps/chat/services.py:919-995 | a removal deactivates exactly the named row |
| ChatTheorems.RejoiningReusesTheRow | backend/apps/chat/services.py:845-871 | someone who left comes back on the old row, watermark kept, as a member |
| ChatTheorems.PendingIsNeverReentered | backend/apps/chat/services.py:690-777 | no call makes a row pending, removes it or re-identifies it |
| ChatTheorems.MessagesAreNeverDropped | backend/apps/chat/services.py:360-639 | no call drops a message or changes its key, sender, number or time |
| ChatTheorems.MessageAfterCall | backend/apps/chat/services.py:487-639 | a call leaves a stored message alone unless it edits or deletes exactly that one, and then changes only its text and status |
| ChatShapes.CallShape | backend/apps/chat/services.py:360-1299 | every other call only appends messages of one poster, numbered on with unused keys, keeps every row's key, person and watermark, and makes no row pending |
| ChatTexts.TextsOverRuns | backend/apps/chat/services.py:487-639 | over every run a message shows its last text and keeps the first non-empty one it no longer shows; a deleted one shows nothing and keeps its last text |
| ChatTheorems.DeleteSubtractsCounted | backend/apps/chat/services.py:587-639 | a deletion takes one off a count exactly when the message was counted |
| ChatTheorems.EditKeepsUnread | backend/apps/chat/services.py:487-583 | an edit changes no unread count |
| Messenger.CreatedIsSound | backend/apps/chat/services.py:66-306 | a new conversation satisfies the invariant and is led |
| Messenger.CreatedPeople | backend/apps/chat/services.py:1648-1679 | it holds exactly the creator and the others, and someone is pending exactly in a global DM between unconnected users |
| Messenger.ReturnedPeopleIff | backend/apps/chat/selectors.py:107-129 | a stored DM that a creation returns holds exactly the creator and the other person if and only if these are two |
| ChatWitnesses.SelfAddressedDmIsAnothers | backend/apps/chat/selectors.py:107-129 | a DM addressed to oneself returns one's DM with somebody else |
| Messenger.RunKeepsInv | backend/apps/chat/services.py:66-1299 | in every reachable state every conversation has gap-free numbers, a faithful cache, one row per identity, the cap and the quota |
| Messenger.ActiveGroupsAreLed | backend/apps/chat/services.py:999-1299 | every active group has an active admin all along a run if and only if no call of it is an abdication |
| ChatManagers.ManagedIffSomeoneCan | backend/apps/chat/policies.py:136-149 | the guard lets some user through exactly if the group has an active admin of type user |
| ChatManagers.CallKeepsManagedIff | backend/apps/chat/services.py:919-1299 | a successful call on a group someone can manage leaves it so, unless it closes the group, if and only if it does not orphan it |
| ChatManagers.CreatedManagedIff | backend/apps/chat/services.py:199-256 | someone can manage a new group exactly if its creator is a user |
| ChatManagers.ManagedOverRuns | backend/apps/chat/services.py:66-1299 | someone can manage every open group all along a run if and only if no call of it orphans one and no group is created by an entity |
| ChatWitnesses.EntityGroupIsUnmanaged | backend/apps/chat/services.py:199-256 | a group created by a business is open and nobody can manage it |
| Messenger.PendingOverRuns | backend/apps/chat/tasks.py:18-44 | between any two points of a run no row re-enters PENDING and no message is lost |
| Messenger.OneDmPerPair | backend/apps/chat/services.py:114-133 | over every run there is at most one DM per scope and pair of people, all global conversations being in one scope, if and only if no creation makes a global DM for two people who have one stored with a scope id |
| Messenger.SecondDmIffRepeats | backend/apps/chat/services.py:114-133 | a new DM is the pair's second in its scope exactly if it is global and a global DM of the two is stored with a scope id |
| Messenger.UnscopedNeverRepeats | backend/apps/chat/services.py:114-133 | callers that give global conversations no scope id never get a second DM |
| Messenger.ScopedGlobalDmIsDuplicated | backend/apps/chat/selectors.py:101-105 | two creations of a pair's global DM, the first with a scope id, the second with the same, another or none, yield two |
| Inbox.RunKeepsKeysApart | backend/apps/chat/models.py:270-275 | in every reachable state no message key is in two conversations |
| Inbox.NumberOfStored | backend/apps/chat/selectors.py:295-305 | a watermark resolves to the number of the message it names |
| Inbox.SeeingTheNewestReadsAll | backend/apps/chat/services.py:646-664 | marking the newest message seen leaves 0 unread |
| Inbox.SendAddsOneForOthers | backend/apps/chat/selectors.py:268-307 | a message adds exactly 1 for every active participant but its sender identity, unless the watermark is from another conversation and ahead of this one; 0 for the sender |
| Inbox.OwnFloor | backend/apps/chat/selectors.py:295-305 | a watermark from the conversation itself is never ahead of it |
| Inbox.PostsCountForOthers | backend/apps/chat/services.py:1754-1766 | so does every message any call posts, system messages of membership calls included, for everyone but the identity it is posted as |
| Inbox.PostedCount | backend/apps/chat/services.py:785-1299 | sends, additions and removals post one message, leaving one or two, promotions and demotions one if they change anything |
| Inbox.DeleteTakesOneWhereCounted | backend/apps/chat/selectors.py:268-307 | a deletion subtracts 1 exactly where it was counted, in the count users see, whatever conversation the watermark is from |
| Inbox.TallyKeepsTotals | backend/apps/chat/selectors.py:345-363 | adding a conversation's count to its scope keeps every scope total a sum and the grand total the sum of all counts |
| ChatContracts.SendRefusedIff | backend/apps/chat/services.py:378-417 | each error exactly when its check is the first to fail, the request cap at exactly the allowed number; whatever passes all is sent |
| ChatContracts.SentMessage | backend/apps/chat/services.py:419-448 | the log grows by the message with every field as submitted, numbered next, naming the acting user for an entity; the cache shows its first characters |
| ChatContracts.EditOutcome | backend/apps/chat/services.py:487-583 | denied to all but the author, refused when deleted or after the window, invalid when blank or too long; else that message alone shows the text, as edited, and keeps the first it had |
| ChatContracts.DeleteOutcome | backend/apps/chat/policies.py:180-205 | denied exactly to all but the author, an active admin of the group and staff; else that message alone shows nothing and keeps its text aside |
| ChatContracts.SeenOutcome | backend/apps/chat/services.py:646-664 | not found exactly without an active row of the identity; else the watermark of one such row alone is set |
| ChatContracts.AnswerOutcome | backend/apps/chat/services.py:690-777 | not found exactly without a pending active row of the user; else one such row alone has the answer |
| ChatContracts.PromoteOutcome | backend/apps/chat/services.py:1223-1253 | denied exactly without an active admin row of the acting user; else exactly the newest active row with the id is promoted, and announced unless it was an admin's |
| ChatContracts.DemoteOutcome | backend/apps/chat/services.py:1257-1299 | likewise, and refused by the rule exactly for the only admin |
| ChatContracts.AddOutcome | backend/apps/chat/services.py:785-915 | each error exactly when its check is the first to fail, on rows; else the first inactive row of the identity comes back as a member or a new row is added, and announced |
| ChatContracts.RemoveOutcome | backend/apps/chat/services.py:919-995 | only an active admin of the group removes, and exactly the active row with the key, announced |
| ChatContracts.LeaveOutcome | backend/apps/chat/services.py:999-1057 | anyone active leaves; the group closes when nobody is left, and with members but no admin left one who joined first is promoted; the announcements in order |
| MessengerContracts.CreateOutcome | backend/apps/chat/services.py:66-306 | each error exactly when its check is the first to fail, the stored DM of the two on rows, or the new conversation with every row as specified |
| MessengerContracts.SeenLeavesOthers | backend/apps/chat/services.py:646-664 | marking a message seen leaves the watermark and unread count of every other identity, and everyone's in other conversations, as they were |
| MessengerContracts.UnreadCountMeans | backend/apps/chat/selectors.py:268-307 | the count is the number of others' visible messages above the watermark's number, and 0 without an active row |
| MessengerContracts.FloorMeans | backend/apps/chat/selectors.py:295-305 | the watermark's number is that of the stored message it names, and 0 if it names none |
| MessengerContracts.PersonalInbox | backend/apps/chat/selectors.py:326-336 | the records are exactly the conversations with an active row of the user that is not pending, each once |
| MessengerContracts.EntityInboxes | backend/apps/chat/selectors.py:366-376 | the records are exactly the global conversations and entities with an active row there, each once |
| ChatStore.Store.CreateConversation | backend/apps/chat/services.py:66-306 | returns the existing DM, or creates rows under the unique constraint, or fails with the first failing check's error and no change; a DM of two people, returned or new, holds exactly these |
| ChatStore.Store.AddParticipants | backend/apps/chat/models.py:181-187 | inserts succeed if and only if the people are distinct |
| ChatStore.Store.SendMessage | backend/apps/chat/services.py:360-483 | the log grows by exactly this message, numbered next, and the cache describes it; or the first failing check's error, the content checks coming before the conversation's, and no change |
| ChatStore.Store.SendRefusal | backend/apps/chat/services.py:378-417 | the checks before the insert, in order: whatever passes them is inserted |
| ChatStore.Store.EditMessage | backend/apps/chat/services.py:487-583 | exactly the named message shows the new text as edited; or an error and no change |
| ChatStore.Store.DeleteMessage | backend/apps/chat/services.py:587-639 | exactly the named message counts as deleted and shows nothing, and deleting it again changes nothing; or an error and no change |
| ChatStore.Store.UpdateSeenWatermark | backend/apps/chat/services.py:646-664 | sets the watermark of one active row of that identity; everybody else's watermark and unread count stay, here and in every other conversation; or an error and no change |
| ChatStore.Store.AddParticipant | backend/apps/chat/services.py:785-915 | by an active admin of the group alone and below the cap: one more active row, a plain member of that identity, every other row as before, and its announcement; denied exactly to others; or an error and no change |
| ChatStore.Store.RemoveParticipant | backend/apps/chat/services.py:919-995 | by an active admin of the group alone: nobody is active under that row any more; or an error and no change |
| ChatStore.Store.LeaveConversation | backend/apps/chat/services.py:999-1057 | the user is no longer active and the group is led or closed; or an error and no change |
| ChatStore.Store.PromoteToAdmin | backend/apps/chat/services.py:1223-1253 | by an active admin of the group alone: the newest active row with that id, and no other, becomes an admin's; denied exactly to others; or an error and no change |
| ChatStore.Store.DemoteFromAdmin | backend/apps/chat/services.py:1257-1299 | by an active admin of the group alone: the newest active row with that id, and no other, becomes a member's, and the group has an admin; denied exactly to others; a refusal by the rule means the target is the only admin; errors change nothing |
| ChatStore.Store.AnswerRequest | backend/apps/chat/services.py:690-777 | exactly one row of the user, pending before, has the answer; or an error and no change |
| ChatStore.Store.ExpireStaleRequests | backend/apps/chat/tasks.py:18-44 | every conversation's stale pending rows, and only those, lose their request |
| ChatStore.Store.GetUnreadCount | backend/apps/chat/selectors.py:268-307 | counts visible messages of others above the watermark |
| ChatStore.Store.GetUnreadCountsByScope | backend/apps/chat/selectors.py:310-422 | each scope and entity total is the sum of its conversations' counts, and the personal totals sum to the sum over all non-pending rows |
| Paging.OlderPage | backend/apps/chat/selectors.py:136-163 | a page below any cursor is the next lower numbers, newest first, up to the page size |
| Paging.NewerPage | backend/apps/chat/selectors.py:136-163 | a page above any cursor is the next messages in ascending order |
| Paging.WalkReturnsEveryMessageOnce | backend/apps/chat/selectors.py:136-163 | following the cursor returns every message of the first request exactly once, newest first, while the log grows |
| PagingOverRuns.RunsServeGrowingLogs | backend/apps/chat/services.py:360-639 | every run serves such a log, however calls fall between requests |
| SequenceRace.ReadsNext | backend/apps/chat/services.py:1722-1727 | a read of max+1 sees everything committed and the reader's own rows |
| SequenceRace.InsertTakesNext | backend/apps/chat/models.py:270-275 | an accepted insert takes the next number, and nobody else holds rows |
| SequenceRace.CommittedNumbersAreGapFree | backend/apps/chat/services.py:419-434 | under every interleaving the committed numbers are exactly 1..n, each once, and the cache names n |
| SequenceRace.WhoAborts | backend/apps/chat/models.py:270-275 | an insert aborts exactly when its number has been taken since the read; whoever it waits for can proceed |

## Left out

- Issue messages and error texts: issues carry their key and kind only.
- Aliasing: content trees are values that the walks rebuild, so sharing between a stored snapshot and a dict changed in place is not captured.
- The key order JSON columns come back in: objects keep the order they were written in.
- A `validation` entry that is null or no dict: rules are read one by one, as absent, given or malformed.
- Field definitions that are no dicts, and field keys that are numbers or booleans: keys are strings, or missing.
- Creating placements, pages and templates, `delete_page`, and changing a schema: the set of placements and their schemas is fixed in a run.
- Import documents with missing keys or with placement ids that are no UUIDs (both raise), and the warnings of permissive validation, which change no table.
- `field_key` is limited to 100 characters as in the table; the preview column's own limit is not, so a configured preview length is taken to fit it.
- Delivered watermarks, muting, blocking, reactions, attachment rows, group renaming and the shared media gallery: attachments enter only as linkable or not.
- Edits, deletions and membership changes racing with sends: `SequenceRace` covers concurrent inserts, everything else is serial.
- Calls without an actor, and the moderation of messages by staff beyond the deletion flag.
- Notifications, audit records, logs, broadcasts, presence, rate limits and task scheduling.
- File storage, image probing, media folders, API keys, full-text search: uploads add a row and an object.
- SanitizeIsIdempotent: distinct keys at every level are sufficient, not necessary; `IdempotentIffSettles` is the exact form.
- SendAddsOneForOthers, PostsCountForOthers, DeleteTakesOneWhereCounted: the watermark is unset or a key handed out so far; a watermark set ahead of time to the key a later message will get is not covered, because keys are random.
- RejoiningReusesTheRow: states the row; the request status it had before is kept as the code keeps it.
