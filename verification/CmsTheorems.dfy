// The promises of the content engine, over single calls and over whole runs.

module CmsTheorems {
  import opened Wrappers
  import opened JsonTree
  import opened MediaRefs
  import opened Schemas
  import opened Validator
  import opened Versions
  import opened Cms
  import opened CmsInvariants

  // ------------------------------------------ published content keeps its files

  predicate References(codec: Codec, content: Json, f: Uuid) {
    var refs := RefsOf(codec, content);
    refs.Refs? && exists r <- refs.refs :: r.id == f
  }

  lemma UsedIsReferenced(env: Env, db: Db, f: Uuid)
    requires PublishedIndexed(env, db) && Rooted(db) && Used(db.usages, f, PublishedLayer)
    ensures exists b <- db.blocks :: References(env.codec, db.blocks[b].published, f)
  {
    var u :| u in db.usages && u.file == f && u.layer == PublishedLayer;
    assert Indexed(env, db.usages, u.block, db.blocks[u.block].published, PublishedLayer);
    FilterMembers(db.usages, At(u.block, PublishedLayer), u);
    var refs := RefsOf(env.codec, db.blocks[u.block].published).refs;
    var i :| 0 <= i < |refs| && Rows(u.block, refs, PublishedLayer)[i] == u;
    assert refs[i] in refs;
  }

  lemma ReferencedIsUsed(env: Env, db: Db, b: BlockId, f: Uuid)
    requires b in db.blocks && Indexed(env, db.usages, b, db.blocks[b].published, PublishedLayer)
    requires References(env.codec, db.blocks[b].published, f)
    ensures Used(db.usages, f, PublishedLayer)
  {
    var refs := RefsOf(env.codec, db.blocks[b].published).refs;
    var i :| 0 <= i < |refs| && refs[i].id == f;
    var u := Rows(b, refs, PublishedLayer)[i];
    FilterMembers(db.usages, At(b, PublishedLayer), u);
  }

  /** The published-layer rows of a file exist exactly while some published content references it. */
  lemma UsedIffReferenced(env: Env, db: Db, f: Uuid)
    requires Inv(env, db)
    ensures Used(db.usages, f, PublishedLayer)
            <==> exists b <- db.blocks :: References(env.codec, db.blocks[b].published, f)
  {
    if Used(db.usages, f, PublishedLayer) {
      UsedIsReferenced(env, db, f);
    }
    if b :| b in db.blocks && References(env.codec, db.blocks[b].published, f) {
      ReferencedIsUsed(env, db, b, f);
    }
  }

  /** Same placements, schemas and published columns. */
  ghost predicate Calm(db: Db, d: Db) {
    && SamePlaces(db, d)
    && forall b <- db.blocks ::
      d.blocks[b].schema == db.blocks[b].schema && d.blocks[b].published == db.blocks[b].published
  }

  ghost predicate SameFiles(db: Db, d: Db) {
    d.files == db.files && d.stored == db.stored
  }

  lemma {:induction false} ImportIsCalm(env: Env, db: Db, page: PageId, data: seq<ImportBlock>, user: UserId, now: int)
    requires ImportBlocks(env, db, page, data, user, now).Ok? && db.histories.Keys == db.blocks.Keys
    ensures
      var d := ImportBlocks(env, db, page, data, user, now).value;
      Calm(db, d) && SameFiles(db, d)
  {
    if data != [] {
      var before := data[..|data| - 1];
      ImportIsCalm(env, db, page, before, user, now);
      ImportBlockIsCalm(env, ImportBlocks(env, db, page, before, user, now).value, page, data[|data| - 1], user, now);
    }
  }

  lemma ImportBlockIsCalm(env: Env, db: Db, page: PageId, data: ImportBlock, user: UserId, now: int)
    requires ImportBlockInto(env, db, page, data, user, now).Ok? && db.histories.Keys == db.blocks.Keys
    ensures
      var d := ImportBlockInto(env, db, page, data, user, now).value;
      Calm(db, d) && SameFiles(db, d)
  {
  }

  lemma DraftCallsAreCalm(env: Env, db: Db, b: BlockId, draft: Json, h: History)
    requires b in db.blocks && b in db.histories
    ensures Calm(db, WithDraft(db, b, draft, h)) && SameFiles(db, WithDraft(db, b, draft, h))
  {
  }

  lemma ToggleIsCalm(env: Env, db: Db, b: BlockId, visible: bool)
    requires Toggle(db, b, visible).Ok?
    ensures
      var d := Toggle(db, b, visible).value;
      Calm(db, d) && SameFiles(db, d)
  {
  }

  lemma UnpublishIsCalm(env: Env, db: Db, page: PageId)
    requires UnpublishPage(db, page).Ok?
    ensures
      var d := UnpublishPage(db, page).value;
      Calm(db, d) && SameFiles(db, d)
  {
  }

  lemma PruneIsCalm(env: Env, db: Db)
    ensures Calm(db, PruneAll(env, db)) && SameFiles(db, PruneAll(env, db))
  {
  }

  lemma SaveDraftIsCalm(env: Env, db: Db, b: BlockId, content: Dict, user: UserId, now: int)
    requires SaveDraft(env, db, b, content, user, now).Ok?
    ensures
      var d := SaveDraft(env, db, b, content, user, now).value;
      Calm(db, d) && SameFiles(db, d)
  {
    var draft := Obj(Sanitizer.Sanitize(env.lib, db.blocks[b].schema, content));
    DraftCallsAreCalm(env, db, b, draft, Save(db.histories[b], draft, user, now, env.window, env.keep));
  }

  lemma RollBackIsCalm(env: Env, db: Db, b: BlockId, number: nat, user: UserId, now: int)
    requires RollBackTo(env, db, b, number, user, now).Ok?
    ensures
      var d := RollBackTo(env, db, b, number, user, now).value;
      Calm(db, d) && SameFiles(db, d)
  {
    var r := RollBack(db.histories[b], number, user, now, env.keep).value;
    DraftCallsAreCalm(env, db, b, r.0, r.1);
  }

  lemma ClearDraftsIsCalm(env: Env, db: Db, f: Uuid)
    requires ClearDrafts(env, db, f).Ok?
    ensures Calm(db, ClearDrafts(env, db, f).value)
  {
  }

  lemma DeleteFileIsCalm(env: Env, db: Db, f: Uuid)
    requires Listed(db) && DeleteFile(env, db, f).Ok?
    ensures Calm(db, DeleteFile(env, db, f).value)
  {
    if Used(db.usages, f, PublishedLayer) {
      ClearDraftsIsCalm(env, db.(files := db.files[f := db.files[f].(tombstoned := true)]), f);
    }
  }

  /** Nothing but a publish changes a published column, and only media calls change files. */
  lemma OtherCallsAreCalm(env: Env, db: Db, ev: Event)
    requires Listed(db) && !ev.PublishEv?
    ensures Calm(db, After(env, db, ev))
    ensures ev.UploadEv? || ev.DeleteFileEv? || ev.CleanUpEv? || SameFiles(db, After(env, db, ev))
  {
    if Attempt(env, db, ev).Ok? {
      match ev
      case SaveDraftEv(b, content, user, now) => SaveDraftIsCalm(env, db, b, content, user, now);
      case RollBackEv(b, number, user, now) => RollBackIsCalm(env, db, b, number, user, now);
      case ImportEv(page, data, user, now) => ImportIsCalm(env, db, page, data, user, now);
      case DeleteFileEv(f) => DeleteFileIsCalm(env, db, f);
      case UploadEv(f, _) =>
      case CleanUpEv(broken) =>
      case ToggleEv(b, visible) => ToggleIsCalm(env, db, b, visible);
      case UnpublishEv(page) => UnpublishIsCalm(env, db, page);
      case PruneEv => PruneIsCalm(env, db);
    }
  }

  /** The placements of `ids` on the page are published in `d`, all else is as in `db`. */
  ghost predicate PublishedUpTo(env: Env, db: Db, d: Db, page: PageId, ids: seq<BlockId>, user: UserId, now: int) {
    && d.files == db.files && d.stored == db.stored && d.pages == db.pages && d.order == db.order
    && d.blocks.Keys == db.blocks.Keys && d.histories.Keys == db.histories.Keys == db.blocks.Keys
    && forall b <- db.blocks ::
         if b in ids && db.blocks[b].page == page then
           && d.blocks[b] == PublishedForm(db.blocks[b])
           && d.histories[b] == Create(db.histories[b], db.blocks[b].draft, Publish, user, now, env.keep)
         else d.blocks[b] == db.blocks[b] && d.histories[b] == db.histories[b]
  }

  lemma PublishOneMore(env: Env, db: Db, d: Db, page: PageId, before: seq<BlockId>, b: BlockId, user: UserId, now: int)
    requires PublishedUpTo(env, db, d, page, before, user, now) && b !in before
    requires b in db.blocks && db.blocks[b].page == page && PublishBlock(env, d, b, user, now).Ok?
    ensures PublishedUpTo(env, db, PublishBlock(env, d, b, user, now).value, page, before + [b], user, now)
  {
    assert d.blocks[b] == db.blocks[b] && d.histories[b] == db.histories[b];
  }

  /** What the write loop of a publish does to every placement. */
  lemma {:induction false} PublishEffect(env: Env, db: Db, page: PageId, ids: seq<BlockId>, user: UserId, now: int)
    requires PublishBlocks(env, db, page, ids, user, now).Ok?
    requires forall i, j :: 0 <= i < j < |ids| ==> ids[i] != ids[j]
    requires db.histories.Keys == db.blocks.Keys
    ensures PublishedUpTo(env, db, PublishBlocks(env, db, page, ids, user, now).value, page, ids, user, now)
  {
    if ids != [] {
      var before, last := ids[..|ids| - 1], ids[|ids| - 1];
      PublishEffect(env, db, page, before, user, now);
      assert ids == before + [last];
      assert last !in before;
      var d := PublishBlocks(env, db, page, before, user, now).value;
      if last in db.blocks && db.blocks[last].page == page {
        PublishOneMore(env, db, d, page, before, last, user, now);
      } else {
        assert PublishedUpTo(env, db, d, page, ids, user, now);
      }
    }
  }

  /** The block's draft is its published copy, validated against the current schema, with one more version. */
  ghost predicate Republished(db: Db, d: Db, b: BlockId) {
    && b in db.blocks && b in d.blocks && b in db.histories && b in d.histories
    && d.blocks[b].published == d.blocks[b].draft == db.blocks[b].draft
    && d.blocks[b].live && d.blocks[b].validated == db.blocks[b].schemaVersion
    && d.histories[b].created == db.histories[b].created + 1
  }

  /**
   * A successful publish copies every draft of the page to the published column,
   * hidden blocks included, and touches no other page and no draft.
   */
  lemma PublishCopiesDrafts(env: Env, db: Db, page: PageId, user: UserId, now: int, b: BlockId)
    requires Listed(db) && PublishPage(env, db, page, user, now).Ok? && b in db.blocks
    ensures
      var d := PublishPage(env, db, page, user, now).value;
      && SameFiles(db, d) && b in d.blocks
      && if db.blocks[b].page == page then Republished(db, d, b) else d.blocks[b] == db.blocks[b]
  {
    var written := PublishBlocks(env, db, page, db.order, user, now);
    PublishIsWrite(env, db, page, user, now);
    PublishEffect(env, db, page, db.order, user, now);
    PublishedRow(env, db, written.value, page, user, now, b);
  }

  lemma PublishIsWrite(env: Env, db: Db, page: PageId, user: UserId, now: int)
    requires PublishPage(env, db, page, user, now).Ok?
    ensures
      var written := PublishBlocks(env, db, page, db.order, user, now);
      written.Ok?
      && PublishPage(env, db, page, user, now).value
         == written.value.(pages := written.value.pages[page := Page(true, Some(now))])
  {
  }

  lemma PublishedRow(env: Env, db: Db, d: Db, page: PageId, user: UserId, now: int, b: BlockId)
    requires PublishedUpTo(env, db, d, page, db.order, user, now) && b in db.blocks && b in db.order
    ensures SameFiles(db, d) && b in d.blocks
    ensures if db.blocks[b].page == page then Republished(db, d, b) else d.blocks[b] == db.blocks[b]
  {
  }

  /** No call removes, unstores or soft-deletes a file that some published content references. */
  lemma NoStepTakesAPublishedFile(env: Env, db: Db, ev: Event, b: BlockId, f: Uuid)
    requires Inv(env, db) && b in db.blocks && References(env.codec, db.blocks[b].published, f)
    ensures f in db.files && f in db.stored
    ensures
      var d := After(env, db, ev);
      f in d.files && f in d.stored && d.files[f].deleted == db.files[f].deleted
  {
    UsedIffReferenced(env, db, f);
    if ev.PublishEv? {
      if Attempt(env, db, ev).Ok? {
        PublishCopiesDrafts(env, db, ev.page, ev.user, ev.now, b);
      }
    } else if ev.UploadEv? || ev.DeleteFileEv? || ev.CleanUpEv? {
      MediaCallsSpareUsed(env, db, ev, f);
    } else {
      OtherCallsAreCalm(env, db, ev);
    }
  }

  lemma MediaCallsSpareUsed(env: Env, db: Db, ev: Event, f: Uuid)
    requires ev.UploadEv? || ev.DeleteFileEv? || ev.CleanUpEv?
    requires Used(db.usages, f, PublishedLayer) && f in db.files && f in db.stored
    ensures
      var d := After(env, db, ev);
      f in d.files && f in d.stored && d.files[f].deleted == db.files[f].deleted
  {
  }

  /** In every reachable state the files of published content have their rows and storage objects. */
  lemma PublishedFilesServable(env: Env, db: Db, evs: seq<Event>, b: BlockId, f: Uuid)
    requires Initial(db)
    requires b in Run(env, db, evs).blocks && References(env.codec, Run(env, db, evs).blocks[b].published, f)
    ensures f in Run(env, db, evs).files && f in Run(env, db, evs).stored
  {
    InitialHoldsInv(env, db);
    RunKeepsInv(env, db, evs);
    NoStepTakesAPublishedFile(env, Run(env, db, evs), PruneEv, b, f);
  }

  /** Deleting a file tombstones it exactly when some published content references it, else soft-deletes it. */
  lemma DeleteTombstonesIffPublished(env: Env, db: Db, f: Uuid)
    requires Inv(env, db) && DeleteFile(env, db, f).Ok?
    ensures
      var file := DeleteFile(env, db, f).value.files[f];
      var published := exists b <- db.blocks :: References(env.codec, db.blocks[b].published, f);
      && file.deleted == !published
      && (published ==> file.tombstoned)
  {
    UsedIffReferenced(env, db, f);
  }

  /** Cleanup removes exactly the tombstoned files that nothing published references, bar storage errors. */
  lemma CleanUpRemovesExactly(env: Env, db: Db, broken: set<Uuid>, f: Uuid)
    requires Inv(env, db) && f in db.files
    ensures f !in CleanUp(db, broken).files
            <==> && db.files[f].tombstoned && !db.files[f].deleted && f !in broken
                 && !exists b <- db.blocks :: References(env.codec, db.blocks[b].published, f)
    ensures f !in CleanUp(db, broken).files <==> f !in CleanUp(db, broken).stored
    ensures f !in CleanUp(db, broken).files ==> forall u <- CleanUp(db, broken).usages :: u.file != f
  {
    UsedIffReferenced(env, db, f);
    var gone := Removable(db, broken);
    forall u | u in CleanUp(db, broken).usages ensures u.file !in gone {
      FilterMembers(db.usages, NotAnyOf(gone), u);
    }
  }

  // ------------------------------------------------- objects out of reach

  lemma PublishKeepsFiles(env: Env, db: Db, page: PageId, user: UserId, now: int)
    requires Listed(db) && PublishPage(env, db, page, user, now).Ok?
    ensures SameFiles(db, PublishPage(env, db, page, user, now).value)
  {
    PublishIsWrite(env, db, page, user, now);
    PublishEffect(env, db, page, db.order, user, now);
  }

  /** The file is soft-deleted, with its row and its object still there. */
  predicate SoftDeleted(db: Db, f: Uuid) {
    f in db.files && db.files[f].deleted && f in db.stored
  }

  lemma MediaCallsKeepSoftDeleted(env: Env, db: Db, ev: Event, f: Uuid)
    requires ev.UploadEv? || ev.DeleteFileEv? || ev.CleanUpEv?
    requires SoftDeleted(db, f)
    ensures SoftDeleted(After(env, db, ev), f)
  {
  }

  /** No call undoes a soft deletion or removes the object. */
  lemma CallKeepsSoftDeleted(env: Env, db: Db, ev: Event, f: Uuid)
    requires Listed(db) && SoftDeleted(db, f)
    ensures SoftDeleted(After(env, db, ev), f)
  {
    if ev.PublishEv? {
      if PublishPage(env, db, ev.page, ev.user, ev.now).Ok? {
        PublishKeepsFiles(env, db, ev.page, ev.user, ev.now);
      }
    } else if ev.UploadEv? || ev.DeleteFileEv? || ev.CleanUpEv? {
      MediaCallsKeepSoftDeleted(env, db, ev, f);
    } else {
      OtherCallsAreCalm(env, db, ev);
    }
  }

  lemma {:induction false} SoftDeletedForGood(env: Env, db: Db, evs: seq<Event>, f: Uuid)
    requires Inv(env, db) && SoftDeleted(db, f)
    ensures SoftDeleted(Run(env, db, evs), f)
  {
    if evs != [] {
      var init := evs[..|evs| - 1];
      SoftDeletedForGood(env, db, init, f);
      RunKeepsInv(env, db, init);
      CallKeepsSoftDeleted(env, Run(env, db, init), evs[|evs| - 1], f);
    }
  }

  lemma CleanUpRuns(env: Env, db: Db, broken: set<Uuid>)
    ensures Run(env, db, [CleanUpEv(broken)]) == CleanUp(db, broken)
  {
    assert [CleanUpEv(broken)][..0] == [];
    assert Run(env, db, [CleanUpEv(broken)][..0]) == db;
  }

  /**
   * The object of a tombstoned file that no published content references stays stored
   * whatever happens if and only if the file is soft-deleted too: cleanup does not see it.
   */
  lemma OutOfReachIff(env: Env, db: Db, f: Uuid)
    requires Inv(env, db) && f in db.files && db.files[f].tombstoned
    requires !exists b <- db.blocks :: References(env.codec, db.blocks[b].published, f)
    ensures (forall evs :: f in Run(env, db, evs).stored) <==> db.files[f].deleted
  {
    if db.files[f].deleted {
      forall evs ensures f in Run(env, db, evs).stored {
        SoftDeletedForGood(env, db, evs, f);
      }
    } else {
      CleanUpRemovesExactly(env, db, {}, f);
      CleanUpRuns(env, db, {});
    }
  }

  /**
   * Deleting a file that no published content references soft-deletes it, tombstoned or not,
   * and its object stays stored whatever happens next.
   */
  lemma SoftDeletionStrands(env: Env, db: Db, f: Uuid, evs: seq<Event>)
    requires Inv(env, db) && f in db.files && !db.files[f].deleted
    requires !exists b <- db.blocks :: References(env.codec, db.blocks[b].published, f)
    ensures DeleteFile(env, db, f).Ok?
    ensures SoftDeleted(Run(env, DeleteFile(env, db, f).value, evs), f)
  {
    UsedIffReferenced(env, db, f);
    DeleteFileKeepsInv(env, db, f);
    SoftDeletedForGood(env, DeleteFile(env, db, f).value, evs, f);
  }

  /**
   * A draft save succeeds exactly when neither cleaning nor permissive validation meets a
   * malformed part of the schema, and the submitted content's references can be read and
   * their rows inserted. The stored draft then has the same references, and is indexed.
   */
  lemma SavedDraftIsIndexed(env: Env, db: Db, b: BlockId, content: Dict, user: UserId, now: int)
    requires b in db.blocks && b in db.histories
    ensures
      var schema := db.blocks[b].schema;
      SaveDraft(env, db, b, content, user, now).Ok?
      <==> && Sanitizer.Cleanable(schema, content) && Judgeable(schema, Sanitizer.Sanitize(env.lib, schema, content))
           && Extract(env.codec, content).Refs? && Insertable(db.files, Extract(env.codec, content).refs)
    ensures SaveDraft(env, db, b, content, user, now).Ok? ==>
      var d := SaveDraft(env, db, b, content, user, now).value;
      && Indexed(env, d.usages, b, d.blocks[b].draft, DraftLayer)
      && RefsOf(env.codec, d.blocks[b].draft) == Extract(env.codec, content)
      && d.blocks[b].published == db.blocks[b].published
  {
    var clean := Sanitizer.Sanitize(env.lib, db.blocks[b].schema, content);
    Sanitizer.SanitizeKeepsReferences(env.lib, env.codec, db.blocks[b].schema, content);
    if clean == [] {
      assert Sites(clean, "") == [];
    }
    var h := Save(db.histories[b], Obj(clean), user, now, env.window, env.keep);
    if SaveDraft(env, db, b, content, user, now).Ok? {
      SyncKeeps(env, WithDraft(db, b, Obj(clean), h), b, Obj(clean), DraftLayer);
    }
  }

  /** With a well-typed schema only the references decide whether a draft is saved. */
  lemma WellTypedSavesNeedReferencesOnly(env: Env, db: Db, b: BlockId, content: Dict, user: UserId, now: int)
    requires b in db.blocks && b in db.histories
    requires WellTyped(db.blocks[b].schema) && Sanitizer.TagsWellTyped(db.blocks[b].schema)
    ensures SaveDraft(env, db, b, content, user, now).Ok?
            <==> Extract(env.codec, content).Refs? && Insertable(db.files, Extract(env.codec, content).refs)
  {
    var schema := db.blocks[b].schema;
    Sanitizer.WellTypedIsCleanable(schema, content);
    WellTypedIsJudgeable(schema, Sanitizer.Sanitize(env.lib, schema, content));
    SavedDraftIsIndexed(env, db, b, content, user, now);
  }

  // ----------------------------------------- published is the last published draft

  /** The draft of `b` just before the last successful publish of its page; null before the first. */
  function LastPublishedDraft(env: Env, db: Db, evs: seq<Event>, b: BlockId): Json {
    if evs == [] then Null
    else
      var init, last := evs[..|evs| - 1], evs[|evs| - 1];
      var before := Run(env, db, init);
      if last.PublishEv? && Attempt(env, before, last).Ok? && b in before.blocks && before.blocks[b].page == last.page
      then before.blocks[b].draft
      else LastPublishedDraft(env, db, init, b)
  }

  /** Only a publish of its page changes a published column. */
  lemma OnlyPublishChangesPublished(env: Env, db: Db, ev: Event, b: BlockId)
    requires Inv(env, db) && b in db.blocks
    ensures b in After(env, db, ev).blocks
    ensures After(env, db, ev).blocks[b].published
            == if ev.PublishEv? && Attempt(env, db, ev).Ok? && db.blocks[b].page == ev.page
               then db.blocks[b].draft else db.blocks[b].published
  {
    if ev.PublishEv? {
      if Attempt(env, db, ev).Ok? {
        PublishCopiesDrafts(env, db, ev.page, ev.user, ev.now, b);
      }
    } else {
      OtherCallsAreCalm(env, db, ev);
      assert After(env, db, ev).blocks[b].published == db.blocks[b].published;
    }
  }

  lemma {:induction false} PublishedIsLastPublishedDraft(env: Env, db: Db, evs: seq<Event>, b: BlockId)
    requires Initial(db) && b in db.blocks
    ensures b in Run(env, db, evs).blocks
    ensures Run(env, db, evs).blocks[b].published == LastPublishedDraft(env, db, evs, b)
  {
    if evs != [] {
      var init := evs[..|evs| - 1];
      PublishedIsLastPublishedDraft(env, db, init, b);
      InitialHoldsInv(env, db);
      RunKeepsInv(env, db, init);
      OnlyPublishChangesPublished(env, Run(env, db, init), evs[|evs| - 1], b);
    }
  }

  // --------------------------------------------------------- the publish gate

  lemma {:induction false} NoIssuesMeansChecked(env: Env, db: Db, page: PageId, ids: seq<BlockId>)
    ensures PublishIssues(env, db, page, ids) == Ok([])
            <==> forall b <- ids :: b in db.blocks && Checked(db.blocks[b], page) ==>
                   StrictIssues(env, db.files, db.blocks[b]) == Ok([])
  {
    if ids != [] {
      var before, b := ids[..|ids| - 1], ids[|ids| - 1];
      NoIssuesMeansChecked(env, db, page, before);
      NoIssuesStep(env, db, page, ids);
      assert forall x :: x in ids <==> x in before || x == b;
    }
  }

  lemma NoIssuesStep(env: Env, db: Db, page: PageId, ids: seq<BlockId>)
    requires ids != []
    ensures
      var b := ids[|ids| - 1];
      PublishIssues(env, db, page, ids) == Ok([])
      <==> && PublishIssues(env, db, page, ids[..|ids| - 1]) == Ok([])
           && (b in db.blocks && Checked(db.blocks[b], page) ==> StrictIssues(env, db.files, db.blocks[b]) == Ok([]))
  {
    var b, issues := ids[|ids| - 1], PublishIssues(env, db, page, ids[..|ids| - 1]);
    if issues.Ok? && b in db.blocks && Checked(db.blocks[b], page) {
      var found := StrictIssues(env, db.files, db.blocks[b]);
      if found.Ok? {
        assert |issues.value + Labelled(b, found.value)| == |issues.value| + |found.value|;
      }
    }
  }

  /** The draft would pass permissive validation, fills required fields and names only live files in media fields. */
  predicate Publishable(env: Env, files: map<Uuid, File>, block: Block) {
    var content, media := OrEmpty(block.draft), MediaLookup(env, files);
    if !content.Obj? then block.schema == []
    else
      && Validate(env.lib, media, block.schema, content.entries, false) == Ok([])
      && Ready(media, block.schema, content.entries)
  }

  /** A page passes the gate exactly when each of its visible or required blocks is publishable. */
  lemma PublishGate(env: Env, db: Db, page: PageId)
    requires Listed(db)
    ensures PublishIssues(env, db, page, db.order) == Ok([])
            <==> forall b <- db.blocks :: Checked(db.blocks[b], page) ==> Publishable(env, db.files, db.blocks[b])
  {
    NoIssuesMeansChecked(env, db, page, db.order);
    var media := MediaLookup(env, db.files);
    forall b | b in db.blocks && Checked(db.blocks[b], page)
      ensures StrictIssues(env, db.files, db.blocks[b]) == Ok([]) <==> Publishable(env, db.files, db.blocks[b])
    {
      if OrEmpty(db.blocks[b].draft).Obj? {
        StrictPassIffReady(env.lib, media, db.blocks[b].schema, OrEmpty(db.blocks[b].draft).entries);
      }
    }
  }

  /** The references of the draft can be read, and their usage rows inserted. */
  predicate Indexable(env: Env, files: map<Uuid, File>, draft: Json) {
    var refs := RefsOf(env.codec, draft);
    refs.Refs? && Insertable(files, refs.refs)
  }

  lemma {:induction false} WritesSucceedIff(env: Env, db: Db, page: PageId, ids: seq<BlockId>, user: UserId, now: int)
    requires forall i, j :: 0 <= i < j < |ids| ==> ids[i] != ids[j]
    requires db.histories.Keys == db.blocks.Keys
    ensures PublishBlocks(env, db, page, ids, user, now).Ok?
            <==> forall b <- ids ::
              b in db.blocks && db.blocks[b].page == page ==> Indexable(env, db.files, db.blocks[b].draft)
  {
    if ids != [] {
      var before, last := ids[..|ids| - 1], ids[|ids| - 1];
      assert ids == before + [last] && last !in before;
      WritesSucceedIff(env, db, page, before, user, now);
      if PublishBlocks(env, db, page, before, user, now).Ok? {
        PublishEffect(env, db, page, before, user, now);
        if last in db.blocks {
          WriteSucceedsIff(env, db, PublishBlocks(env, db, page, before, user, now).value, page, before, last, user,
                           now);
        }
      }
    }
  }

  lemma WriteSucceedsIff(env: Env, db: Db, d: Db, page: PageId, before: seq<BlockId>, b: BlockId, user: UserId,
                         now: int)
    requires PublishedUpTo(env, db, d, page, before, user, now) && b !in before && b in db.blocks
    ensures b in d.blocks && b in d.histories && d.blocks[b] == db.blocks[b]
    ensures PublishBlock(env, d, b, user, now).Ok? <==> Indexable(env, db.files, db.blocks[b].draft)
  {
  }

  /**
   * A publish succeeds exactly when the page exists, its visible or required blocks are
   * publishable, and the references of every block of the page, hidden ones included,
   * can be indexed.
   */
  lemma PublishSucceedsIff(env: Env, db: Db, page: PageId, user: UserId, now: int)
    requires Listed(db)
    ensures PublishPage(env, db, page, user, now).Ok?
            <==> && page in db.pages
                 && (forall b <- db.blocks :: Checked(db.blocks[b], page) ==> Publishable(env, db.files, db.blocks[b]))
                 && (forall b <- db.blocks ::
                     db.blocks[b].page == page ==> Indexable(env, db.files, db.blocks[b].draft))
  {
    PublishGate(env, db, page);
    WritesSucceedIff(env, db, page, db.order, user, now);
    assert (forall b <- db.order ::
            b in db.blocks && db.blocks[b].page == page ==> Indexable(env, db.files, db.blocks[b].draft))
      <==> (forall b <- db.blocks :: db.blocks[b].page == page ==> Indexable(env, db.files, db.blocks[b].draft));
  }

  // ------------------------------------------------- tombstoning and the drafts

  ghost predicate DraftsIndexed(env: Env, db: Db) {
    forall b <- db.blocks :: Indexed(env, db.usages, b, db.blocks[b].draft, DraftLayer)
  }

  /** The draft spells the file's id canonically wherever it means that file. */
  predicate DraftCanonical(env: Env, draft: Json, f: Uuid) {
    draft.Obj? ==> Canonical(env.codec, Sites(draft.entries, ""), f)
  }

  lemma {:induction false} RowsWithoutFile(b: BlockId, refs: seq<Ref>, f: Uuid)
    ensures Filter(Rows(b, refs, DraftLayer), NotDraftOf(f)) == Rows(b, OtherRefs(refs, f), DraftLayer)
  {
    if refs != [] {
      RowsWithoutFile(b, refs[1..], f);
      assert Rows(b, refs, DraftLayer)[1..] == Rows(b, refs[1..], DraftLayer);
      assert Rows(b, refs, DraftLayer)[0] == Usage(refs[0].id, b, refs[0].path, DraftLayer);
      if refs[0].id != f {
        assert OtherRefs(refs, f) == [refs[0]] + OtherRefs(refs[1..], f);
      } else {
        assert OtherRefs(refs, f) == OtherRefs(refs[1..], f);
      }
    }
  }

  lemma RowsInjective(b: BlockId, r: seq<Ref>, s: seq<Ref>, layer: Layer)
    requires Rows(b, r, layer) == Rows(b, s, layer)
    ensures r == s
  {
    forall i | 0 <= i < |r| ensures r[i] == s[i] {
      assert Rows(b, r, layer)[i] == Rows(b, s, layer)[i];
    }
  }

  lemma {:induction false} AbsentFromOthers(refs: seq<Ref>, f: Uuid)
    requires forall r <- refs :: r.id != f
    ensures OtherRefs(refs, f) == refs
  {
    if refs != [] {
      AbsentFromOthers(refs[1..], f);
      assert refs == [refs[0]] + refs[1..];
    }
  }

  lemma TouchedIffReferenced(env: Env, db: Db, b: BlockId, f: Uuid)
    requires b in db.blocks && Indexed(env, db.usages, b, db.blocks[b].draft, DraftLayer)
    ensures Touched(db, b, f) <==> References(env.codec, db.blocks[b].draft, f)
    ensures Touched(db, b, f) ==> db.blocks[b].draft.Obj?
  {
    var refs := RefsOf(env.codec, db.blocks[b].draft).refs;
    var rows := Rows(b, refs, DraftLayer);
    if u :| u in db.usages && u.file == f && u.layer == DraftLayer && u.block == b {
      FilterMembers(db.usages, At(b, DraftLayer), u);
      var i :| 0 <= i < |rows| && rows[i] == u;
      assert refs[i] in refs;
    }
    if References(env.codec, db.blocks[b].draft, f) {
      var i :| 0 <= i < |refs| && refs[i].id == f;
      FilterMembers(db.usages, At(b, DraftLayer), rows[i]);
    }
  }

  /** References and rows of one draft after its file is tombstoned. */
  lemma ClearedDraft(env: Env, db: Db, b: BlockId, f: Uuid)
    requires Lawful(env.codec) && b in db.blocks && Indexed(env, db.usages, b, db.blocks[b].draft, DraftLayer)
    requires ClearDrafts(env, db, f).Ok?
    ensures
      var d := ClearDrafts(env, db, f).value;
      var old_, new_ := db.blocks[b].draft, d.blocks[b].draft;
      && RowsAt(d.usages, b, DraftLayer) == Rows(b, OtherRefs(RefsOf(env.codec, old_).refs, f), DraftLayer)
      && RefsOf(env.codec, new_).Refs?
      && (RefsOf(env.codec, new_).refs == OtherRefs(RefsOf(env.codec, old_).refs, f) <==> DraftCanonical(env, old_, f))
  {
    var draft := db.blocks[b].draft;
    var refs := RefsOf(env.codec, draft).refs;
    FilterSwap(db.usages, NotDraftOf(f), At(b, DraftLayer));
    RowsWithoutFile(b, refs, f);
    TouchedIffReferenced(env, db, b, f);
    if draft.Obj? {
      NullingFiltersReferences(env.codec, draft.entries, f);
      NullingFiltersSites(draft.entries, "", env.codec.text(f));
    }
    if !References(env.codec, draft, f) {
      AbsentFromOthers(refs, f);
      if draft.Obj? && Truthy(draft) {
        UnreferencedIsCanonical(env.codec, Sites(draft.entries, ""), f);
      }
    }
  }

  lemma {:induction false} UnreferencedIsCanonical(codec: Codec, sites: seq<Site>, f: Uuid)
    requires ReadSites(codec, sites).Refs? && forall r <- ReadSites(codec, sites).refs :: r.id != f
    ensures Canonical(codec, sites, f)
  {
    if sites != [] {
      var one, rest := ReadSite(codec, sites[0]), ReadSites(codec, sites[1..]);
      assert forall r <- rest.refs :: r in one.refs + rest.refs;
      UnreferencedIsCanonical(codec, sites[1..], f);
      assert sites == [sites[0]] + sites[1..];
      CanonicalConcat(codec, sites[0], sites[1..], f);
      if sites[0].value.Str? && codec.parse(sites[0].value.s) == Some(f) {
        assert one.refs[0] in one.refs + rest.refs;
      }
    }
  }

  lemma ClearedDraftIndexed(env: Env, db: Db, b: BlockId, f: Uuid)
    requires Lawful(env.codec) && b in db.blocks && Indexed(env, db.usages, b, db.blocks[b].draft, DraftLayer)
    requires ClearDrafts(env, db, f).Ok?
    ensures
      var d := ClearDrafts(env, db, f).value;
      && (Indexed(env, d.usages, b, d.blocks[b].draft, DraftLayer) <==> DraftCanonical(env, db.blocks[b].draft, f))
      && (DraftCanonical(env, db.blocks[b].draft, f) ==>
            RefsOf(env.codec, d.blocks[b].draft) == Refs(OtherRefs(RefsOf(env.codec, db.blocks[b].draft).refs, f)))
  {
    ClearedDraft(env, db, b, f);
    var d := ClearDrafts(env, db, f).value;
    var wanted, got :=
      OtherRefs(RefsOf(env.codec, db.blocks[b].draft).refs, f), RefsOf(env.codec, d.blocks[b].draft).refs;
    if Rows(b, wanted, DraftLayer) == Rows(b, got, DraftLayer) {
      RowsInjective(b, wanted, got, DraftLayer);
    }
  }

  /** The tombstone branch as one change: the flag, then the drafts. */
  function Tombstone(db: Db, f: Uuid): Db
    requires f in db.files
  {
    db.(files := db.files[f := db.files[f].(tombstoned := true)])
  }

  lemma TombstoneSucceeds(env: Env, db: Db, f: Uuid)
    requires DraftsIndexed(env, db)
    requires f in db.files && !db.files[f].deleted && Used(db.usages, f, PublishedLayer)
    ensures ClearDrafts(env, Tombstone(db, f), f).Ok?
    ensures DeleteFile(env, db, f) == ClearDrafts(env, Tombstone(db, f), f)
    ensures DeleteFile(env, db, f).value.files == Tombstone(db, f).files
    ensures DeleteFile(env, db, f).value.blocks.Keys == db.blocks.Keys
  {
    var mid := Tombstone(db, f);
    forall b | b in mid.blocks && Touched(mid, b, f) ensures mid.blocks[b].draft.Obj? {
      assert Indexed(env, db.usages, b, db.blocks[b].draft, DraftLayer);
      TouchedIffReferenced(env, mid, b, f);
    }
  }

  /**
   * Suppose the draft index agrees with every draft, and deleting a file tombstones it.
   * The call then succeeds, and the draft index agrees again if and only if the drafts
   * spell that file's id canonically. Each draft that does loses exactly its references
   * to the file and keeps every other one, in order.
   */
  lemma TombstoneKeepsDraftIndex(env: Env, db: Db, f: Uuid)
    requires Lawful(env.codec) && DraftsIndexed(env, db)
    requires f in db.files && !db.files[f].deleted && Used(db.usages, f, PublishedLayer)
    ensures DeleteFile(env, db, f).Ok?
    ensures DeleteFile(env, db, f).value.files[f].tombstoned
    ensures DraftsIndexed(env, DeleteFile(env, db, f).value)
            <==> forall b <- db.blocks :: DraftCanonical(env, db.blocks[b].draft, f)
    ensures forall b <- db.blocks :: DraftCanonical(env, db.blocks[b].draft, f) ==>
      RefsOf(env.codec, DeleteFile(env, db, f).value.blocks[b].draft)
      == Refs(OtherRefs(RefsOf(env.codec, db.blocks[b].draft).refs, f))
  {
    TombstoneSucceeds(env, db, f);
    var mid := Tombstone(db, f);
    forall b | b in db.blocks
      ensures
        var d := DeleteFile(env, db, f).value;
        && (Indexed(env, d.usages, b, d.blocks[b].draft, DraftLayer) <==> DraftCanonical(env, db.blocks[b].draft, f))
        && (DraftCanonical(env, db.blocks[b].draft, f) ==>
              RefsOf(env.codec, d.blocks[b].draft) == Refs(OtherRefs(RefsOf(env.codec, db.blocks[b].draft).refs, f)))
    {
      assert Indexed(env, mid.usages, b, mid.blocks[b].draft, DraftLayer);
      ClearedDraftIndexed(env, mid, b, f);
    }
  }

  /** A draft written without a sync (import, rollback) stays indexed exactly if its references did not change. */
  lemma UnsyncedWriteIndexedIff(env: Env, db: Db, b: BlockId, draft: Json, h: History)
    requires b in db.blocks && Indexed(env, db.usages, b, db.blocks[b].draft, DraftLayer)
    ensures
      var d := WithDraft(db, b, draft, h);
      Indexed(env, d.usages, b, d.blocks[b].draft, DraftLayer)
      <==> RefsOf(env.codec, draft) == RefsOf(env.codec, db.blocks[b].draft)
  {
    var was, now := RefsOf(env.codec, db.blocks[b].draft), RefsOf(env.codec, draft);
    if now.Refs? && Rows(b, was.refs, DraftLayer) == Rows(b, now.refs, DraftLayer) {
      RowsInjective(b, was.refs, now.refs, DraftLayer);
    }
  }

  /**
   * Without the index hypothesis: a canonically spelled draft still references a tombstoned
   * file exactly when it did before and no draft-layer row said so.
   */
  lemma TombstoneMissesUnindexedDrafts(env: Env, db: Db, b: BlockId, f: Uuid)
    requires Lawful(env.codec) && b in db.blocks && ClearDrafts(env, db, f).Ok?
    requires RefsOf(env.codec, db.blocks[b].draft).Refs? && DraftCanonical(env, db.blocks[b].draft, f)
    ensures References(env.codec, ClearDrafts(env, db, f).value.blocks[b].draft, f)
            <==> References(env.codec, db.blocks[b].draft, f) && !Touched(db, b, f)
  {
    var draft := db.blocks[b].draft;
    if Touched(db, b, f) {
      assert b in TouchedBlocks(db, f);
      NullingFiltersReferences(env.codec, draft.entries, f);
      OthersLackFile(Extract(env.codec, draft.entries).refs, f);
    }
  }

  lemma {:induction false} OthersLackFile(refs: seq<Ref>, f: Uuid)
    ensures forall r <- OtherRefs(refs, f) :: r.id != f
  {
    if refs != [] {
      OthersLackFile(refs[1..], f);
    }
  }

  // ------------------------------------------------------- version histories

  /** Version numbers of every block, in every reachable state. */
  lemma VersionsOverRuns(env: Env, db: Db, evs: seq<Event>, b: BlockId)
    requires Initial(db) && b in Run(env, db, evs).blocks
    ensures b in Run(env, db, evs).histories
    ensures Contiguous(Run(env, db, evs).histories[b], env.keep)
    ensures Mirrors(env.codec, Run(env, db, evs).blocks[b].draft, Run(env, db, evs).histories[b])
  {
    InitialHoldsInv(env, db);
    RunKeepsInv(env, db, evs);
    var d := Run(env, db, evs);
    assert Sound(env, d.blocks[b].draft, d.histories[b]);
  }

  // -------------------------------------------------------- export and import

  /** The last draft a document gives for a placement; entries without a draft give none. */
  function GivenDraft(data: seq<ImportBlock>, b: BlockId): Option<Json> {
    if data == [] then None
    else
      var last := data[|data| - 1];
      if last.id == b && last.draft.Some? then last.draft else GivenDraft(data[..|data| - 1], b)
  }

  lemma GivenLast(before: seq<ImportBlock>, last: ImportBlock, b: BlockId)
    ensures GivenDraft(before + [last], b)
            == if last.id == b && last.draft.Some? then last.draft else GivenDraft(before, b)
  {
    assert (before + [last])[..|before|] == before;
  }

  lemma {:induction false} GivenPrepend(one: ImportBlock, data: seq<ImportBlock>, b: BlockId)
    ensures GivenDraft([one] + data, b)
            == if GivenDraft(data, b).Some? then GivenDraft(data, b) else if one.id == b then one.draft else None
  {
    if data == [] {
      assert [one] + data == [one] && [one][..0] == [];
    } else {
      var init, last := data[..|data| - 1], data[|data| - 1];
      assert data == init + [last] && [one] + data == ([one] + init) + [last];
      GivenPrepend(one, init, b);
      GivenLast([one] + init, last, b);
      GivenLast(init, last, b);
    }
  }

  lemma {:induction false} GivenAbsent(data: seq<ImportBlock>, b: BlockId)
    requires forall d <- data :: d.id != b
    ensures GivenDraft(data, b) == None
  {
    if data != [] {
      assert data[|data| - 1] in data;
      GivenAbsent(data[..|data| - 1], b);
    }
  }

  /** Entries name different placements of the page and carry a draft. */
  ghost predicate Importable(db: Db, page: PageId, data: seq<ImportBlock>) {
    && (forall i, j :: 0 <= i < j < |data| ==> data[i].id != data[j].id)
    && forall d <- data :: d.draft.Some? && d.id in db.blocks && db.blocks[d.id].page == page
  }

  lemma {:induction false} ExportIsImportable(db: Db, ids: seq<BlockId>, page: PageId)
    requires forall i, j :: 0 <= i < j < |ids| ==> ids[i] != ids[j]
    ensures forall d <- ExportBlocks(db, ids, page) :: d.id in ids
    ensures Importable(db, page, ExportBlocks(db, ids, page))
  {
    if ids != [] {
      ExportIsImportable(db, ids[1..], page);
      var rest := ExportBlocks(db, ids[1..], page);
      assert ids == [ids[0]] + ids[1..] && ids[0] !in ids[1..];
      assert forall d <- rest :: d.id != ids[0];
    }
  }

  lemma {:induction false} ExportGivesDrafts(db: Db, ids: seq<BlockId>, page: PageId, b: BlockId)
    requires forall i, j :: 0 <= i < j < |ids| ==> ids[i] != ids[j]
    ensures GivenDraft(ExportBlocks(db, ids, page), b)
            == if b in ids && b in db.blocks && db.blocks[b].page == page then Some(db.blocks[b].draft) else None
  {
    if ids != [] {
      ExportGivesDrafts(db, ids[1..], page, b);
      ExportIsImportable(db, ids[1..], page);
      var rest := ExportBlocks(db, ids[1..], page);
      assert ids == [ids[0]] + ids[1..] && ids[0] !in ids[1..];
      if ids[0] in db.blocks && db.blocks[ids[0]].page == page {
        var one := ImportBlock(ids[0], Some(db.blocks[ids[0]].draft));
        assert ExportBlocks(db, ids, page) == [one] + rest;
        GivenPrepend(one, rest, b);
        if forall d <- rest :: d.id != b {
          GivenAbsent(rest, b);
        }
      } else {
        assert ExportBlocks(db, ids, page) == rest;
      }
    }
  }

  /** The placement as an import leaves it, given the draft the document has for it, if any. */
  ghost predicate ImportedBlock(env: Env, db: Db, d: Db, b: BlockId, given: Option<Json>, user: UserId, now: int) {
    && b in db.blocks && b in d.blocks && b in db.histories && b in d.histories
    && match given
       case Some(draft) =>
         && d.blocks[b] == db.blocks[b].(draft := draft)
         && d.histories[b] == Create(db.histories[b], draft, Import, user, now, env.keep)
       case None => d.blocks[b] == db.blocks[b] && d.histories[b] == db.histories[b]
  }

  ghost predicate ImportedUpTo(env: Env, db: Db, d: Db, data: seq<ImportBlock>, user: UserId, now: int) {
    && d == db.(blocks := d.blocks, histories := d.histories)
    && d.blocks.Keys == db.blocks.Keys == d.histories.Keys == db.histories.Keys
    && forall b <- db.blocks :: ImportedBlock(env, db, d, b, GivenDraft(data, b), user, now)
  }

  ghost predicate AllValidatable(db: Db, data: seq<ImportBlock>) {
    forall d <- data :: d.id in db.blocks && d.draft.Some? ==> Validatable(db.blocks[d.id].schema, d.draft.value)
  }

  lemma ImportIsWithDraft(env: Env, db: Db, page: PageId, data: ImportBlock, user: UserId, now: int)
    requires data.id in db.blocks && data.id in db.histories && db.blocks[data.id].page == page && data.draft.Some?
    ensures
      var draft := data.draft.value;
      ImportBlockInto(env, db, page, data, user, now)
      == if Validatable(db.blocks[data.id].schema, draft)
         then Ok(WithDraft(db, data.id, draft, Create(db.histories[data.id], draft, Import, user, now, env.keep)))
         else Fail(Uncaught)
  {
  }

  lemma ImportedExtends(env: Env, db: Db, d: Db, e: Db, before: seq<ImportBlock>, last: ImportBlock, user: UserId,
                        now: int)
    requires ImportedUpTo(env, db, d, before, user, now) && GivenDraft(before, last.id) == None
    requires last.draft.Some? && last.id in db.blocks
    requires last.id in d.blocks && e == WithDraft(d, last.id, last.draft.value,
                                                   Create(db.histories[last.id], last.draft.value, Import, user, now,
                                                          env.keep))
    ensures ImportedUpTo(env, db, e, before + [last], user, now)
  {
    assert ImportedBlock(env, db, d, last.id, None, user, now);
    forall b | b in db.blocks ensures ImportedBlock(env, db, e, b, GivenDraft(before + [last], b), user, now) {
      GivenLast(before, last, b);
      assert ImportedBlock(env, db, d, b, GivenDraft(before, b), user, now);
    }
  }

  lemma ImportOneMore(env: Env, db: Db, d: Db, page: PageId, before: seq<ImportBlock>, last: ImportBlock,
                      user: UserId, now: int)
    requires ImportedUpTo(env, db, d, before, user, now) && GivenDraft(before, last.id) == None
    requires last.draft.Some? && last.id in db.blocks && db.blocks[last.id].page == page
    ensures
      var r := ImportBlockInto(env, d, page, last, user, now);
      && (r.Ok? <==> Validatable(db.blocks[last.id].schema, last.draft.value))
      && (r.Ok? ==> ImportedUpTo(env, db, r.value, before + [last], user, now))
  {
    assert ImportedBlock(env, db, d, last.id, None, user, now);
    ImportIsWithDraft(env, d, page, last, user, now);
    var r := ImportBlockInto(env, d, page, last, user, now);
    if r.Ok? {
      ImportedExtends(env, db, d, r.value, before, last, user, now);
    }
  }

  lemma AllValidatableLast(db: Db, before: seq<ImportBlock>, last: ImportBlock)
    requires last.id in db.blocks && last.draft.Some?
    ensures AllValidatable(db, before + [last])
            <==> AllValidatable(db, before) && Validatable(db.blocks[last.id].schema, last.draft.value)
  {
    assert forall d :: d in before + [last] <==> d in before || d == last;
  }

  /** Importing such a document: exactly the placements it names change. */
  lemma {:induction false} ImportEffect(env: Env, db: Db, page: PageId, data: seq<ImportBlock>, user: UserId, now: int)
    requires Importable(db, page, data) && db.histories.Keys == db.blocks.Keys
    ensures
      var r := ImportBlocks(env, db, page, data, user, now);
      && (r.Ok? <==> AllValidatable(db, data))
      && (r.Ok? ==> ImportedUpTo(env, db, r.value, data, user, now))
  {
    if data != [] {
      var before, last := data[..|data| - 1], data[|data| - 1];
      assert data == before + [last];
      assert last in data && forall d <- before :: d in data;
      assert Importable(db, page, before);
      ImportEffect(env, db, page, before, user, now);
      GivenAbsent(before, last.id);
      AllValidatableLast(db, before, last);
      var r := ImportBlocks(env, db, page, before, user, now);
      if r.Ok? {
        ImportOneMore(env, db, r.value, page, before, last, user, now);
      }
    }
  }

  /** The placements, their pages and their schemas are the same in every later state. */
  lemma {:induction false} PlacesStay(env: Env, db: Db, evs: seq<Event>)
    requires Inv(env, db)
    ensures
      var d := Run(env, db, evs);
      && SamePlaces(db, d)
      && forall b <- db.blocks :: d.blocks[b].schema == db.blocks[b].schema
  {
    if evs != [] {
      PlacesStay(env, db, evs[..|evs| - 1]);
      RunKeepsInv(env, db, evs[..|evs| - 1]);
      PlacesStayOnce(env, Run(env, db, evs[..|evs| - 1]), evs[|evs| - 1]);
    }
  }

  ghost predicate SameSchemas(db: Db, d: Db) {
    SamePlaces(db, d) && forall b <- db.blocks :: d.blocks[b].schema == db.blocks[b].schema
  }

  lemma PublishKeepsSchemas(env: Env, db: Db, page: PageId, user: UserId, now: int)
    requires Listed(db) && PublishPage(env, db, page, user, now).Ok?
    ensures SameSchemas(db, PublishPage(env, db, page, user, now).value)
  {
    PublishIsWrite(env, db, page, user, now);
    PublishEffect(env, db, page, db.order, user, now);
    WrittenKeepsSchemas(env, db, PublishBlocks(env, db, page, db.order, user, now).value, page, user, now);
  }

  lemma WrittenKeepsSchemas(env: Env, db: Db, d: Db, page: PageId, user: UserId, now: int)
    requires PublishedUpTo(env, db, d, page, db.order, user, now)
    ensures SameSchemas(db, d)
  {
  }

  lemma PlacesStayOnce(env: Env, db: Db, ev: Event)
    requires Inv(env, db)
    ensures
      var d := After(env, db, ev);
      SamePlaces(db, d) && forall b <- db.blocks :: d.blocks[b].schema == db.blocks[b].schema
  {
    if ev.PublishEv? {
      if PublishPage(env, db, ev.page, ev.user, ev.now).Ok? {
        PublishKeepsSchemas(env, db, ev.page, ev.user, ev.now);
      }
    } else {
      OtherCallsAreCalm(env, db, ev);
    }
  }

  /** The drafts of the page are those of `db`, with one more version each; the rest is as in `later`. */
  ghost predicate Restored(db: Db, later: Db, d: Db, page: PageId) {
    && d == later.(blocks := d.blocks, histories := d.histories)
    && d.blocks.Keys == d.histories.Keys == later.blocks.Keys == later.histories.Keys == db.blocks.Keys
    && forall b <- db.blocks ::
         if db.blocks[b].page == page then
           && d.blocks[b] == later.blocks[b].(draft := db.blocks[b].draft)
           && d.histories[b].created == later.histories[b].created + 1
         else d.blocks[b] == later.blocks[b] && d.histories[b] == later.histories[b]
  }

  /**
   * Export a page, let any calls happen, import the document into the page. The import
   * succeeds if and only if each exported draft is an object that permissive validation
   * can judge, or its schema has no fields; then every draft of the page is what it was at export, each block has one
   * more version, and everything else is as it was before the import.
   */
  lemma ImportRestoresExport(env: Env, db: Db, evs: seq<Event>, page: PageId, user: UserId, now: int)
    requires Inv(env, db) && page in db.pages
    ensures
      var later := Run(env, db, evs);
      var r := ImportPage(env, later, page, ExportPage(db, page), user, now);
      && (r.Ok? <==> forall b <- db.blocks :: db.blocks[b].page == page ==>
                       Validatable(db.blocks[b].schema, db.blocks[b].draft))
      && (r.Ok? ==> Restored(db, later, r.value, page))
  {
    var later := Run(env, db, evs);
    RunKeepsInv(env, db, evs);
    PlacesStay(env, db, evs);
    ImportRestores(env, db, later, page, user, now);
  }

  lemma ExportedValidatable(db: Db, page: PageId)
    requires Listed(db)
    ensures AllValidatable(db, ExportPage(db, page))
            <==> forall b <- db.blocks :: db.blocks[b].page == page ==>
                   Validatable(db.blocks[b].schema, db.blocks[b].draft)
  {
    var data := ExportPage(db, page);
    ExportIsImportable(db, db.order, page);
    forall b | b in db.blocks && db.blocks[b].page == page
      ensures exists d <- data :: d.id == b && d.draft == Some(db.blocks[b].draft)
    {
      ExportGivesDrafts(db, db.order, page, b);
      GivenMember(data, b);
    }
    forall d | d in data ensures d.id in db.blocks ==> d.draft == Some(db.blocks[d.id].draft) {
      ExportEntry(db, db.order, page, d);
    }
  }

  lemma {:induction false} ExportEntry(db: Db, ids: seq<BlockId>, page: PageId, d: ImportBlock)
    requires d in ExportBlocks(db, ids, page)
    ensures d.id in db.blocks && d.draft == Some(db.blocks[d.id].draft)
  {
    if ids != [] && d in ExportBlocks(db, ids[1..], page) {
      ExportEntry(db, ids[1..], page, d);
    }
  }

  lemma {:induction false} GivenMember(data: seq<ImportBlock>, b: BlockId)
    requires GivenDraft(data, b).Some?
    ensures exists d <- data :: d.id == b && d.draft == GivenDraft(data, b)
  {
    if data[|data| - 1].id == b && data[|data| - 1].draft.Some? {
      assert data[|data| - 1] in data;
    } else {
      GivenMember(data[..|data| - 1], b);
    }
  }

  lemma ImportRestores(env: Env, db: Db, later: Db, page: PageId, user: UserId, now: int)
    requires Listed(db) && Listed(later) && SamePlaces(db, later) && page in later.pages
    requires forall b <- db.blocks :: later.blocks[b].schema == db.blocks[b].schema
    ensures
      var r := ImportPage(env, later, page, ExportPage(db, page), user, now);
      && (r.Ok? <==> forall b <- db.blocks :: db.blocks[b].page == page ==>
                       Validatable(db.blocks[b].schema, db.blocks[b].draft))
      && (r.Ok? ==> Restored(db, later, r.value, page))
  {
    var data := ExportPage(db, page);
    ExportIsImportable(db, db.order, page);
    assert Importable(later, page, data);
    ImportEffect(env, later, page, data, user, now);
    ExportedValidatable(db, page);
    assert AllValidatable(db, data) <==> AllValidatable(later, data);
    var r := ImportBlocks(env, later, page, data, user, now);
    if r.Ok? {
      forall b | b in db.blocks
        ensures GivenDraft(data, b) == if db.blocks[b].page == page then Some(db.blocks[b].draft) else None
      {
        ExportGivesDrafts(db, db.order, page, b);
      }
      RestoredByDocument(env, db, later, r.value, page, data, user, now);
    }
  }

  lemma RestoredByDocument(env: Env, db: Db, later: Db, d: Db, page: PageId, data: seq<ImportBlock>, user: UserId,
                           now: int)
    requires ImportedUpTo(env, later, d, data, user, now) && SamePlaces(db, later)
             && db.histories.Keys == db.blocks.Keys
    requires forall b <- db.blocks ::
      GivenDraft(data, b) == if db.blocks[b].page == page then Some(db.blocks[b].draft) else None
    ensures Restored(db, later, d, page)
  {
    forall b | b in db.blocks
      ensures ImportedBlock(env, later, d, b,
                            if db.blocks[b].page == page then Some(db.blocks[b].draft) else None, user, now)
    {
      assert ImportedBlock(env, later, d, b, GivenDraft(data, b), user, now);
    }
  }
}
