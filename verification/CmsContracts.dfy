// What the other content calls do, told on the rows of the tables.

module CmsContracts {
  import opened Wrappers
  import opened JsonTree
  import opened MediaRefs
  import opened MediaPlaces
  import opened Schemas
  import opened Validator
  import opened Sanitizer
  import opened SanitizerMeaning
  import opened Versions
  import opened Cms
  import opened CmsInvariants
  import opened CmsTheorems
  import opened CmsDrafts
  import opened PublishContracts

  // ------------------------------------------------------------ draft saves

  /** The newest version is this user's draft save, less than a window old. */
  predicate InWindow(h: History, user: UserId, now: int, window: int) {
    && h.rows != []
    && var newest := h.rows[|h.rows| - 1];
       newest.action == DraftSave && newest.savedBy == user && now - newest.at < window
  }

  /** The newest version holds the saved draft: inside the window the same row, else a new one. */
  predicate VersionSaved(h: History, g: History, draft: Json, user: UserId, now: int, window: int) {
    && g.rows != []
    && var newest := g.rows[|g.rows| - 1];
       if InWindow(h, user, now, window) then
         && g.created == h.created && |g.rows| == |h.rows|
         && g.rows[..|g.rows| - 1] == h.rows[..|h.rows| - 1]
         && newest == h.rows[|h.rows| - 1].(snapshot := draft)
       else g.created == h.created + 1 && newest == Version(h.created + 1, draft, DraftSave, user, now)
  }

  /**
   * A draft save stores the submitted document cleaned by the block's schema, in the draft
   * column and in the newest version, and changes no other column, block or file.
   */
  ghost predicate DraftStored(env: Env, db: Db, d: Db, b: BlockId, content: Dict, user: UserId, now: int) {
    && b in db.blocks && b in db.histories && b in d.histories
    && var draft := Obj(Sanitize(env.lib, db.blocks[b].schema, content));
       && d.blocks == db.blocks[b := db.blocks[b].(draft := draft)]
       && d.histories == db.histories[b := d.histories[b]]
       && (env.keep >= 1 ==> VersionSaved(db.histories[b], d.histories[b], draft, user, now, env.window))
       && d == db.(blocks := d.blocks, histories := d.histories, usages := d.usages)
  }

  lemma SaveDraftStores(env: Env, db: Db, b: BlockId, content: Dict, user: UserId, now: int)
    requires Inv(env, db) && SaveDraft(env, db, b, content, user, now).Ok?
    ensures DraftStored(env, db, SaveDraft(env, db, b, content, user, now).value, b, content, user, now)
  {
    var draft := Obj(Sanitize(env.lib, db.blocks[b].schema, content));
    SavedVersion(env, db.blocks[b].draft, db.histories[b], draft, user, now);
    var h := Save(db.histories[b], draft, user, now, env.window, env.keep);
    SyncKeeps(env, WithDraft(db, b, draft, h), b, draft, DraftLayer);
  }

  lemma SavedVersion(env: Env, was: Json, h: History, draft: Json, user: UserId, now: int)
    requires Sound(env, was, h) && draft.Obj?
    ensures env.keep >= 1 ==>
      VersionSaved(h, Save(h, draft, user, now, env.window, env.keep), draft, user, now, env.window)
  {
    if env.keep >= 1 {
      assert OrEmpty(draft) == draft;
      SaveIs(h, draft, user, now, env.window, env.keep);
      if InWindow(h, user, now, env.window) {
        SavedInPlace(h, draft, user, now, env.window);
      } else {
        TopOfAppend(h, Version(h.created + 1, draft, DraftSave, user, now), env.keep);
      }
    }
  }

  lemma SavedInPlace(h: History, draft: Json, user: UserId, now: int, window: int)
    requires InWindow(h, user, now, window)
    ensures
      var n := |h.rows|;
      VersionSaved(h, h.(rows := h.rows[n - 1 := h.rows[n - 1].(snapshot := draft)], nulled := []), draft, user, now,
                   window)
  {
  }

  /** Every rich text of the stored draft is the one submitted, cleaned with its field's tags; all else stays. */
  lemma StoredTextsAreClean(env: Env, db: Db, b: BlockId, content: Dict, user: UserId, now: int)
    requires Inv(env, db) && SaveDraft(env, db, b, content, user, now).Ok?
    requires DeeplyDistinct(db.blocks[b].schema)
    ensures
      var draft := SaveDraft(env, db, b, content, user, now).value.blocks[b].draft;
      draft.Obj? && IsCleaned(env.lib, db.blocks[b].schema, content, draft.entries)
  {
    SaveDraftStores(env, db, b, content, user, now);
    SanitizedIsCleaned(env.lib, db.blocks[b].schema, content);
  }

  /** A draft save fails for an unknown block, or by an exception. */
  lemma SaveDraftErrors(env: Env, db: Db, b: BlockId, content: Dict, user: UserId, now: int)
    requires Listed(db)
    ensures
      var r := SaveDraft(env, db, b, content, user, now);
      && (r == Fail(NotFound) <==> b !in db.blocks)
      && (r.Fail? && b in db.blocks ==> r == Fail(Uncaught))
  {
  }

  // ------------------------------------------------------ references by place

  /** The document has a site with this raw id at this dotted key. */
  ghost predicate Placed(doc: Dict, path: string, id: Json) {
    exists hops, entry: nat :: SiteAt(doc, "", hops, entry) == Some(Site(path, id))
  }

  /**
   * A column's references cannot be read exactly if it holds no document or some media id
   * is neither text nor null; else they are exactly the keys that texts at its places
   * denote.
   */
  lemma ReferencesArePlaced(codec: Codec, column: Json, r: Ref)
    ensures RefsOf(codec, column).Crash?
            <==> Document(column).None?
                 || exists path, id :: Placed(Document(column).value, path, id) && !id.Str? && !id.Null?
    ensures RefsOf(codec, column).Refs? ==>
      (r in RefsOf(codec, column).refs
       <==> exists text :: Placed(Document(column).value, r.path, Str(text)) && codec.parse(text) == Some(r.id))
  {
    DocumentIs(column);
    if Document(column).Some? {
      var doc := Document(column).value;
      RefsOfDocument(codec, column, doc);
      SitesArePlaces(doc);
      ReadsExactly(codec, Sites(doc, ""), r);
      PlacedIff(codec, doc, r);
    }
  }

  lemma RefsOfDocument(codec: Codec, column: Json, doc: Dict)
    requires Document(column) == Some(doc)
    ensures RefsOf(codec, column) == ReadSites(codec, Sites(doc, ""))
  {
  }

  lemma SitesArePlaces(doc: Dict)
    ensures forall path, id :: Site(path, id) in Sites(doc, "") <==> Placed(doc, path, id)
  {
    forall path, id ensures Site(path, id) in Sites(doc, "") <==> Placed(doc, path, id) {
      WalkFindsExactly(doc, Site(path, id));
    }
  }

  lemma PlacedIff(codec: Codec, doc: Dict, r: Ref)
    requires forall path, id :: Site(path, id) in Sites(doc, "") <==> Placed(doc, path, id)
    ensures (exists s <- Sites(doc, "") :: !s.value.Str? && !s.value.Null?)
            <==> exists path, id :: Placed(doc, path, id) && !id.Str? && !id.Null?
    ensures (exists s <- Sites(doc, "") ::
               s.value.Str? && codec.parse(s.value.s) == Some(r.id) && s.path == r.path)
            <==> exists text :: Placed(doc, r.path, Str(text)) && codec.parse(text) == Some(r.id)
  {
    forall s | s in Sites(doc, "") ensures Placed(doc, s.path, s.value) {
      assert s == Site(s.path, s.value);
    }
  }

  // ------------------------------------------------- rollback, import, toggle

  /** A rollback fails exactly if there is no such block or no version with that number. */
  lemma RollBackErrors(env: Env, db: Db, b: BlockId, number: nat, user: UserId, now: int)
    requires Inv(env, db)
    ensures
      var r := RollBackTo(env, db, b, number, user, now);
      && (r.Ok? <==> b in db.blocks && exists v <- db.histories[b].rows :: v.number == number)
      && (r.Fail? ==> r.error == NotFound)
  {
  }

  /** It puts the version's snapshot in the draft column and in a new version, and changes nothing else. */
  lemma RollBackStores(env: Env, db: Db, b: BlockId, v: Version, user: UserId, now: int)
    requires Inv(env, db) && b in db.blocks && v in db.histories[b].rows
    ensures
      var r := RollBackTo(env, db, b, v.number, user, now);
      && r.Ok?
      && var d := r.value;
         && d == db.(blocks := db.blocks[b := db.blocks[b].(draft := v.snapshot)],
                     histories := db.histories[b := d.histories[b]])
         && d.histories[b].created == db.histories[b].created + 1
         && NewestIs(d.histories[b], env.keep,
                     Version(db.histories[b].created + 1, OrEmpty(v.snapshot), Rollback, user, now))
  {
    var h := db.histories[b];
    assert Sound(env, db.blocks[b].draft, h);
    OneWithNumber(h, env.keep, v);
    NewestCreated(h, v.snapshot, Rollback, user, now, env.keep);
  }

  /** Numbers of kept versions do not repeat. */
  lemma OneWithNumber(h: History, keep: nat, v: Version)
    requires Contiguous(h, keep) && v in h.rows
    ensures Find(h.rows, v.number) == Some(v)
  {
    var i :| 0 <= i < |h.rows| && h.rows[i] == v;
    var found := Find(h.rows, v.number).value;
    var j :| 0 <= j < |h.rows| && h.rows[j] == found;
    assert h.rows[i].number == h.rows[j].number;
  }

  /** A column can be validated exactly if it is a document that permissive validation judges, or no field is asked. */
  lemma ValidatableIff(lib: Library, media: Json -> MediaState, schema: Schema, column: Json)
    ensures Validatable(schema, column)
            <==> if column.Obj? then Validate(lib, media, schema, column.entries, false).Ok? else schema == []
  {
    if column.Obj? {
      PermissiveRaisesIff(lib, media, schema, column.entries);
    }
  }

  lemma {:induction false} ImportRaisesUncaught(env: Env, db: Db, page: PageId, data: seq<ImportBlock>, user: UserId,
                                                now: int)
    ensures
      var r := ImportBlocks(env, db, page, data, user, now);
      r.Ok? || r == Fail(Uncaught)
  {
    if data != [] {
      ImportRaisesUncaught(env, db, page, data[..|data| - 1], user, now);
    }
  }

  /**
   * An import fails for an unknown page, or by an exception exactly if an entry of a
   * placement of the page cannot be validated.
   */
  lemma ImportErrors(env: Env, db: Db, page: PageId, data: seq<ImportBlock>, user: UserId, now: int)
    requires Listed(db)
    ensures
      var r := ImportPage(env, db, page, data, user, now);
      && (r == Fail(NotFound) <==> page !in db.pages)
      && (r == Fail(Uncaught)
          <==> page in db.pages && exists d <- data ::
                 d.id in db.blocks && db.blocks[d.id].page == page
                 && !Validatable(db.blocks[d.id].schema, d.draft.GetOr(Obj([]))))
      && (r.Fail? ==> r.error == NotFound || r.error == Uncaught)
  {
    ImportRaisesUncaught(env, db, page, data, user, now);
    ImportAnyDocument(env, db, page, data, user, now);
  }

  predicate Named(db: Db, page: PageId, data: seq<ImportBlock>, b: BlockId) {
    b in db.blocks && db.blocks[b].page == page && exists d <- data :: d.id == b
  }

  /** The newest version of each placement an import names is an import of its draft by this user, now. */
  ghost predicate ImportVersioned(env: Env, db: Db, d: Db, page: PageId, data: seq<ImportBlock>, user: UserId,
                                  now: int)
  {
    forall b :: Named(db, page, data, b) ==>
      && b in d.blocks && b in d.histories
      && NewestIs(d.histories[b], env.keep,
                  Version(d.histories[b].created, OrEmpty(d.blocks[b].draft), Import, user, now))
  }

  lemma {:induction false} ImportVersions(env: Env, db: Db, page: PageId, data: seq<ImportBlock>, user: UserId,
                                          now: int)
    requires Inv(env, db) && ImportBlocks(env, db, page, data, user, now).Ok?
    ensures ImportVersioned(env, db, ImportBlocks(env, db, page, data, user, now).value, page, data, user, now)
  {
    if data != [] {
      var before, last := data[..|data| - 1], data[|data| - 1];
      assert data == before + [last];
      ImportVersions(env, db, page, before, user, now);
      ImportKeepsInv(env, db, page, before, user, now);
      ImportIsCalm(env, db, page, before, user, now);
      var d := ImportBlocks(env, db, page, before, user, now).value;
      EntryLeavesOthers(env, d, page, last, user, now);
      EntryVersion(env, d, page, last, user, now);
      ImportVersionedNext(env, db, d, ImportBlockInto(env, d, page, last, user, now).value, page, before, last, user,
                          now);
    }
  }

  lemma ImportVersionedNext(env: Env, db: Db, d: Db, e: Db, page: PageId, before: seq<ImportBlock>,
                            last: ImportBlock, user: UserId, now: int)
    requires ImportVersioned(env, db, d, page, before, user, now)
    requires d.blocks.Keys == db.blocks.Keys && OthersStay(d, e, last.id)
    requires last.id in db.blocks && db.blocks[last.id].page == page ==>
      ImportVersioned(env, d, e, page, [last], user, now) && d.blocks[last.id].page == page
    ensures ImportVersioned(env, db, e, page, before + [last], user, now)
  {
    forall b | Named(db, page, before + [last], b)
      ensures b in e.blocks && b in e.histories
      ensures NewestIs(e.histories[b], env.keep,
                       Version(e.histories[b].created, OrEmpty(e.blocks[b].draft), Import, user, now))
    {
      if b == last.id {
        assert Named(d, page, [last], b);
      } else {
        assert Named(db, page, before, b);
      }
    }
  }

  ghost predicate OthersStay(db: Db, d: Db, b: BlockId) {
    && d.blocks.Keys == db.blocks.Keys && d.histories.Keys == db.histories.Keys
    && (forall x <- db.blocks :: x != b ==> d.blocks[x] == db.blocks[x])
    && forall x <- db.histories :: x != b ==> d.histories[x] == db.histories[x]
  }

  /** One entry writes at most its own placement. */
  lemma EntryLeavesOthers(env: Env, db: Db, page: PageId, data: ImportBlock, user: UserId, now: int)
    requires ImportBlockInto(env, db, page, data, user, now).Ok?
    ensures OthersStay(db, ImportBlockInto(env, db, page, data, user, now).value, data.id)
  {
  }

  lemma EntryVersion(env: Env, db: Db, page: PageId, data: ImportBlock, user: UserId, now: int)
    requires Inv(env, db) && ImportBlockInto(env, db, page, data, user, now).Ok?
    ensures ImportVersioned(env, db, ImportBlockInto(env, db, page, data, user, now).value, page, [data], user, now)
  {
    if data.id in db.blocks && db.blocks[data.id].page == page {
      var h := db.histories[data.id];
      assert Sound(env, db.blocks[data.id].draft, h);
      NewestCreated(h, data.draft.GetOr(db.blocks[data.id].draft), Import, user, now, env.keep);
    }
  }

  /** Hiding a required block is refused; else exactly the visible column of that block is set. */
  lemma ToggleSets(db: Db, b: BlockId, visible: bool)
    ensures
      var r := Toggle(db, b, visible);
      && (r == Fail(NotFound) <==> b !in db.blocks)
      && (r == Fail(RequiredBlock) <==> b in db.blocks && db.blocks[b].required && !visible)
      && (r.Ok? <==> b in db.blocks && (visible || !db.blocks[b].required))
      && (r.Ok? ==> r.value == db.(blocks := db.blocks[b := db.blocks[b].(visible := visible)]))
  {
  }

  /** Taking a page offline: refused unless live; then the page and all its blocks are not live, all else as before. */
  ghost predicate Offline(db: Db, d: Db, page: PageId) {
    && page in db.pages
    && d == db.(blocks := d.blocks, pages := db.pages[page := Page(false, db.pages[page].publishedAt)])
    && d.blocks.Keys == db.blocks.Keys
    && forall b <- db.blocks ::
      d.blocks[b] == if db.blocks[b].page == page then db.blocks[b].(live := false) else db.blocks[b]
  }

  lemma UnpublishTakesOffline(db: Db, page: PageId)
    ensures
      var r := UnpublishPage(db, page);
      && (r == Fail(NotFound) <==> page !in db.pages)
      && (r == Fail(NotPublished) <==> page in db.pages && !db.pages[page].live)
      && (r.Ok? <==> page in db.pages && db.pages[page].live)
      && (r.Ok? ==> Offline(db, r.value, page))
  {
  }

  // ------------------------------------------------------------------ files

  /** Uploads: the first limit that is broken decides the error. */
  lemma UploadOutcome(db: Db, f: Uuid, u: Upload)
    ensures
      var r := UploadFile(db, f, u);
      var large := u.business && u.maxMb != 0 && u.size > u.maxMb * 1048576;
      var foreign := u.extension !in ALLOWED_MEDIA_EXTENSIONS || u.mime !in ALLOWED_MEDIA_TYPES;
      && (r == Fail(LimitReached) <==> u.business && !u.withinQuota)
      && (r == Fail(InvalidFile) <==> !(u.business && !u.withinQuota) && (large || foreign))
      && (r.Ok? <==> !(u.business && !u.withinQuota) && !large && !foreign && f !in db.files)
      && (r.Ok? ==> r.value == db.(files := db.files[f := File(false, false)], stored := db.stored + {f}))
  {
  }

  predicate UsedIn(db: Db, f: Uuid, b: BlockId, layer: Layer) {
    exists u <- db.usages :: u.file == f && u.block == b && u.layer == layer
  }

  predicate UsedSomewhere(db: Db, f: Uuid, layer: Layer) {
    exists u <- db.usages :: u.file == f && u.layer == layer
  }

  /** The drafts after clearing a file: those that a draft row ties to it lose the objects naming it. */
  ghost predicate DraftsCleared(env: Env, db: Db, d: Db, f: Uuid) {
    && d.blocks.Keys == db.blocks.Keys
    && forall b <- db.blocks ::
      d.blocks[b] == if UsedIn(db, f, b, DraftLayer) && db.blocks[b].draft.Obj?
                     then db.blocks[b].(draft := Obj(NullDict(db.blocks[b].draft.entries, env.codec.text(f))))
                     else db.blocks[b]
  }

  /** Exactly the file's draft rows are gone. */
  ghost predicate DraftRowsGone(db: Db, d: Db, f: Uuid) {
    forall u :: u in d.usages <==> u in db.usages && !(u.file == f && u.layer == DraftLayer)
  }

  ghost predicate VersionsStay(db: Db, d: Db) {
    d.histories.Keys == db.histories.Keys && forall b <- db.histories :: d.histories[b].rows == db.histories[b].rows
  }

  /** What a tombstoning deletion leaves: the flag on that file, its drafts cleared, and all else as before. */
  ghost predicate TombstoneLeft(env: Env, db: Db, d: Db, f: Uuid) {
    && f in db.files
    && d == db.(files := db.files[f := File(true, db.files[f].deleted)], blocks := d.blocks,
                histories := d.histories, usages := d.usages)
    && DraftsCleared(env, db, d, f) && DraftRowsGone(db, d, f) && VersionsStay(db, d)
  }

  /** A draft row ties the file to a draft that is no document: clearing it raises. */
  predicate Stuck(db: Db, f: Uuid) {
    exists b <- db.blocks :: UsedIn(db, f, b, DraftLayer) && Document(db.blocks[b].draft).None?
  }

  /**
   * Deleting a file: not found if it is missing or deleted already; an exception exactly if
   * its published use calls for clearing a draft that is no document.
   */
  lemma DeleteErrors(env: Env, db: Db, f: Uuid)
    ensures
      var r := DeleteFile(env, db, f);
      var here := f in db.files && !db.files[f].deleted;
      && (r == Fail(NotFound) <==> !here)
      && (r == Fail(Uncaught) <==> here && UsedSomewhere(db, f, PublishedLayer) && Stuck(db, f))
      && (r.Fail? ==> r.error == NotFound || r.error == Uncaught)
  {
    if f in db.files && !db.files[f].deleted && Used(db.usages, f, PublishedLayer) {
      StuckIff(Tombstone(db, f), f);
    }
  }

  lemma StuckIff(db: Db, f: Uuid)
    ensures Stuck(db, f) <==> exists b <- TouchedBlocks(db, f) :: !db.blocks[b].draft.Obj?
  {
    forall b | b in db.blocks
      ensures UsedIn(db, f, b, DraftLayer) && Document(db.blocks[b].draft).None?
              <==> b in TouchedBlocks(db, f) && !db.blocks[b].draft.Obj?
    {
      DocumentIs(db.blocks[b].draft);
    }
  }

  /** One that succeeds soft-deletes the file without a published use, and tombstones it with one. */
  lemma DeleteLeaves(env: Env, db: Db, f: Uuid)
    requires DeleteFile(env, db, f).Ok?
    ensures
      var d := DeleteFile(env, db, f).value;
      f in db.files
      && if UsedSomewhere(db, f, PublishedLayer) then TombstoneLeft(env, db, d, f)
         else d == db.(files := db.files[f := File(db.files[f].tombstoned, true)])
  {
    if Used(db.usages, f, PublishedLayer) {
      ClearLeaves(env, Tombstone(db, f), f);
      var d, mid := DeleteFile(env, db, f).value, Tombstone(db, f);
      assert DraftsCleared(env, mid, d, f) <==> DraftsCleared(env, db, d, f);
    }
  }

  lemma ClearLeaves(env: Env, db: Db, f: Uuid)
    requires ClearDrafts(env, db, f).Ok?
    ensures
      var d := ClearDrafts(env, db, f).value;
      && d == db.(blocks := d.blocks, histories := d.histories, usages := d.usages)
      && DraftsCleared(env, db, d, f) && DraftRowsGone(db, d, f) && VersionsStay(db, d)
  {
    var d := ClearDrafts(env, db, f).value;
    forall u: Usage ensures u in d.usages <==> u in db.usages && !(u.file == f && u.layer == DraftLayer) {
      FilterMembers(db.usages, NotDraftOf(f), u);
    }
    ClearedColumns(env, db, f);
  }

  lemma ClearedColumns(env: Env, db: Db, f: Uuid)
    requires ClearDrafts(env, db, f).Ok?
    ensures DraftsCleared(env, db, Clear(env, db, f, TouchedBlocks(db, f)), f)
  {
    forall b | b in db.blocks
      ensures b in TouchedBlocks(db, f) <==> UsedIn(db, f, b, DraftLayer) && Truthy(db.blocks[b].draft)
      ensures b in TouchedBlocks(db, f) ==> db.blocks[b].draft.Obj?
    {
    }
    forall b | b in db.blocks ensures ColumnCleared(env, db, f, b) {
      EmptyStays(db.blocks[b].draft, env.codec.text(f));
    }
  }

  /** The draft of one placement after clearing the file. */
  ghost predicate ColumnCleared(env: Env, db: Db, f: Uuid, b: BlockId)
    requires b in db.blocks
  {
    var block := db.blocks[b];
    (if b in TouchedBlocks(db, f) then block.(draft := NullJson(block.draft, env.codec.text(f))) else block)
    == if UsedIn(db, f, b, DraftLayer) && block.draft.Obj?
       then block.(draft := Obj(NullDict(block.draft.entries, env.codec.text(f)))) else block
  }

  lemma EmptyStays(j: Json, target: string)
    ensures j.Obj? && !Truthy(j) ==> Obj(NullDict(j.entries, target)) == j
  {
  }

  /** Cleanup leaves the remaining files, their usage rows and everything else as they were. */
  lemma CleanUpLeaves(env: Env, db: Db, broken: set<Uuid>)
    requires Inv(env, db)
    ensures
      var d := CleanUp(db, broken);
      && d == db.(files := d.files, stored := d.stored, usages := d.usages)
      && (forall f <- d.files :: f in db.files && d.files[f] == db.files[f])
      && (forall f <- db.files :: f in d.files
            <==> !(db.files[f].tombstoned && !db.files[f].deleted && f !in broken
                   && !UsedSomewhere(db, f, PublishedLayer)))
      && (forall f <- db.stored :: f in d.stored <==> f !in db.files || f in d.files)
      && forall u :: u in d.usages <==> u in db.usages && u.file in d.files
  {
    var gone := Removable(db, broken);
    forall u: Usage ensures u in CleanUp(db, broken).usages <==> u in db.usages && u.file !in gone {
      FilterMembers(db.usages, NotAnyOf(gone), u);
    }
  }
}
