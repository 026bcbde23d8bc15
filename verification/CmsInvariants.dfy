// What every service call keeps, and what holds over every run.

module CmsInvariants {
  import opened Wrappers
  import opened JsonTree
  import opened MediaRefs
  import opened Schemas
  import opened Validator
  import opened Versions
  import opened Cms

  // ---------------------------------------------------------- table algebra

  lemma {:induction false} FilterConcat(a: seq<Usage>, b: seq<Usage>, p: Usage -> bool)
    ensures Filter(a + b, p) == Filter(a, p) + Filter(b, p)
  {
    if a == [] {
      assert a + b == b;
    } else {
      var head := if p(a[0]) then [a[0]] else [];
      assert (a + b)[0] == a[0] && (a + b)[1..] == a[1..] + b;
      FilterConcat(a[1..], b, p);
      assert head + (Filter(a[1..], p) + Filter(b, p)) == (head + Filter(a[1..], p)) + Filter(b, p);
    }
  }

  lemma {:induction false} FilterMembers(us: seq<Usage>, p: Usage -> bool, u: Usage)
    ensures u in Filter(us, p) <==> u in us && p(u)
  {
    if us != [] {
      FilterMembers(us[1..], p, u);
    }
  }

  /** Filtering rows a second filter would not have dropped anyway. */
  lemma {:induction false} FilterImplied(us: seq<Usage>, p: Usage -> bool, q: Usage -> bool)
    requires forall u <- us :: q(u) ==> p(u)
    ensures Filter(Filter(us, p), q) == Filter(us, q)
  {
    if us != [] {
      FilterImplied(us[1..], p, q);
      FilterConcat(if p(us[0]) then [us[0]] else [], Filter(us[1..], p), q);
      assert Filter([us[0]], q) == if q(us[0]) then [us[0]] else [];
    }
  }

  lemma {:induction false} FilterDisjoint(us: seq<Usage>, p: Usage -> bool, q: Usage -> bool)
    requires forall u <- us :: p(u) ==> !q(u)
    ensures Filter(Filter(us, p), q) == []
  {
    if us != [] {
      FilterDisjoint(us[1..], p, q);
      FilterConcat(if p(us[0]) then [us[0]] else [], Filter(us[1..], p), q);
    }
  }

  lemma {:induction false} FilterAll(us: seq<Usage>, p: Usage -> bool)
    requires forall u <- us :: p(u)
    ensures Filter(us, p) == us
  {
    if us != [] {
      FilterAll(us[1..], p);
      assert us == [us[0]] + us[1..];
    }
  }

  lemma {:induction false} FilterNone(us: seq<Usage>, p: Usage -> bool)
    requires forall u <- us :: !p(u)
    ensures Filter(us, p) == []
  {
    if us != [] {
      FilterNone(us[1..], p);
    }
  }

  lemma {:induction false} FilterSwap(us: seq<Usage>, p: Usage -> bool, q: Usage -> bool)
    ensures Filter(Filter(us, p), q) == Filter(Filter(us, q), p)
  {
    if us != [] {
      FilterSwap(us[1..], p, q);
      FilterConcat(if p(us[0]) then [us[0]] else [], Filter(us[1..], p), q);
      FilterConcat(if q(us[0]) then [us[0]] else [], Filter(us[1..], q), p);
      assert Filter([us[0]], q) == if q(us[0]) then [us[0]] else [];
      assert Filter([us[0]], p) == if p(us[0]) then [us[0]] else [];
    }
  }

  /** Syncing one placement and layer replaces exactly those rows. */
  lemma SyncedRows(us: seq<Usage>, b: BlockId, layer: Layer, refs: seq<Ref>, other: BlockId, layer': Layer)
    ensures RowsAt(Filter(us, NotAt(b, layer)) + Rows(b, refs, layer), other, layer')
            == if other == b && layer' == layer then Rows(b, refs, layer) else RowsAt(us, other, layer')
  {
    var kept, added := Filter(us, NotAt(b, layer)), Rows(b, refs, layer);
    FilterConcat(kept, added, At(other, layer'));
    if other == b && layer' == layer {
      FilterDisjoint(us, NotAt(b, layer), At(b, layer));
      FilterAll(added, At(b, layer));
      assert [] + added == added;
    } else {
      FilterImplied(us, NotAt(b, layer), At(other, layer'));
      FilterNone(added, At(other, layer'));
      assert RowsAt(us, other, layer') + [] == RowsAt(us, other, layer');
    }
  }

  // -------------------------------------------------------------- invariant

  /** The rows of a layer are exactly the references extracted from a column, in order. */
  ghost predicate Indexed(env: Env, us: seq<Usage>, b: BlockId, content: Json, layer: Layer) {
    && RefsOf(env.codec, content).Refs?
    && RowsAt(us, b, layer) == Rows(b, RefsOf(env.codec, content).refs, layer)
  }

  ghost predicate PublishedIndexed(env: Env, db: Db) {
    forall b <- db.blocks :: Indexed(env, db.usages, b, db.blocks[b].published, PublishedLayer)
  }

  /** Foreign keys of usage rows, and every file row has its storage object. */
  ghost predicate Rooted(db: Db) {
    && (forall u <- db.usages :: u.file in db.files && u.block in db.blocks)
    && db.files.Keys <= db.stored
  }

  /** The version rows are one block of numbers, and the draft is what the newest one says. */
  ghost predicate Sound(env: Env, draft: Json, h: History) {
    Contiguous(h, env.keep) && Mirrors(env.codec, draft, h)
  }

  ghost predicate HistoriesSound(env: Env, db: Db) {
    forall b <- db.blocks :: b in db.histories ==> Sound(env, db.blocks[b].draft, db.histories[b])
  }

  ghost predicate Inv(env: Env, db: Db) {
    Listed(db) && PublishedIndexed(env, db) && Rooted(db) && HistoriesSound(env, db)
  }

  lemma InitialHoldsInv(env: Env, db: Db)
    requires Initial(db)
    ensures Inv(env, db)
  {
  }

  /** The index before a sync survives it, except for the synced placement and layer. */
  lemma SyncKeeps(env: Env, db: Db, b: BlockId, content: Json, layer: Layer)
    requires Sync(env, db, b, content, layer).Ok?
    ensures
      var d := Sync(env, db, b, content, layer).value;
      && d == db.(usages := d.usages)
      && Indexed(env, d.usages, b, content, layer)
      && (forall other, layer' :: !(other == b && layer' == layer) ==>
            RowsAt(d.usages, other, layer') == RowsAt(db.usages, other, layer'))
      && (Rooted(db) && b in db.blocks ==> Rooted(d))
  {
    var refs := RefsOf(env.codec, content).refs;
    var d := Sync(env, db, b, content, layer).value;
    SyncedRows(db.usages, b, layer, refs, b, layer);
    forall other, layer' | !(other == b && layer' == layer)
      ensures RowsAt(d.usages, other, layer') == RowsAt(db.usages, other, layer')
    {
      SyncedRows(db.usages, b, layer, refs, other, layer');
    }
    if Rooted(db) && b in db.blocks {
      forall u | u in d.usages ensures u.file in d.files && u.block in d.blocks {
        FilterMembers(db.usages, NotAt(b, layer), u);
      }
    }
  }

  /** The two states list the same placements on the same pages. */
  ghost predicate SamePlaces(db: Db, d: Db) {
    && d.order == db.order
    && d.blocks.Keys == db.blocks.Keys
    && d.histories.Keys == db.histories.Keys
    && db.pages.Keys <= d.pages.Keys
    && forall b <- db.blocks :: d.blocks[b].page == db.blocks[b].page
  }

  lemma ListedKept(db: Db, d: Db)
    requires Listed(db) && SamePlaces(db, d)
    ensures Listed(d)
  {
  }

  lemma IndexKept(env: Env, db: Db, d: Db)
    requires PublishedIndexed(env, db) && d.usages == db.usages
    requires d.blocks.Keys == db.blocks.Keys
    requires forall b <- db.blocks :: d.blocks[b].published == db.blocks[b].published
    ensures PublishedIndexed(env, d)
  {
  }

  lemma HistoriesKept(env: Env, db: Db, d: Db, changed: set<BlockId>)
    requires HistoriesSound(env, db) && SamePlaces(db, d)
    requires forall b <- db.blocks :: b in db.histories && b !in changed ==>
      d.blocks[b].draft == db.blocks[b].draft && d.histories[b] == db.histories[b]
    requires forall b <- changed :: b in d.blocks && b in d.histories && Sound(env, d.blocks[b].draft, d.histories[b])
    ensures HistoriesSound(env, d)
  {
    forall b | b in d.blocks && b in d.histories
      ensures Sound(env, d.blocks[b].draft, d.histories[b])
    {
      assert b in db.blocks && b in db.histories;
      if b !in changed {
        assert Sound(env, db.blocks[b].draft, db.histories[b]);
      }
    }
  }

  /** The index part of the invariant. */
  ghost predicate IndexInv(env: Env, db: Db) {
    Listed(db) && PublishedIndexed(env, db) && Rooted(db)
  }

  lemma RootedKept(db: Db, d: Db)
    requires Rooted(db) && d.usages == db.usages && db.files.Keys <= d.files.Keys <= d.stored
    requires d.blocks.Keys == db.blocks.Keys
    ensures Rooted(d)
  {
  }

  lemma WithDraftKeepsPlaces(db: Db, b: BlockId, draft: Json, h: History)
    requires b in db.blocks && b in db.histories
    ensures
      var d := WithDraft(db, b, draft, h);
      && SamePlaces(db, d) && d.usages == db.usages && d.files == db.files && d.stored == db.stored
      && forall x <- db.blocks :: d.blocks[x].published == db.blocks[x].published
  {
  }

  lemma WithDraftKeepsIndex(env: Env, db: Db, b: BlockId, draft: Json, h: History)
    requires IndexInv(env, db) && b in db.blocks && b in db.histories
    ensures IndexInv(env, WithDraft(db, b, draft, h))
  {
    var d := WithDraft(db, b, draft, h);
    WithDraftKeepsPlaces(db, b, draft, h);
    ListedKept(db, d);
    IndexKept(env, db, d);
    RootedKept(db, d);
  }

  lemma WithDraftKeepsHistories(env: Env, db: Db, b: BlockId, draft: Json, h: History)
    requires Listed(db) && HistoriesSound(env, db) && b in db.blocks && Sound(env, draft, h)
    ensures HistoriesSound(env, WithDraft(db, b, draft, h))
  {
    HistoriesKept(env, db, WithDraft(db, b, draft, h), {b});
  }

  /** Replacing a draft together with a history that mirrors it. */
  lemma WithDraftKeepsInv(env: Env, db: Db, b: BlockId, draft: Json, h: History)
    requires Inv(env, db) && b in db.blocks
    requires Sound(env, draft, h)
    ensures Inv(env, WithDraft(db, b, draft, h))
  {
    WithDraftKeepsIndex(env, db, b, draft, h);
    WithDraftKeepsHistories(env, db, b, draft, h);
  }

  lemma SaveDraftKeepsInv(env: Env, db: Db, b: BlockId, content: Dict, user: UserId, now: int)
    requires Inv(env, db) && SaveDraft(env, db, b, content, user, now).Ok?
    ensures Inv(env, SaveDraft(env, db, b, content, user, now).value)
  {
    var draft := Obj(Sanitizer.Sanitize(env.lib, db.blocks[b].schema, content));
    var h := Save(db.histories[b], draft, user, now, env.window, env.keep);
    SaveMirrors(env.codec, db.histories[b], draft, user, now, env.window, env.keep);
    WithDraftKeepsInv(env, db, b, draft, h);
    SyncKeepsInv(env, WithDraft(db, b, draft, h), b, draft, DraftLayer);
  }

  /** Syncing a layer keeps the index when the published layer is synced from the published column. */
  lemma SyncKeepsIndex(env: Env, db: Db, b: BlockId, content: Json, layer: Layer)
    requires Listed(db) && Rooted(db) && b in db.blocks
    requires Sync(env, db, b, content, layer).Ok?
    requires layer == PublishedLayer ==> db.blocks[b].published == content
    requires forall x <- db.blocks :: (x != b || layer != PublishedLayer) ==>
      Indexed(env, db.usages, x, db.blocks[x].published, PublishedLayer)
    ensures IndexInv(env, Sync(env, db, b, content, layer).value)
  {
    SyncKeeps(env, db, b, content, layer);
    var d := Sync(env, db, b, content, layer).value;
    ListedKept(db, d);
    forall x | x in d.blocks
      ensures Indexed(env, d.usages, x, d.blocks[x].published, PublishedLayer)
    {
      if x != b || layer != PublishedLayer {
        IndexedStays(env, db.usages, d.usages, x, d.blocks[x].published, PublishedLayer);
      }
    }
  }

  lemma IndexedStays(env: Env, us: seq<Usage>, us': seq<Usage>, b: BlockId, content: Json, layer: Layer)
    requires Indexed(env, us, b, content, layer) && RowsAt(us', b, layer) == RowsAt(us, b, layer)
    ensures Indexed(env, us', b, content, layer)
  {
  }

  lemma SyncKeepsHistories(env: Env, db: Db, b: BlockId, content: Json, layer: Layer)
    requires HistoriesSound(env, db) && Sync(env, db, b, content, layer).Ok?
    ensures HistoriesSound(env, Sync(env, db, b, content, layer).value)
  {
    HistoriesKept(env, db, Sync(env, db, b, content, layer).value, {});
  }

  lemma SyncKeepsInv(env: Env, db: Db, b: BlockId, content: Json, layer: Layer)
    requires Listed(db) && Rooted(db) && HistoriesSound(env, db) && b in db.blocks
    requires Sync(env, db, b, content, layer).Ok?
    requires layer == PublishedLayer ==> db.blocks[b].published == content
    requires forall x <- db.blocks :: (x != b || layer != PublishedLayer) ==>
      Indexed(env, db.usages, x, db.blocks[x].published, PublishedLayer)
    ensures Inv(env, Sync(env, db, b, content, layer).value)
  {
    SyncKeepsIndex(env, db, b, content, layer);
    SyncKeepsHistories(env, db, b, content, layer);
  }

  lemma RollBackKeepsInv(env: Env, db: Db, b: BlockId, number: nat, user: UserId, now: int)
    requires Inv(env, db) && RollBackTo(env, db, b, number, user, now).Ok?
    ensures Inv(env, RollBackTo(env, db, b, number, user, now).value)
  {
    var v := Find(db.histories[b].rows, number).value;
    CreateMirrors(env.codec, db.histories[b], v.snapshot, Rollback, user, now, env.keep);
    WithDraftKeepsInv(env, db, b, v.snapshot, Create(db.histories[b], v.snapshot, Rollback, user, now, env.keep));
  }

  lemma ImportBlockKeepsInv(env: Env, db: Db, page: PageId, data: ImportBlock, user: UserId, now: int)
    requires Inv(env, db) && ImportBlockInto(env, db, page, data, user, now).Ok?
    ensures Inv(env, ImportBlockInto(env, db, page, data, user, now).value)
  {
    if data.id in db.blocks && db.blocks[data.id].page == page {
      var draft := data.draft.GetOr(db.blocks[data.id].draft);
      CreateMirrors(env.codec, db.histories[data.id], draft, Import, user, now, env.keep);
      WithDraftKeepsInv(env, db, data.id, draft, Create(db.histories[data.id], draft, Import, user, now, env.keep));
    }
  }

  lemma {:induction false} ImportKeepsInv(env: Env, db: Db, page: PageId, data: seq<ImportBlock>, user: UserId,
                                          now: int)
    requires Inv(env, db) && ImportBlocks(env, db, page, data, user, now).Ok?
    ensures Inv(env, ImportBlocks(env, db, page, data, user, now).value)
  {
    if data != [] {
      var before := data[..|data| - 1];
      ImportKeepsInv(env, db, page, before, user, now);
      ImportBlockKeepsInv(env, ImportBlocks(env, db, page, before, user, now).value, page, data[|data| - 1], user, now);
    }
  }

  /** Freezing a block changes its row and its history only. */
  lemma FreezeChanges(env: Env, db: Db, b: BlockId, user: UserId, now: int)
    requires b in db.blocks && b in db.histories
    ensures
      var d := FreezeBlock(env, db, b, user, now);
      && SamePlaces(db, d) && d.usages == db.usages && d.files == db.files && d.stored == db.stored
      && d.blocks[b].draft == d.blocks[b].published == db.blocks[b].draft
      && d.histories[b] == Create(db.histories[b], db.blocks[b].draft, Publish, user, now, env.keep)
      && forall x <- db.blocks :: x != b ==>
           d.blocks[x] == db.blocks[x] && (x in db.histories ==> d.histories[x] == db.histories[x])
  {
  }

  lemma FreezeKeepsHistories(env: Env, db: Db, b: BlockId, user: UserId, now: int)
    requires Listed(db) && HistoriesSound(env, db) && b in db.blocks
    ensures HistoriesSound(env, FreezeBlock(env, db, b, user, now))
  {
    assert Sound(env, db.blocks[b].draft, db.histories[b]);
    CreateMirrors(env.codec, db.histories[b], db.blocks[b].draft, Publish, user, now, env.keep);
    FreezeChanges(env, db, b, user, now);
    HistoriesKept(env, db, FreezeBlock(env, db, b, user, now), {b});
  }

  lemma OthersStayIndexed(env: Env, db: Db, d: Db, b: BlockId)
    requires PublishedIndexed(env, db) && d.usages == db.usages && d.blocks.Keys == db.blocks.Keys
    requires forall x <- db.blocks :: x != b ==> d.blocks[x] == db.blocks[x]
    ensures forall x <- d.blocks :: x != b ==> Indexed(env, d.usages, x, d.blocks[x].published, PublishedLayer)
  {
  }

  lemma FreezeKeepsPlaces(env: Env, db: Db, b: BlockId, user: UserId, now: int)
    requires IndexInv(env, db) && b in db.blocks
    ensures
      var d := FreezeBlock(env, db, b, user, now);
      && Listed(d) && Rooted(d) && b in d.blocks && d.blocks[b].published == db.blocks[b].draft
      && forall x <- d.blocks :: x != b ==> Indexed(env, d.usages, x, d.blocks[x].published, PublishedLayer)
  {
    var d := FreezeBlock(env, db, b, user, now);
    assert b in db.histories;
    FreezeChanges(env, db, b, user, now);
    ListedKept(db, d);
    RootedKept(db, d);
    OthersStayIndexed(env, db, d, b);
  }

  lemma PublishBlockKeepsInv(env: Env, db: Db, b: BlockId, user: UserId, now: int)
    requires Inv(env, db) && b in db.blocks && PublishBlock(env, db, b, user, now).Ok?
    ensures Inv(env, PublishBlock(env, db, b, user, now).value)
  {
    FreezeKeepsPlaces(env, db, b, user, now);
    FreezeKeepsHistories(env, db, b, user, now);
    SyncKeepsInv(env, FreezeBlock(env, db, b, user, now), b, db.blocks[b].draft, PublishedLayer);
  }

  lemma {:induction false} PublishKeepsInv(env: Env, db: Db, page: PageId, ids: seq<BlockId>, user: UserId, now: int)
    requires Inv(env, db) && PublishBlocks(env, db, page, ids, user, now).Ok?
    ensures Inv(env, PublishBlocks(env, db, page, ids, user, now).value)
  {
    if ids != [] {
      var before, b := ids[..|ids| - 1], ids[|ids| - 1];
      PublishKeepsInv(env, db, page, before, user, now);
      var d := PublishBlocks(env, db, page, before, user, now).value;
      if b in d.blocks && d.blocks[b].page == page {
        PublishBlockKeepsInv(env, d, b, user, now);
      }
    }
  }

  lemma UsageFilterKeeps(env: Env, db: Db, d: Db, p: Usage -> bool)
    requires PublishedIndexed(env, db)
    requires d.usages == Filter(db.usages, p)
    requires forall u <- db.usages :: u.layer == PublishedLayer ==> p(u)
    requires d.blocks.Keys == db.blocks.Keys
    requires forall b <- db.blocks :: d.blocks[b].published == db.blocks[b].published
    ensures PublishedIndexed(env, d)
    ensures forall u <- d.usages :: u in db.usages && p(u)
  {
    forall b | b in d.blocks
      ensures Indexed(env, d.usages, b, d.blocks[b].published, PublishedLayer)
    {
      assert Indexed(env, db.usages, b, db.blocks[b].published, PublishedLayer);
      FilterImplied(db.usages, p, At(b, PublishedLayer));
    }
    forall u | u in d.usages ensures u in db.usages && p(u) {
      FilterMembers(db.usages, p, u);
    }
  }

  lemma NullKeepsTruth(codec: Codec, draft: Json, h: History, f: Uuid)
    requires Mirrors(codec, draft, h) && Truthy(draft) && draft.Obj?
    ensures Mirrors(codec, NullJson(draft, codec.text(f)), h.(nulled := h.nulled + [f]))
    ensures Truthy(NullJson(draft, codec.text(f)))
  {
    assert (h.nulled + [f])[..|h.nulled + [f]| - 1] == h.nulled;
  }

  lemma TouchedStaySound(env: Env, db: Db, f: Uuid, b: BlockId)
    requires HistoriesSound(env, db) && ClearDrafts(env, db, f).Ok?
    requires Touched(db, b, f) && b in db.histories
    ensures
      var d := ClearDrafts(env, db, f).value;
      Sound(env, d.blocks[b].draft, d.histories[b])
  {
    assert Sound(env, db.blocks[b].draft, db.histories[b]);
    NullKeepsTruth(env.codec, db.blocks[b].draft, db.histories[b], f);
  }

  /** Clearing a file touches the drafts tied to it, and the draft-layer rows naming it. */
  lemma ClearDraftsChanges(env: Env, db: Db, f: Uuid)
    requires ClearDrafts(env, db, f).Ok?
    ensures
      var d := ClearDrafts(env, db, f).value;
      && SamePlaces(db, d) && d.usages == Filter(db.usages, NotDraftOf(f)) && d.files == db.files
         && d.stored == db.stored
      && (forall b <- db.blocks :: d.blocks[b].published == db.blocks[b].published)
      && forall b <- db.blocks :: b in db.histories && b !in TouchedBlocks(db, f) ==>
           d.blocks[b].draft == db.blocks[b].draft && d.histories[b] == db.histories[b]
  {
  }

  lemma RootedFiltered(db: Db, d: Db)
    requires Rooted(db) && d.files == db.files && d.stored == db.stored && d.blocks.Keys == db.blocks.Keys
    requires forall u <- d.usages :: u in db.usages
    ensures Rooted(d)
  {
  }

  lemma ClearDraftsKeepsHistories(env: Env, db: Db, f: Uuid)
    requires Listed(db) && HistoriesSound(env, db) && ClearDrafts(env, db, f).Ok?
    ensures HistoriesSound(env, ClearDrafts(env, db, f).value)
  {
    var d, touched := ClearDrafts(env, db, f).value, TouchedBlocks(db, f);
    ClearDraftsChanges(env, db, f);
    forall b | b in touched ensures b in d.blocks && b in d.histories && Sound(env, d.blocks[b].draft, d.histories[b]) {
      TouchedStaySound(env, db, f, b);
    }
    HistoriesKept(env, db, d, touched);
  }

  lemma ClearDraftsKeepsInv(env: Env, db: Db, f: Uuid)
    requires Inv(env, db) && ClearDrafts(env, db, f).Ok?
    ensures Inv(env, ClearDrafts(env, db, f).value)
  {
    var d := ClearDrafts(env, db, f).value;
    ClearDraftsChanges(env, db, f);
    ListedKept(db, d);
    UsageFilterKeeps(env, db, d, NotDraftOf(f));
    RootedFiltered(db, d);
    ClearDraftsKeepsHistories(env, db, f);
  }

  lemma FileFlagIsFlags(db: Db, f: Uuid, file: File)
    requires f in db.files
    ensures FlagsOnly(db, db.(files := db.files[f := file]))
  {
  }

  lemma DeleteFileKeepsInv(env: Env, db: Db, f: Uuid)
    requires Inv(env, db) && DeleteFile(env, db, f).Ok?
    ensures Inv(env, DeleteFile(env, db, f).value)
  {
    if Used(db.usages, f, PublishedLayer) {
      var mid := db.(files := db.files[f := db.files[f].(tombstoned := true)]);
      FileFlagIsFlags(db, f, db.files[f].(tombstoned := true));
      FlagsKeepInv(env, db, mid);
      ClearDraftsKeepsInv(env, mid, f);
    } else {
      FileFlagIsFlags(db, f, db.files[f].(deleted := true));
      FlagsKeepInv(env, db, DeleteFile(env, db, f).value);
    }
  }

  lemma RemoveKeepsInv(env: Env, db: Db, gone: set<Uuid>)
    requires Inv(env, db)
    requires forall f <- gone :: !Used(db.usages, f, PublishedLayer)
    ensures Inv(env, Remove(db, gone))
  {
    UsageFilterKeeps(env, db, Remove(db, gone), NotAnyOf(gone));
  }

  lemma PruneKeepsInv(env: Env, db: Db)
    requires Inv(env, db)
    ensures PruneAll(env, db) == db
  {
    forall b | b in db.histories
      ensures PruneAll(env, db).histories[b] == db.histories[b]
    {
      PruneKeepsBlock(db.histories[b], env.keep);
    }
  }

  /** Drafts, published copies, histories and usage rows are the same, and no file is gone. */
  ghost predicate FlagsOnly(db: Db, d: Db) {
    && SamePlaces(db, d)
    && d.usages == db.usages && d.histories == db.histories
    && db.files.Keys <= d.files.Keys && (db.files.Keys <= db.stored ==> d.files.Keys <= d.stored)
    && forall b <- db.blocks ::
      d.blocks[b].published == db.blocks[b].published && d.blocks[b].draft == db.blocks[b].draft
  }

  lemma FlagsKeepInv(env: Env, db: Db, d: Db)
    requires Inv(env, db) && FlagsOnly(db, d)
    ensures Inv(env, d)
  {
    ListedKept(db, d);
    IndexKept(env, db, d);
    RootedKept(db, d);
    HistoriesKept(env, db, d, {});
  }

  lemma ToggleIsFlags(db: Db, b: BlockId, visible: bool)
    requires Toggle(db, b, visible).Ok?
    ensures FlagsOnly(db, Toggle(db, b, visible).value)
  {
  }

  lemma ToggleKeepsInv(env: Env, db: Db, b: BlockId, visible: bool)
    requires Inv(env, db) && Toggle(db, b, visible).Ok?
    ensures Inv(env, Toggle(db, b, visible).value)
  {
    ToggleIsFlags(db, b, visible);
    FlagsKeepInv(env, db, Toggle(db, b, visible).value);
  }

  lemma UnpublishIsFlags(db: Db, page: PageId)
    requires UnpublishPage(db, page).Ok?
    ensures FlagsOnly(db, UnpublishPage(db, page).value)
  {
  }

  lemma UnpublishKeepsInv(env: Env, db: Db, page: PageId)
    requires Inv(env, db) && UnpublishPage(db, page).Ok?
    ensures Inv(env, UnpublishPage(db, page).value)
  {
    UnpublishIsFlags(db, page);
    FlagsKeepInv(env, db, UnpublishPage(db, page).value);
  }

  lemma UploadIsFlags(db: Db, f: Uuid, u: Upload)
    requires UploadFile(db, f, u).Ok?
    ensures FlagsOnly(db, UploadFile(db, f, u).value)
  {
  }

  lemma UploadKeepsInv(env: Env, db: Db, f: Uuid, u: Upload)
    requires Inv(env, db) && UploadFile(db, f, u).Ok?
    ensures Inv(env, UploadFile(db, f, u).value)
  {
    UploadIsFlags(db, f, u);
    FlagsKeepInv(env, db, UploadFile(db, f, u).value);
  }

  lemma CleanUpKeepsInv(env: Env, db: Db, broken: set<Uuid>)
    requires Inv(env, db)
    ensures Inv(env, CleanUp(db, broken))
  {
    RemoveKeepsInv(env, db, Removable(db, broken));
  }

  /** Every service call keeps the invariant, whether it succeeds or is rolled back. */
  lemma StepKeepsInv(env: Env, db: Db, ev: Event)
    requires Inv(env, db)
    ensures Inv(env, After(env, db, ev))
  {
    if Attempt(env, db, ev).Ok? {
      match ev
      case SaveDraftEv(b, content, user, now) => SaveDraftKeepsInv(env, db, b, content, user, now);
      case RollBackEv(b, number, user, now) => RollBackKeepsInv(env, db, b, number, user, now);
      case ImportEv(page, data, user, now) => ImportKeepsInv(env, db, page, data, user, now);
      case PublishEv(page, user, now) => PublishPageKeepsInv(env, db, page, user, now);
      case DeleteFileEv(f) => DeleteFileKeepsInv(env, db, f);
      case CleanUpEv(broken) => CleanUpKeepsInv(env, db, broken);
      case PruneEv => PruneKeepsInv(env, db);
      case ToggleEv(b, visible) => ToggleKeepsInv(env, db, b, visible);
      case UnpublishEv(page) => UnpublishKeepsInv(env, db, page);
      case UploadEv(f, u) => UploadKeepsInv(env, db, f, u);
    }
  }

  lemma PublishPageKeepsInv(env: Env, db: Db, page: PageId, user: UserId, now: int)
    requires Inv(env, db) && PublishPage(env, db, page, user, now).Ok?
    ensures Inv(env, PublishPage(env, db, page, user, now).value)
  {
    PublishKeepsInv(env, db, page, db.order, user, now);
  }

  lemma {:induction false} RunKeepsInv(env: Env, db: Db, evs: seq<Event>)
    requires Inv(env, db)
    ensures Inv(env, Run(env, db, evs))
  {
    if evs != [] {
      RunKeepsInv(env, db, evs[..|evs| - 1]);
      StepKeepsInv(env, Run(env, db, evs[..|evs| - 1]), evs[|evs| - 1]);
    }
  }
}
