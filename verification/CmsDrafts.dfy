// Drafts against what is recorded about them: the newest version, and the draft layer
// of the media index.

module CmsDrafts {
  import opened Wrappers
  import opened JsonTree
  import opened MediaRefs
  import opened Versions
  import opened Cms
  import opened CmsInvariants
  import opened CmsTheorems

  // ------------------------------------------------------------ rolling back

  /**
   * On the tables: rolling a block back to a stored version and then back to what was
   * newest makes its draft the newest snapshot; both calls succeed and nothing else about
   * the block changes.
   */
  lemma RollingBackTwice(env: Env, db: Db, b: BlockId, k: nat, user: UserId, now: int, user': UserId, now': int)
    returns (mid: Db, back: Db)
    requires env.keep >= 2 && b in db.blocks && b in db.histories && Find(db.histories[b].rows, k).Some?
    requires Contiguous(db.histories[b], env.keep)
    ensures db.histories[b].rows != []
    ensures RollBackTo(env, db, b, k, user, now) == Ok(mid)
    ensures RollBackTo(env, mid, b, db.histories[b].created, user', now') == Ok(back)
    ensures b in mid.blocks && mid.blocks[b] == db.blocks[b].(draft := Find(db.histories[b].rows, k).value.snapshot)
    ensures b in back.blocks
            && back.blocks[b] == db.blocks[b].(draft := db.histories[b].rows[|db.histories[b].rows| - 1].snapshot)
  {
    TwoRollbacks(db.histories[b], k, user, now, user', now', env.keep);
    RollBacksWrite(env, db, b, k, user, now, db.histories[b].created, user', now');
    mid := RollBackTo(env, db, b, k, user, now).value;
    back := RollBackTo(env, mid, b, db.histories[b].created, user', now').value;
  }

  /**
   * In every reachable state the newest snapshot of a block, to which that returns, is the
   * block's draft (null read as {}) if and only if every media reference of the snapshot
   * still stands in the draft.
   */
  lemma RestoredIffReferencesStand(env: Env, db: Db, evs: seq<Event>, b: BlockId)
    requires Initial(db) && b in Run(env, db, evs).blocks
    ensures b in Run(env, db, evs).histories
    ensures
      var h, draft := Run(env, db, evs).histories[b], Run(env, db, evs).blocks[b].draft;
      h.rows != [] ==>
        var newest := h.rows[|h.rows| - 1].snapshot;
        newest == OrEmpty(draft) <==> SitesStand(newest, OrEmpty(draft))
  {
    VersionsOverRuns(env, db, evs, b);
    if Run(env, db, evs).histories[b].rows != [] {
      SnapshotRestoresIff(env.codec, Run(env, db, evs).blocks[b].draft, Run(env, db, evs).histories[b]);
    }
  }

  lemma TwoRollbacks(h: History, k: nat, user: UserId, now: int, user': UserId, now': int, keep: nat)
    requires keep >= 2 && Contiguous(h, keep) && Find(h.rows, k).Some?
    ensures h.rows != []
    ensures
      var first := RollBack(h, k, user, now, keep);
      && first.Some? && first.value.0 == Find(h.rows, k).value.snapshot
      && var second := RollBack(first.value.1, h.created, user', now', keep);
         second.Some? && second.value.0 == h.rows[|h.rows| - 1].snapshot
  {
    RollbackRoundTrip(h, k, user, now, user', now', keep);
  }

  lemma RollBacksWrite(env: Env, db: Db, b: BlockId, k: nat, user: UserId, now: int, k': nat, user': UserId, now': int)
    requires b in db.blocks && b in db.histories && RollBack(db.histories[b], k, user, now, env.keep).Some?
    ensures
      var (draft, h1) := RollBack(db.histories[b], k, user, now, env.keep).value;
      var first := RollBackTo(env, db, b, k, user, now);
      var back := RollBack(h1, k', user', now', env.keep);
      && first.Ok? && b in first.value.blocks && first.value.blocks[b] == db.blocks[b].(draft := draft)
      && (back.Some? ==>
            var second := RollBackTo(env, first.value, b, k', user', now');
            second.Ok? && b in second.value.blocks && second.value.blocks[b] == db.blocks[b].(draft := back.value.0))
  {
    RollBackWrites(env, db, b, k, user, now);
    RollBackWrites(env, RollBackTo(env, db, b, k, user, now).value, b, k', user', now');
  }

  lemma RollBackWrites(env: Env, db: Db, b: BlockId, number: nat, user: UserId, now: int)
    requires b in db.blocks && b in db.histories
    ensures
      var r, step := RollBack(db.histories[b], number, user, now, env.keep), RollBackTo(env, db, b, number, user, now);
      && (step.Ok? <==> r.Some?)
      && (step.Ok? ==>
            && b in step.value.blocks && b in step.value.histories
            && step.value.blocks[b] == db.blocks[b].(draft := r.value.0) && step.value.histories[b] == r.value.1)
  {
  }

  // ------------------------------------------------ the newest snapshot and the draft

  /** The newest stored snapshot of a block is its draft, null read as {}. */
  predicate SnapshotIsDraft(draft: Json, h: History) {
    h.rows != [] ==> h.rows[|h.rows| - 1].snapshot == OrEmpty(draft)
  }

  /**
   * The call deletes a file that published content uses, a draft-layer row ties the block
   * to it, and the draft names it.
   */
  predicate Loses(env: Env, db: Db, ev: Event, b: BlockId) {
    && ev.DeleteFileEv? && DeleteFile(env, db, ev.f).Ok? && Used(db.usages, ev.f, PublishedLayer)
    && Touched(db, b, ev.f) && !Free(JsonSites(db.blocks[b].draft), env.codec.text(ev.f))
  }

  /** The block's draft and versions are untouched, or its newest version was written just now. */
  ghost predicate SameOrFresh(db: Db, d: Db, b: BlockId) {
    && b in db.blocks && b in db.histories && b in d.blocks && b in d.histories
    && (d.histories[b].nulled == [] || (d.histories[b] == db.histories[b] && d.blocks[b].draft == db.blocks[b].draft))
  }

  lemma {:induction false} ImportSameOrFresh(env: Env, db: Db, page: PageId, data: seq<ImportBlock>, user: UserId,
                                             now: int, b: BlockId)
    requires ImportBlocks(env, db, page, data, user, now).Ok? && b in db.blocks && b in db.histories
    ensures SameOrFresh(db, ImportBlocks(env, db, page, data, user, now).value, b)
  {
    if data != [] {
      ImportSameOrFresh(env, db, page, data[..|data| - 1], user, now, b);
    }
  }

  lemma {:induction false} PublishSameOrFresh(env: Env, db: Db, page: PageId, ids: seq<BlockId>, user: UserId,
                                              now: int, b: BlockId)
    requires PublishBlocks(env, db, page, ids, user, now).Ok? && b in db.blocks && b in db.histories
    ensures SameOrFresh(db, PublishBlocks(env, db, page, ids, user, now).value, b)
  {
    if ids != [] {
      PublishSameOrFresh(env, db, page, ids[..|ids| - 1], user, now, b);
    }
  }

  lemma SaveSameOrFresh(env: Env, db: Db, b': BlockId, content: Dict, user: UserId, now: int, b: BlockId)
    requires SaveDraft(env, db, b', content, user, now).Ok? && b in db.blocks && b in db.histories
    ensures SameOrFresh(db, SaveDraft(env, db, b', content, user, now).value, b)
  {
    SaveIsFresh(db.histories[b'], Obj(Sanitizer.Sanitize(env.lib, db.blocks[b'].schema, content)), user, now,
                env.window, env.keep);
  }

  lemma SaveIsFresh(h: History, content: Json, user: UserId, now: int, window: int, keep: nat)
    ensures Save(h, content, user, now, window, keep).nulled == []
  {
  }

  lemma RollBackSameOrFresh(env: Env, db: Db, b': BlockId, number: nat, user: UserId, now: int, b: BlockId)
    requires RollBackTo(env, db, b', number, user, now).Ok? && b in db.blocks && b in db.histories
    ensures SameOrFresh(db, RollBackTo(env, db, b', number, user, now).value, b)
  {
  }

  lemma FlagsSame(db: Db, d: Db, b: BlockId)
    requires FlagsOnly(db, d) && b in db.blocks && b in db.histories
    ensures SameOrFresh(db, d, b)
  {
  }

  lemma WritingCallsSameOrFresh(env: Env, db: Db, ev: Event, b: BlockId)
    requires Attempt(env, db, ev).Ok? && b in db.blocks && b in db.histories
    requires ev.SaveDraftEv? || ev.RollBackEv? || ev.ImportEv? || ev.PublishEv?
    ensures SameOrFresh(db, Attempt(env, db, ev).value, b)
  {
    match ev
    case SaveDraftEv(b', content, user, now) => SaveSameOrFresh(env, db, b', content, user, now, b);
    case RollBackEv(b', number, user, now) => RollBackSameOrFresh(env, db, b', number, user, now, b);
    case ImportEv(page, data, user, now) => ImportSameOrFresh(env, db, page, data, user, now, b);
    case PublishEv(page, user, now) => PublishSameOrFresh(env, db, page, db.order, user, now, b);
  }

  lemma FlagCallsSameOrFresh(env: Env, db: Db, ev: Event, b: BlockId)
    requires PruneAll(env, db) == db && Attempt(env, db, ev).Ok? && b in db.blocks && b in db.histories
    requires ev.ToggleEv? || ev.UnpublishEv? || ev.UploadEv? || ev.CleanUpEv? || ev.PruneEv?
    ensures SameOrFresh(db, Attempt(env, db, ev).value, b)
  {
    match ev
    case ToggleEv(b', visible) =>
      ToggleIsFlags(db, b', visible);
      FlagsSame(db, Toggle(db, b', visible).value, b);
    case UnpublishEv(page) =>
      UnpublishIsFlags(db, page);
      FlagsSame(db, UnpublishPage(db, page).value, b);
    case PruneEv =>
    case UploadEv(_, _) =>
    case CleanUpEv(_) =>
  }

  lemma OtherCallsSameOrFresh(env: Env, db: Db, ev: Event, b: BlockId)
    requires Inv(env, db) && b in db.blocks && b in db.histories && !ev.DeleteFileEv?
    ensures SameOrFresh(db, After(env, db, ev), b)
  {
    if Attempt(env, db, ev).Ok? {
      if ev.SaveDraftEv? || ev.RollBackEv? || ev.ImportEv? || ev.PublishEv? {
        WritingCallsSameOrFresh(env, db, ev, b);
      } else {
        PruneKeepsInv(env, db);
        FlagCallsSameOrFresh(env, db, ev, b);
      }
    }
  }

  /** Clearing a draft that has something to clear makes it another draft, and leaves it non-empty. */
  lemma ClearingShows(env: Env, draft: Json, f: Uuid)
    requires draft.Obj? && Truthy(draft)
    ensures OrEmpty(NullJson(draft, env.codec.text(f))) == OrEmpty(draft) <==> Free(JsonSites(draft), env.codec.text(f))
  {
    NullingUnchangedIffFree(draft.entries, "", env.codec.text(f));
  }

  /** What a deletion does to one block. */
  lemma DeletedDraft(env: Env, db: Db, f: Uuid, b: BlockId)
    requires Listed(db) && b in db.blocks && DeleteFile(env, db, f).Ok?
    ensures
      var d, cleared := DeleteFile(env, db, f).value, Used(db.usages, f, PublishedLayer) && Touched(db, b, f);
      && b in d.blocks && b in d.histories && d.histories[b].rows == db.histories[b].rows
      && d.blocks[b].draft == (if cleared then NullJson(db.blocks[b].draft, env.codec.text(f)) else db.blocks[b].draft)
      && (cleared ==> db.blocks[b].draft.Obj? && Truthy(db.blocks[b].draft))
  {
    if Used(db.usages, f, PublishedLayer) {
      var mid := Tombstone(db, f);
      assert Touched(mid, b, f) <==> Touched(db, b, f);
      assert b in TouchedBlocks(mid, f) <==> Touched(mid, b, f);
    }
  }

  lemma ClearedSnapshotIff(env: Env, draft: Json, f: Uuid, h: History, h': History)
    requires SnapshotIsDraft(draft, h) && h.rows != [] && h'.rows == h.rows
    requires draft.Obj? && Truthy(draft)
    ensures SnapshotIsDraft(NullJson(draft, env.codec.text(f)), h') <==> Free(JsonSites(draft), env.codec.text(f))
  {
    ClearingShows(env, draft, f);
  }

  lemma DeletionKeepsSnapshotIff(env: Env, db: Db, f: Uuid, b: BlockId)
    requires Listed(db) && b in db.blocks && DeleteFile(env, db, f).Ok?
    requires SnapshotIsDraft(db.blocks[b].draft, db.histories[b])
    ensures b in DeleteFile(env, db, f).value.blocks && b in DeleteFile(env, db, f).value.histories
    ensures
      var d := DeleteFile(env, db, f).value;
      SnapshotIsDraft(d.blocks[b].draft, d.histories[b])
      <==> db.histories[b].rows == [] || !Loses(env, db, DeleteFileEv(f), b)
  {
    var d := DeleteFile(env, db, f).value;
    DeletedDraft(env, db, f, b);
    if db.histories[b].rows != [] && Used(db.usages, f, PublishedLayer) && Touched(db, b, f) {
      ClearedSnapshotIff(env, db.blocks[b].draft, f, db.histories[b], d.histories[b]);
    }
  }

  lemma FreshSnapshotIsDraft(env: Env, db: Db, d: Db, b: BlockId)
    requires SameOrFresh(db, d, b) && SnapshotIsDraft(db.blocks[b].draft, db.histories[b])
    requires Sound(env, d.blocks[b].draft, d.histories[b])
    ensures SnapshotIsDraft(d.blocks[b].draft, d.histories[b])
  {
  }

  lemma OtherCallsKeepSnapshot(env: Env, db: Db, ev: Event, b: BlockId)
    requires Inv(env, db) && b in db.blocks && SnapshotIsDraft(db.blocks[b].draft, db.histories[b]) && !ev.DeleteFileEv?
    ensures b in After(env, db, ev).blocks && b in After(env, db, ev).histories
    ensures SnapshotIsDraft(After(env, db, ev).blocks[b].draft, After(env, db, ev).histories[b])
  {
    StepKeepsInv(env, db, ev);
    OtherCallsSameOrFresh(env, db, ev, b);
    FreshSnapshotIsDraft(env, db, After(env, db, ev), b);
  }

  /** From a state where it is, the newest snapshot stays the draft exactly if the call is no such deletion. */
  lemma StepKeepsSnapshotIff(env: Env, db: Db, ev: Event, b: BlockId)
    requires Inv(env, db) && b in db.blocks && SnapshotIsDraft(db.blocks[b].draft, db.histories[b])
    ensures b in After(env, db, ev).blocks && b in After(env, db, ev).histories
    ensures SnapshotIsDraft(After(env, db, ev).blocks[b].draft, After(env, db, ev).histories[b])
            <==> db.histories[b].rows == [] || !Loses(env, db, ev, b)
  {
    if ev.DeleteFileEv? {
      DeletionEventKeepsSnapshotIff(env, db, ev, b);
    } else {
      OtherCallsKeepSnapshot(env, db, ev, b);
    }
  }

  lemma AfterDeletion(env: Env, db: Db, ev: Event)
    requires ev.DeleteFileEv?
    ensures After(env, db, ev) == if DeleteFile(env, db, ev.f).Ok? then DeleteFile(env, db, ev.f).value else db
  {
  }

  lemma DeletionEventKeepsSnapshotIff(env: Env, db: Db, ev: Event, b: BlockId)
    requires Listed(db) && b in db.blocks && SnapshotIsDraft(db.blocks[b].draft, db.histories[b]) && ev.DeleteFileEv?
    ensures b in After(env, db, ev).blocks && b in After(env, db, ev).histories
    ensures SnapshotIsDraft(After(env, db, ev).blocks[b].draft, After(env, db, ev).histories[b])
            <==> db.histories[b].rows == [] || !Loses(env, db, ev, b)
  {
    AfterDeletion(env, db, ev);
    if DeleteFile(env, db, ev.f).Ok? {
      DeletionKeepsSnapshotIff(env, db, ev.f, b);
    }
  }

  /** No call of the run takes a media reference out of the block's draft. */
  predicate NeverLoses(env: Env, db: Db, evs: seq<Event>, b: BlockId) {
    evs == []
    || (NeverLoses(env, db, evs[..|evs| - 1], b) && !Loses(env, Run(env, db, evs[..|evs| - 1]), evs[|evs| - 1], b))
  }

  /** In such a run the newest snapshot of the block is always its draft. */
  lemma {:induction false} NewestSnapshotIsTheDraft(env: Env, db: Db, evs: seq<Event>, b: BlockId)
    requires Initial(db) && b in db.blocks && NeverLoses(env, db, evs, b)
    ensures b in Run(env, db, evs).blocks && b in Run(env, db, evs).histories
    ensures SnapshotIsDraft(Run(env, db, evs).blocks[b].draft, Run(env, db, evs).histories[b])
  {
    InitialHoldsInv(env, db);
    if evs != [] {
      var init := evs[..|evs| - 1];
      NewestSnapshotIsTheDraft(env, db, init, b);
      RunKeepsInv(env, db, init);
      StepKeepsSnapshotIff(env, Run(env, db, init), evs[|evs| - 1], b);
    }
  }

  // ------------------------------------------------ calls that skip the draft index

  lemma DraftIndexedIff(env: Env, db: Db, d: Db, b: BlockId)
    requires b in db.blocks && b in d.blocks && d.usages == db.usages
    requires Indexed(env, db.usages, b, db.blocks[b].draft, DraftLayer)
    ensures Indexed(env, d.usages, b, d.blocks[b].draft, DraftLayer)
            <==> RefsOf(env.codec, d.blocks[b].draft) == RefsOf(env.codec, db.blocks[b].draft)
  {
    var was, now := RefsOf(env.codec, db.blocks[b].draft), RefsOf(env.codec, d.blocks[b].draft);
    if now.Refs? && Rows(b, was.refs, DraftLayer) == Rows(b, now.refs, DraftLayer) {
      RowsInjective(b, was.refs, now.refs, DraftLayer);
    }
  }

  /** A rollback keeps the draft index in agreement if and only if the old snapshot has the draft's references. */
  lemma RollbackKeepsIndexIff(env: Env, db: Db, b: BlockId, number: nat, user: UserId, now: int)
    requires DraftsIndexed(env, db) && RollBackTo(env, db, b, number, user, now).Ok?
    ensures Find(db.histories[b].rows, number).Some?
    ensures DraftsIndexed(env, RollBackTo(env, db, b, number, user, now).value)
            <==> RefsOf(env.codec, Find(db.histories[b].rows, number).value.snapshot)
                 == RefsOf(env.codec, db.blocks[b].draft)
  {
    var d := RollBackTo(env, db, b, number, user, now).value;
    forall x | x in db.blocks
      ensures Indexed(env, d.usages, x, d.blocks[x].draft, DraftLayer)
              <==> RefsOf(env.codec, d.blocks[x].draft) == RefsOf(env.codec, db.blocks[x].draft)
    {
      DraftIndexedIff(env, db, d, x);
    }
  }

  /** The placement as an import leaves it, bar its history. */
  ghost predicate DraftGiven(db: Db, d: Db, b: BlockId, page: PageId, given: Option<Json>) {
    && b in db.blocks && b in d.blocks
    && d.blocks[b] == db.blocks[b].(draft := if db.blocks[b].page == page then given.GetOr(db.blocks[b].draft)
                                            else db.blocks[b].draft)
  }

  /** Only drafts and histories differ, and the drafts are these. */
  ghost predicate DraftsGiven(db: Db, d: Db, page: PageId, data: seq<ImportBlock>) {
    && d == db.(blocks := d.blocks, histories := d.histories)
    && d.blocks.Keys == db.blocks.Keys == d.histories.Keys
    && forall b <- db.blocks :: DraftGiven(db, d, b, page, GivenDraft(data, b))
  }

  /** One entry writes one placement's draft and history, or nothing. */
  lemma ImportWritesOne(env: Env, db: Db, page: PageId, data: ImportBlock, user: UserId, now: int)
    requires ImportBlockInto(env, db, page, data, user, now).Ok? && db.histories.Keys == db.blocks.Keys
    ensures
      var d := ImportBlockInto(env, db, page, data, user, now).value;
      && d == db.(blocks := d.blocks, histories := d.histories) && d.blocks.Keys == db.blocks.Keys == d.histories.Keys
      && forall b <- db.blocks :: DraftGiven(db, d, b, page, if b == data.id then data.draft else None)
  {
  }

  lemma GivenExtends(db: Db, d: Db, e: Db, page: PageId, before: seq<ImportBlock>, last: ImportBlock)
    requires DraftsGiven(db, d, page, before)
    requires e == d.(blocks := e.blocks, histories := e.histories) && e.blocks.Keys == d.blocks.Keys == e.histories.Keys
    requires forall b <- d.blocks :: DraftGiven(d, e, b, page, if b == last.id then last.draft else None)
    ensures DraftsGiven(db, e, page, before + [last])
  {
    forall b | b in db.blocks ensures DraftGiven(db, e, b, page, GivenDraft(before + [last], b)) {
      GivenLast(before, last, b);
      assert DraftGiven(db, d, b, page, GivenDraft(before, b));
      assert DraftGiven(d, e, b, page, if b == last.id then last.draft else None);
    }
  }

  /** A successful import of any document: repeated, unknown, foreign and draftless entries included. */
  lemma {:induction false} ImportedDrafts(env: Env, db: Db, page: PageId, data: seq<ImportBlock>, user: UserId,
                                          now: int)
    requires ImportBlocks(env, db, page, data, user, now).Ok? && db.histories.Keys == db.blocks.Keys
    ensures DraftsGiven(db, ImportBlocks(env, db, page, data, user, now).value, page, data)
  {
    if data != [] {
      var before, last := data[..|data| - 1], data[|data| - 1];
      ImportedDrafts(env, db, page, before, user, now);
      var d := ImportBlocks(env, db, page, before, user, now).value;
      ImportWritesOne(env, d, page, last, user, now);
      GivenExtends(db, d, ImportBlockInto(env, d, page, last, user, now).value, page, before, last);
      assert data == before + [last];
    }
  }

  /** An entry the import can process; entries of no placement of the page are skipped. */
  predicate AcceptedEntry(db: Db, page: PageId, d: ImportBlock) {
    d.id in db.blocks && db.blocks[d.id].page == page ==> Validatable(db.blocks[d.id].schema, d.draft.GetOr(Obj([])))
  }

  /** How many entries name the placement. */
  function Naming(data: seq<ImportBlock>, b: BlockId): nat {
    if data == [] then 0
    else Naming(data[..|data| - 1], b) + if data[|data| - 1].id == b then 1 else 0
  }

  /** One more version of each placement of the page for each entry naming it. */
  ghost predicate VersionsGiven(db: Db, d: Db, page: PageId, data: seq<ImportBlock>) {
    forall b <- db.blocks ::
      && b in db.histories && b in d.histories
      && d.histories[b].created
         == db.histories[b].created + if db.blocks[b].page == page then Naming(data, b) else 0
  }

  lemma EntryAcceptedIff(env: Env, db: Db, d: Db, page: PageId, before: seq<ImportBlock>, last: ImportBlock,
                         user: UserId, now: int)
    requires DraftsGiven(db, d, page, before)
    ensures ImportBlockInto(env, d, page, last, user, now).Ok? <==> AcceptedEntry(db, page, last)
  {
    if last.id in db.blocks {
      assert DraftGiven(db, d, last.id, page, GivenDraft(before, last.id));
    }
  }

  lemma EntryGivesVersion(env: Env, db: Db, page: PageId, last: ImportBlock, user: UserId, now: int, b: BlockId)
    requires ImportBlockInto(env, db, page, last, user, now).Ok? && b in db.blocks && b in db.histories
    ensures
      var e := ImportBlockInto(env, db, page, last, user, now).value;
      && b in e.histories
      && e.histories[b].created
         == db.histories[b].created + if b == last.id && db.blocks[b].page == page then 1 else 0
  {
  }

  lemma VersionsExtend(env: Env, db: Db, d: Db, page: PageId, before: seq<ImportBlock>, last: ImportBlock,
                       user: UserId, now: int)
    requires DraftsGiven(db, d, page, before) && VersionsGiven(db, d, page, before)
    requires ImportBlockInto(env, d, page, last, user, now).Ok?
    ensures VersionsGiven(db, ImportBlockInto(env, d, page, last, user, now).value, page, before + [last])
  {
    var e := ImportBlockInto(env, d, page, last, user, now).value;
    assert (before + [last])[..|before|] == before;
    forall b | b in db.blocks
      ensures b in e.histories
      ensures e.histories[b].created
              == db.histories[b].created + if db.blocks[b].page == page then Naming(before + [last], b) else 0
    {
      assert DraftGiven(db, d, b, page, GivenDraft(before, b));
      EntryGivesVersion(env, d, page, last, user, now, b);
    }
  }

  lemma AllAcceptedLast(db: Db, page: PageId, before: seq<ImportBlock>, last: ImportBlock)
    ensures (forall d <- before + [last] :: AcceptedEntry(db, page, d))
            <==> (forall d <- before :: AcceptedEntry(db, page, d)) && AcceptedEntry(db, page, last)
  {
    assert forall d :: d in before + [last] <==> d in before || d == last;
  }

  /**
   * Importing any document succeeds if and only if each entry of a placement of the page can
   * be validated. It then writes exactly the last draft given for each of them, and one
   * version for each entry; nothing else changes.
   */
  lemma {:induction false} ImportAnyDocument(env: Env, db: Db, page: PageId, data: seq<ImportBlock>, user: UserId,
                                             now: int)
    requires db.histories.Keys == db.blocks.Keys
    ensures
      var r := ImportBlocks(env, db, page, data, user, now);
      && (r.Ok? <==> forall d <- data :: AcceptedEntry(db, page, d))
      && (r.Ok? ==> DraftsGiven(db, r.value, page, data) && VersionsGiven(db, r.value, page, data))
  {
    if data == [] {
      ImportedDrafts(env, db, page, data, user, now);
    } else {
      var before, last := data[..|data| - 1], data[|data| - 1];
      assert data == before + [last];
      ImportAnyDocument(env, db, page, before, user, now);
      AllAcceptedLast(db, page, before, last);
      var r := ImportBlocks(env, db, page, before, user, now);
      if r.Ok? {
        EntryAcceptedIff(env, db, r.value, page, before, last, user, now);
        if ImportBlockInto(env, r.value, page, last, user, now).Ok? {
          ImportedDrafts(env, db, page, data, user, now);
          VersionsExtend(env, db, r.value, page, before, last, user, now);
        }
      }
    }
  }

  /**
   * An import keeps the draft index in agreement if and only if each draft it gives has the
   * references of the one it replaces.
   */
  lemma ImportKeepsIndexIff(env: Env, db: Db, page: PageId, data: seq<ImportBlock>, user: UserId, now: int)
    requires DraftsIndexed(env, db) && db.histories.Keys == db.blocks.Keys
    requires ImportPage(env, db, page, data, user, now).Ok?
    ensures DraftsIndexed(env, ImportPage(env, db, page, data, user, now).value)
            <==> forall b <- db.blocks :: db.blocks[b].page == page && GivenDraft(data, b).Some? ==>
                   RefsOf(env.codec, GivenDraft(data, b).value) == RefsOf(env.codec, db.blocks[b].draft)
  {
    var d := ImportPage(env, db, page, data, user, now).value;
    ImportedDrafts(env, db, page, data, user, now);
    forall b | b in db.blocks
      ensures Indexed(env, d.usages, b, d.blocks[b].draft, DraftLayer)
              <==> (db.blocks[b].page == page && GivenDraft(data, b).Some? ==>
                      RefsOf(env.codec, GivenDraft(data, b).value) == RefsOf(env.codec, db.blocks[b].draft))
    {
      assert DraftGiven(db, d, b, page, GivenDraft(data, b));
      DraftIndexedIff(env, db, d, b);
    }
  }

  lemma {:induction false} FilterDropsNothingIff(us: seq<Usage>, p: Usage -> bool)
    ensures |Filter(us, p)| <= |us|
    ensures Filter(us, p) == us <==> forall u <- us :: p(u)
  {
    if us != [] {
      FilterDropsNothingIff(us[1..], p);
      assert us == [us[0]] + us[1..];
      if p(us[0]) {
        assert Filter(us, p) == [us[0]] + Filter(us[1..], p);
        assert Filter(us, p)[1..] == Filter(us[1..], p);
      }
    }
  }

  lemma CleanedRowsIff(env: Env, db: Db, broken: set<Uuid>, b: BlockId)
    requires b in db.blocks && Indexed(env, db.usages, b, db.blocks[b].draft, DraftLayer)
    ensures Indexed(env, CleanUp(db, broken).usages, b, db.blocks[b].draft, DraftLayer)
            <==> forall f <- Removable(db, broken) :: !References(env.codec, db.blocks[b].draft, f)
  {
    var gone, refs := Removable(db, broken), RefsOf(env.codec, db.blocks[b].draft).refs;
    var rows := Rows(b, refs, DraftLayer);
    FilterSwap(db.usages, NotAnyOf(gone), At(b, DraftLayer));
    FilterDropsNothingIff(rows, NotAnyOf(gone));
    if forall u <- rows :: NotAnyOf(gone)(u) {
      forall f | f in gone ensures !References(env.codec, db.blocks[b].draft, f) {
        if r :| r in refs && r.id == f {
          var i :| 0 <= i < |refs| && refs[i] == r;
          assert rows[i] in rows;
        }
      }
    }
  }

  /**
   * Cleanup cascades to the draft-layer rows of the files it removes. It keeps the draft
   * index in agreement if and only if no draft references a file it removes.
   */
  lemma CleanUpKeepsDraftIndexIff(env: Env, db: Db, broken: set<Uuid>)
    requires DraftsIndexed(env, db)
    ensures DraftsIndexed(env, CleanUp(db, broken))
            <==> forall b <- db.blocks, f <- Removable(db, broken) :: !References(env.codec, db.blocks[b].draft, f)
  {
    forall b | b in db.blocks
      ensures Indexed(env, CleanUp(db, broken).usages, b, db.blocks[b].draft, DraftLayer)
              <==> forall f <- Removable(db, broken) :: !References(env.codec, db.blocks[b].draft, f)
    {
      CleanedRowsIff(env, db, broken, b);
    }
  }

  // -------------------------------------------------------------- paced saves

  /** The block's versions are as they were. */
  predicate VersionsUntouched(db: Db, d: Db, b: BlockId) {
    && b in db.histories && b in d.histories
    && d.histories[b].rows == db.histories[b].rows && d.histories[b].created == db.histories[b].created
  }

  /** Every call of the run saves the block's draft as this user, or leaves its versions alone. */
  predicate OnlySavesBy(env: Env, db: Db, evs: seq<Event>, b: BlockId, user: UserId) {
    evs == []
    || var init, last := evs[..|evs| - 1], evs[|evs| - 1];
       && OnlySavesBy(env, db, init, b, user)
       && ((last.SaveDraftEv? && last.b == b && last.user == user)
           || VersionsUntouched(Run(env, db, init), Run(env, db, evs), b))
  }

  /** The calls that may write versions of the block, by their arguments. */
  predicate WritesVersions(db: Db, ev: Event, b: BlockId) {
    b in db.blocks
    && match ev
       case SaveDraftEv(b', _, _, _) => b' == b
       case RollBackEv(b', _, _, _) => b' == b
       case ImportEv(page, data, _, _) => page == db.blocks[b].page && exists d <- data :: d.id == b
       case PublishEv(page, _, _) => page == db.blocks[b].page
       case _ => false
  }

  lemma {:induction false} UnnamedInImport(env: Env, db: Db, page: PageId, data: seq<ImportBlock>, user: UserId,
                                           now: int, b: BlockId)
    requires ImportBlocks(env, db, page, data, user, now).Ok? && b in db.blocks && b in db.histories
    requires db.blocks[b].page != page || forall d <- data :: d.id != b
    ensures
      var d := ImportBlocks(env, db, page, data, user, now).value;
      b in d.blocks && d.blocks[b].page == db.blocks[b].page && VersionsUntouched(db, d, b)
  {
    if data != [] {
      assert data[|data| - 1] in data;
      UnnamedInImport(env, db, page, data[..|data| - 1], user, now, b);
    }
  }

  lemma OtherPagePublished(env: Env, db: Db, page: PageId, user: UserId, now: int, b: BlockId)
    requires Listed(db) && PublishPage(env, db, page, user, now).Ok? && b in db.blocks && db.blocks[b].page != page
    ensures VersionsUntouched(db, PublishPage(env, db, page, user, now).value, b)
  {
    PublishIsWrite(env, db, page, user, now);
    PublishEffect(env, db, page, db.order, user, now);
  }

  lemma DeletionWritesNoVersion(env: Env, db: Db, f: Uuid, b: BlockId)
    requires DeleteFile(env, db, f).Ok? && b in db.blocks && b in db.histories
    ensures VersionsUntouched(db, DeleteFile(env, db, f).value, b)
  {
  }

  lemma DraftCallsElsewhere(env: Env, db: Db, ev: Event, b: BlockId)
    requires ev.SaveDraftEv? || ev.RollBackEv?
    requires Attempt(env, db, ev).Ok? && b in db.blocks && b in db.histories && ev.b != b
    ensures VersionsUntouched(db, Attempt(env, db, ev).value, b)
  {
  }

  lemma FlagsWriteNoVersion(db: Db, d: Db, b: BlockId)
    requires FlagsOnly(db, d) && b in db.histories
    ensures VersionsUntouched(db, d, b)
  {
  }

  lemma FlagCallsWriteNoVersion(env: Env, db: Db, ev: Event, b: BlockId)
    requires PruneAll(env, db) == db && Attempt(env, db, ev).Ok? && b in db.histories
    requires ev.ToggleEv? || ev.UnpublishEv? || ev.UploadEv? || ev.CleanUpEv? || ev.PruneEv?
    ensures VersionsUntouched(db, Attempt(env, db, ev).value, b)
  {
    match ev
    case ToggleEv(b', visible) =>
      ToggleIsFlags(db, b', visible);
      FlagsWriteNoVersion(db, Toggle(db, b', visible).value, b);
    case UnpublishEv(page) =>
      UnpublishIsFlags(db, page);
      FlagsWriteNoVersion(db, UnpublishPage(db, page).value, b);
    case PruneEv =>
    case UploadEv(_, _) =>
    case CleanUpEv(_) =>
  }

  /** All other calls leave the block's versions as they are. */
  lemma OthersWriteNoVersion(env: Env, db: Db, ev: Event, b: BlockId)
    requires Listed(db) && PruneAll(env, db) == db && b in db.blocks && b in db.histories
    requires !WritesVersions(db, ev, b)
    ensures VersionsUntouched(db, After(env, db, ev), b)
  {
    if Attempt(env, db, ev).Ok? {
      if ev.ImportEv? || ev.PublishEv? || ev.DeleteFileEv? {
        TableCallsElsewhere(env, db, ev, b);
      } else if ev.SaveDraftEv? || ev.RollBackEv? {
        DraftCallsElsewhere(env, db, ev, b);
      } else {
        FlagCallsWriteNoVersion(env, db, ev, b);
      }
    }
  }

  lemma TableCallsElsewhere(env: Env, db: Db, ev: Event, b: BlockId)
    requires ev.ImportEv? || ev.PublishEv? || ev.DeleteFileEv?
    requires Listed(db) && Attempt(env, db, ev).Ok? && b in db.blocks && b in db.histories
    requires !WritesVersions(db, ev, b)
    ensures VersionsUntouched(db, Attempt(env, db, ev).value, b)
  {
    match ev
    case ImportEv(page, data, user, now) => UnnamedInImport(env, db, page, data, user, now, b);
    case PublishEv(page, user, now) => OtherPagePublished(env, db, page, user, now, b);
    case DeleteFileEv(f) => DeletionWritesNoVersion(env, db, f, b);
  }

  /** Of the calls that may write versions of the block, the run makes only this user's draft saves. */
  predicate OnlySavesNamed(db: Db, evs: seq<Event>, b: BlockId, user: UserId) {
    forall e <- evs :: WritesVersions(db, e, b) ==> e.SaveDraftEv? && e.user == user
  }

  lemma SamePlacesSameWrites(db: Db, d: Db, ev: Event, b: BlockId)
    requires SamePlaces(db, d)
    ensures WritesVersions(d, ev, b) <==> WritesVersions(db, ev, b)
  {
  }

  /** Such a run can be told by the arguments of its calls. */
  lemma {:induction false} NamedSavesOnly(env: Env, db: Db, evs: seq<Event>, b: BlockId, user: UserId)
    requires Inv(env, db) && b in db.blocks && OnlySavesNamed(db, evs, b, user)
    ensures OnlySavesBy(env, db, evs, b, user)
  {
    if evs != [] {
      var init, last := evs[..|evs| - 1], evs[|evs| - 1];
      assert last in evs && forall e <- init :: e in evs;
      NamedSavesOnly(env, db, init, b, user);
      if !WritesVersions(db, last, b) {
        RunKeepsInv(env, db, init);
        PlacesStay(env, db, init);
        PruneKeepsInv(env, Run(env, db, init));
        SamePlacesSameWrites(db, Run(env, db, init), last, b);
        OthersWriteNoVersion(env, Run(env, db, init), last, b);
      }
    }
  }

  /** The creation times of new versions after one more call. */
  function TimesAfter(times: seq<int>, before: Db, after: Db, ev: Event, b: BlockId): seq<int> {
    if ev.SaveDraftEv? && ev.b == b && b in before.histories && b in after.histories
    then Timed(times, before.histories[b], after.histories[b], ev.now) else times
  }

  /** When the run's saves created new versions of the block. */
  function CreationTimes(env: Env, db: Db, evs: seq<Event>, b: BlockId): seq<int> {
    if evs == [] then []
    else
      var init := evs[..|evs| - 1];
      TimesAfter(CreationTimes(env, db, init, b), Run(env, db, init), Run(env, db, evs), evs[|evs| - 1], b)
  }

  /** A draft save as it shows in the version history: one throttled save of some content, or nothing. */
  lemma SaveInHistory(env: Env, db: Db, ev: Event, b: BlockId)
    requires ev.SaveDraftEv? && ev.b == b && b in db.histories
    ensures b in After(env, db, ev).histories
    ensures After(env, db, ev).histories[b] == db.histories[b]
            || exists draft ::
              After(env, db, ev).histories[b] == Save(db.histories[b], draft, ev.user, ev.now, env.window, env.keep)
  {
    if SaveDraft(env, db, b, ev.content, ev.user, ev.now).Ok? {
      var draft := Obj(Sanitizer.Sanitize(env.lib, db.blocks[b].schema, ev.content));
      assert After(env, db, ev).histories[b] == Save(db.histories[b], draft, ev.user, ev.now, env.window, env.keep);
    }
  }

  lemma PacedSaves(env: Env, before: Db, after: Db, ev: Event, b: BlockId, user: UserId, h: History, times: seq<int>)
    requires env.keep >= 1 && b in before.histories && b in after.histories
    requires Paced(h, before.histories[b], times, user, env.window, env.keep)
    requires ev.SaveDraftEv? && ev.b == b && ev.user == user
    requires after.histories[b] == before.histories[b]
             || exists draft ::
               after.histories[b] == Save(before.histories[b], draft, user, ev.now, env.window, env.keep)
    ensures Paced(h, after.histories[b], TimesAfter(times, before, after, ev, b), user, env.window, env.keep)
  {
    if after.histories[b] != before.histories[b] {
      var draft :| after.histories[b] == Save(before.histories[b], draft, user, ev.now, env.window, env.keep);
      SaveKeepsBlock(before.histories[b], draft, user, ev.now, env.window, env.keep);
      SaveStep(before.histories[b], draft, user, ev.now, env.window, env.keep);
      PacedStep(h, before.histories[b], after.histories[b], times, user, ev.now, env.window, env.keep);
    }
  }

  lemma PacedOthers(before: Db, after: Db, ev: Event, b: BlockId, user: UserId, h: History, times: seq<int>,
                    window: int, keep: nat)
    requires VersionsUntouched(before, after, b) && Paced(h, before.histories[b], times, user, window, keep)
    ensures Paced(h, after.histories[b], TimesAfter(times, before, after, ev, b), user, window, keep)
  {
  }

  /**
   * In every run where only one user's draft saves write versions of a block, consecutive
   * new versions of it are at least a window apart.
   */
  lemma {:induction false} SavesAreSpacedInRuns(env: Env, db: Db, evs: seq<Event>, b: BlockId, user: UserId)
    requires env.keep >= 1 && Inv(env, db) && b in db.blocks && OnlySavesBy(env, db, evs, b, user)
    ensures b in Run(env, db, evs).histories
    ensures Paced(db.histories[b], Run(env, db, evs).histories[b], CreationTimes(env, db, evs, b), user, env.window,
                  env.keep)
  {
    if evs == [] {
      assert Sound(env, db.blocks[b].draft, db.histories[b]);
    } else {
      var init, last := evs[..|evs| - 1], evs[|evs| - 1];
      SavesAreSpacedInRuns(env, db, init, b, user);
      var times := CreationTimes(env, db, init, b);
      if last.SaveDraftEv? && last.b == b && last.user == user {
        SaveInHistory(env, Run(env, db, init), last, b);
        PacedSaves(env, Run(env, db, init), Run(env, db, evs), last, b, user, db.histories[b], times);
      } else {
        PacedOthers(Run(env, db, init), Run(env, db, evs), last, b, user, db.histories[b], times, env.window, env.keep);
      }
    }
  }

  predicate Within(times: seq<int>, from: int, to: int) {
    forall i :: 0 <= i < |times| ==> from <= times[i] <= to
  }

  lemma {:induction false} CreationTimesWithin(env: Env, db: Db, evs: seq<Event>, b: BlockId, from: int, to: int)
    requires forall e <- evs :: e.SaveDraftEv? && e.b == b ==> from <= e.now <= to
    ensures Within(CreationTimes(env, db, evs, b), from, to)
  {
    if evs != [] {
      assert evs[|evs| - 1] in evs;
      CreationTimesWithin(env, db, evs[..|evs| - 1], b, from, to);
    }
  }

  lemma SpanBound(h: History, g: History, times: seq<int>, user: UserId, window: int, keep: nat, from: int, to: int)
    requires Paced(h, g, times, user, window, keep) && Within(times, from, to)
    ensures OnePerWindow(g.created - h.created, window, to - from)
  {
    if times != [] {
      SpacedSpan(times, window);
    }
  }

  /**
   * When the block's saves in such a run fall within `to - from` seconds, k new versions
   * satisfy (k-1)*W <= to - from.
   */
  lemma SavesPerSpanInRuns(env: Env, db: Db, evs: seq<Event>, b: BlockId, user: UserId, from: int, to: int)
    requires env.keep >= 1 && Inv(env, db) && b in db.blocks && OnlySavesBy(env, db, evs, b, user)
    requires forall e <- evs :: e.SaveDraftEv? && e.b == b ==> from <= e.now <= to
    ensures b in Run(env, db, evs).histories
    ensures OnePerWindow(Run(env, db, evs).histories[b].created - db.histories[b].created, env.window, to - from)
  {
    SavesAreSpacedInRuns(env, db, evs, b, user);
    PacedRunSpan(env, db, evs, b, user, from, to);
  }

  lemma PacedRunSpan(env: Env, db: Db, evs: seq<Event>, b: BlockId, user: UserId, from: int, to: int)
    requires b in db.histories && b in Run(env, db, evs).histories
    requires Paced(db.histories[b], Run(env, db, evs).histories[b], CreationTimes(env, db, evs, b), user, env.window,
                   env.keep)
    requires forall e <- evs :: e.SaveDraftEv? && e.b == b ==> from <= e.now <= to
    ensures OnePerWindow(Run(env, db, evs).histories[b].created - db.histories[b].created, env.window, to - from)
  {
    var h, g, times := db.histories[b], Run(env, db, evs).histories[b], CreationTimes(env, db, evs, b);
    CreationTimesWithin(env, db, evs, b, from, to);
    SpanBound(h, g, times, user, env.window, env.keep, from, to);
  }
}
