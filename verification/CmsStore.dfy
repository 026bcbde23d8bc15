// The content services over tables held in memory. Each public method is one
// transaction: on an error the tables are what they were before the call.

module CmsStore {
  import opened Wrappers
  import opened JsonTree
  import opened MediaRefs
  import opened Schemas
  import opened Validator
  import opened Versions
  import opened Cms
  import opened CmsInvariants
  import ValidatorLoops
  import Sanitizer
  import PublishContracts
  import CmsContracts

  /** A call ends in the state its specification gives, or fails and changes nothing. */
  ghost predicate Matches(step: Step, before: Db, after: Db, err: Option<Error>) {
    match step
    case Ok(d) => err == None && after == d
    case Fail(e) => err == Some(e) && after == before
  }

  lemma {:induction false} ImportFailureStays(env: Env, db: Db, page: PageId, data: seq<ImportBlock>, n: nat,
                                              user: UserId, now: int)
    requires n <= |data| && ImportBlocks(env, db, page, data[..n], user, now).Fail?
    ensures ImportBlocks(env, db, page, data, user, now) == ImportBlocks(env, db, page, data[..n], user, now)
    decreases |data|
  {
    if n < |data| {
      assert data[..|data| - 1][..n] == data[..n];
      ImportFailureStays(env, db, page, data[..|data| - 1], n, user, now);
    } else {
      assert data[..n] == data;
    }
  }

  lemma {:induction false} PublishFailureStays(env: Env, db: Db, page: PageId, ids: seq<BlockId>, n: nat)
    requires n <= |ids| && PublishIssues(env, db, page, ids[..n]).Fail?
    ensures PublishIssues(env, db, page, ids) == PublishIssues(env, db, page, ids[..n])
    decreases |ids|
  {
    if n < |ids| {
      assert ids[..|ids| - 1][..n] == ids[..n];
      PublishFailureStays(env, db, page, ids[..|ids| - 1], n);
    } else {
      assert ids[..n] == ids;
    }
  }

  lemma {:induction false} PublishWriteFailureStays(env: Env, db: Db, page: PageId, ids: seq<BlockId>, n: nat,
                                                    user: UserId, now: int)
    requires n <= |ids| && PublishBlocks(env, db, page, ids[..n], user, now).Fail?
    ensures PublishBlocks(env, db, page, ids, user, now) == PublishBlocks(env, db, page, ids[..n], user, now)
    decreases |ids|
  {
    if n < |ids| {
      assert ids[..|ids| - 1][..n] == ids[..n];
      PublishWriteFailureStays(env, db, page, ids[..|ids| - 1], n, user, now);
    } else {
      assert ids[..n] == ids;
    }
  }

  lemma PublishBlocksNext(env: Env, db: Db, d: Db, page: PageId, ids: seq<BlockId>, i: nat, user: UserId, now: int)
    requires i < |ids| && PublishBlocks(env, db, page, ids[..i], user, now) == Ok(d)
    ensures PublishBlocks(env, db, page, ids[..i + 1], user, now)
            == if ids[i] in d.blocks && ids[i] in d.histories && d.blocks[ids[i]].page == page
               then PublishBlock(env, d, ids[i], user, now) else Ok(d)
  {
    assert ids[..i + 1][..i] == ids[..i];
  }

  /** The placements the first `n` usage rows touch. */
  ghost function TouchedBy(db: Db, f: Uuid, n: nat): set<BlockId>
    requires n <= |db.usages|
  {
    if n == 0 then {}
    else
      var u := db.usages[n - 1];
      TouchedBy(db, f, n - 1)
      + if u.file == f && u.layer == DraftLayer && u.block in db.blocks && Truthy(db.blocks[u.block].draft)
        then {u.block} else {}
  }

  lemma {:induction false} TouchedByRows(db: Db, f: Uuid, n: nat, b: BlockId)
    requires n <= |db.usages|
    ensures b in TouchedBy(db, f, n)
            <==> b in db.blocks && Truthy(db.blocks[b].draft)
                 && exists u <- db.usages[..n] :: u.file == f && u.layer == DraftLayer && u.block == b
  {
    if n > 0 {
      TouchedByRows(db, f, n - 1, b);
      assert db.usages[..n] == db.usages[..n - 1] + [db.usages[n - 1]];
    }
  }

  lemma UsageTouches(db: Db, f: Uuid, i: nat)
    requires i < |db.usages| && db.usages[i].file == f && db.usages[i].layer == DraftLayer
    requires db.usages[i].block in db.blocks && Truthy(db.blocks[db.usages[i].block].draft)
    ensures db.usages[i].block in TouchedBlocks(db, f)
    ensures TouchedBy(db, f, i + 1) == TouchedBy(db, f, i) + {db.usages[i].block}
  {
    assert db.usages[i] in db.usages;
  }

  lemma AllTouched(db: Db, f: Uuid)
    ensures TouchedBy(db, f, |db.usages|) == TouchedBlocks(db, f)
  {
    assert db.usages[..|db.usages|] == db.usages;
    forall b: BlockId ensures b in TouchedBy(db, f, |db.usages|) <==> b in TouchedBlocks(db, f) {
      TouchedByRows(db, f, |db.usages|, b);
    }
  }

  lemma ClearNone(env: Env, db: Db, f: Uuid)
    ensures Clear(env, db, f, {}) == db
  {
  }

  lemma ClearOneMore(env: Env, db: Db, f: Uuid, bs: set<BlockId>, b: BlockId)
    requires b in db.blocks && b in db.histories
    ensures
      var d, d' := Clear(env, db, f, bs), Clear(env, db, f, bs + {b});
      && d'.blocks == d.blocks[b := d.blocks[b].(draft := NullJson(db.blocks[b].draft, env.codec.text(f)))]
      && d'.histories == d.histories[b := d.histories[b].(nulled := db.histories[b].nulled + [f])]
  {
  }

  lemma RemoveNone(db: Db)
    ensures Remove(db, {}) == db
  {
    FilterAll(db.usages, NotAnyOf({}));
  }

  lemma RemoveOneMore(db: Db, gone: set<Uuid>, f: Uuid)
    ensures Filter(Remove(db, gone).usages, NotAnyOf({f})) == Remove(db, gone + {f}).usages
    ensures db.files - gone - {f} == db.files - (gone + {f}) && db.stored - gone - {f} == db.stored - (gone + {f})
  {
    RemoveRowsOneMore(db.usages, gone, f);
  }

  lemma {:induction false} RemoveRowsOneMore(us: seq<Usage>, gone: set<Uuid>, f: Uuid)
    ensures Filter(Filter(us, NotAnyOf(gone)), NotAnyOf({f})) == Filter(us, NotAnyOf(gone + {f}))
  {
    if us != [] {
      RemoveRowsOneMore(us[1..], gone, f);
      FilterConcat(if NotAnyOf(gone)(us[0]) then [us[0]] else [], Filter(us[1..], NotAnyOf(gone)), NotAnyOf({f}));
      assert Filter([us[0]], NotAnyOf({f})) == if us[0].file != f then [us[0]] else [];
    }
  }

  lemma UsedAfterRemove(db: Db, gone: set<Uuid>, f: Uuid)
    requires f !in gone
    ensures Used(Remove(db, gone).usages, f, PublishedLayer) <==> Used(db.usages, f, PublishedLayer)
  {
    forall u: Usage ensures u in Remove(db, gone).usages <==> u in db.usages && u.file !in gone {
      FilterMembers(db.usages, NotAnyOf(gone), u);
    }
  }

  function Tombstones(db: Db): set<Uuid> {
    set f | f in db.files && db.files[f].tombstoned && !db.files[f].deleted
  }

  lemma TakeOne(all: set<Uuid>, todo: set<Uuid>, f: Uuid)
    requires f in todo
    ensures all - (todo - {f}) == (all - todo) + (if f in all then {f} else {})
    ensures |all - (todo - {f})| == |all - todo| + if f in all then 1 else 0
  {
    assert all - (todo - {f}) == (all - todo) + (if f in all then {f} else {});
  }

  class Store {
    const env: Env
    const order: seq<BlockId>
    var blocks: map<BlockId, Block>
    var histories: map<BlockId, History>
    var pages: map<PageId, Page>
    var files: map<Uuid, File>
    var stored: set<Uuid>
    var usages: seq<Usage>

    function Tables(): Db
      reads this
    {
      Db(order, blocks, histories, pages, files, stored, usages)
    }

    ghost predicate Valid()
      reads this
    {
      Inv(env, Tables())
    }

    constructor (env: Env, db: Db)
      requires Initial(db)
      ensures Valid() && Tables() == db && this.env == env
    {
      this.env := env;
      order, blocks, histories, pages, files, stored, usages :=
        db.order, db.blocks, db.histories, db.pages, db.files, db.stored, db.usages;
      new;
      InitialHoldsInv(env, db);
    }

    method RollBackTransaction(saved: Db)
      requires saved.order == order
      modifies this
      ensures Tables() == saved
    {
      blocks, histories, pages, files, stored, usages :=
        saved.blocks, saved.histories, saved.pages, saved.files, saved.stored, saved.usages;
    }

    // ------------------------------------------------------------- helpers

    /** `filter(...).delete()` on the usage table. */
    method KeepUsages(keep: Usage -> bool)
      modifies this`usages
      ensures usages == Filter(old(usages), keep)
    {
      var all := usages;
      var kept := [];
      assert all[0..] == all;
      for i := 0 to |all|
        invariant usages == all
        invariant kept + Filter(all[i..], keep) == Filter(all, keep)
      {
        assert all[i..][1..] == all[i + 1..];
        if keep(all[i]) {
          kept := kept + [all[i]];
        }
      }
      usages := kept;
    }

    method IsUsed(f: Uuid, layer: Layer) returns (used: bool)
      ensures used <==> Used(usages, f, layer)
    {
      for i := 0 to |usages|
        invariant forall k :: 0 <= k < i ==> !(usages[k].file == f && usages[k].layer == layer)
      {
        if usages[i].file == f && usages[i].layer == layer {
          return true;
        }
      }
      return false;
    }

    /** Delete the rows of the layer, then insert one row for each extracted reference. */
    method SyncMediaUsage(b: BlockId, content: Json, layer: Layer) returns (err: Option<Error>)
      modifies this`usages
      ensures err.None? <==> Sync(env, old(Tables()), b, content, layer).Ok?
      ensures err.None? ==> Tables() == Sync(env, old(Tables()), b, content, layer).value
      ensures err.Some? ==> err == Some(Uncaught)
    {
      ghost var before := usages;
      KeepUsages(NotAt(b, layer));
      ghost var kept := usages;
      if !Truthy(content) {
        assert kept + Rows(b, [], layer) == kept;
        return None;
      }
      if !content.Obj? {
        return Some(Uncaught);
      }
      var found := ExtractMediaReferences(env.codec, content.entries, "");
      if found.Crash? {
        return Some(Uncaught);
      }
      err := InsertUsages(b, found.refs, layer);
    }

    method InsertUsages(b: BlockId, refs: seq<Ref>, layer: Layer) returns (err: Option<Error>)
      modifies this`usages
      ensures err == if Insertable(files, refs) then None else Some(Uncaught)
      ensures err.None? ==> usages == old(usages) + Rows(b, refs, layer)
    {
      ghost var kept := usages;
      for i := 0 to |refs|
        invariant usages == kept + Rows(b, refs[..i], layer)
        invariant Insertable(files, refs[..i])
      {
        assert refs[i] in refs;
        if refs[i].id !in files || |refs[i].path| > MAX_FIELD_KEY {
          return Some(Uncaught);
        }
        assert refs[..i + 1] == refs[..i] + [refs[i]];
        assert Rows(b, refs[..i + 1], layer) == Rows(b, refs[..i], layer) + [Usage(refs[i].id, b, refs[i].path, layer)];
        usages := usages + [Usage(refs[i].id, b, refs[i].path, layer)];
      }
      assert refs[..|refs|] == refs;
      return None;
    }

    // ------------------------------------------------------------- editing

    method UpdateDraftContent(b: BlockId, content: Dict, user: UserId, now: int) returns (err: Option<Error>)
      requires Valid()
      modifies this
      ensures Valid()
      ensures Matches(SaveDraft(env, old(Tables()), b, content, user, now), old(Tables()), Tables(), err)
      ensures err.None? ==>
        && b in old(blocks)
        && blocks == old(blocks)[b := old(blocks)[b].(
             draft := Obj(Sanitizer.Sanitize(env.lib, old(blocks)[b].schema, content)))]
      ensures err.None? ==> CmsContracts.DraftStored(env, old(Tables()), Tables(), b, content, user, now)
    {
      if b !in blocks {
        return Some(NotFound);
      }
      var saved := Tables();
      var clean := CleanAndJudge(blocks[b].schema, content);
      if clean.Fail? {
        return Some(clean.error);
      }
      err := WriteDraft(b, Obj(clean.value), user, now);
      if err.Some? {
        RollBackTransaction(saved);
      } else {
        SaveDraftKeepsInv(env, saved, b, content, user, now);
        CmsContracts.SaveDraftStores(env, saved, b, content, user, now);
      }
    }

    /** Both steps may raise on a malformed schema; the warnings of the second are dropped. */
    method CleanAndJudge(schema: Schema, content: Dict) returns (r: Result<Dict, Error>)
      ensures
        var clean := Sanitizer.Sanitize(env.lib, schema, content);
        r == if Sanitizer.Cleanable(schema, content) && Judgeable(schema, clean) then Ok(clean) else Fail(Uncaught)
    {
      var cleaned := Sanitizer.SanitizeContent(env.lib, schema, content);
      if cleaned.Fail? {
        return Fail(Uncaught);
      }
      var warnings := ValidatorLoops.ValidateContent(env.lib, MediaLookup(env, files), schema, cleaned.value, false);
      PermissiveRaisesIff(env.lib, MediaLookup(env, files), schema, cleaned.value);
      return if warnings.Fail? then Fail(Uncaught) else Ok(cleaned.value);
    }

    method WriteDraft(b: BlockId, draft: Json, user: UserId, now: int) returns (err: Option<Error>)
      requires b in blocks && b in histories
      modifies this
      ensures
        var h := Save(old(histories)[b], draft, user, now, env.window, env.keep);
        var step := Sync(env, WithDraft(old(Tables()), b, draft, h), b, draft, DraftLayer);
        && (err.None? <==> step.Ok?)
        && (err.None? ==> Tables() == step.value)
        && (err.Some? ==> err == Some(Uncaught))
    {
      blocks := blocks[b := blocks[b].(draft := draft)];
      var h := CreateContentVersionThrottled(histories[b], draft, user, now, env.window, env.keep);
      histories := histories[b := h];
      err := SyncMediaUsage(b, draft, DraftLayer);
    }

    method RollbackContent(b: BlockId, number: nat, user: UserId, now: int) returns (err: Option<Error>)
      requires Valid()
      modifies this
      ensures Valid()
      ensures Matches(RollBackTo(env, old(Tables()), b, number, user, now), old(Tables()), Tables(), err)
    {
      ghost var saved := Tables();
      if b !in blocks {
        return Some(NotFound);
      }
      var version := Find(histories[b].rows, number);
      if version.None? {
        return Some(NotFound);
      }
      SaveVersionedDraft(b, version.value.snapshot, Rollback, user, now);
      RollBackKeepsInv(env, saved, b, number, user, now);
      return None;
    }

    method SaveVersionedDraft(b: BlockId, draft: Json, action: Action, user: UserId, now: int)
      requires b in blocks && b in histories
      modifies this
      ensures Tables()
              == WithDraft(old(Tables()), b, draft, Create(old(histories)[b], draft, action, user, now, env.keep))
    {
      blocks := blocks[b := blocks[b].(draft := draft)];
      var h := CreateContentVersion(histories[b], draft, action, user, now, env.keep);
      histories := histories[b := h];
    }

    method ToggleVisibility(b: BlockId, visible: bool) returns (err: Option<Error>)
      requires Valid()
      modifies this
      ensures Valid()
      ensures Matches(Toggle(old(Tables()), b, visible), old(Tables()), Tables(), err)
    {
      ghost var saved := Tables();
      if b !in blocks {
        return Some(NotFound);
      }
      if blocks[b].required && !visible {
        return Some(RequiredBlock);
      }
      blocks := blocks[b := blocks[b].(visible := visible)];
      ToggleKeepsInv(env, saved, b, visible);
      return None;
    }

    // ---------------------------------------------------- import and publish

    method ImportIntoPage(page: PageId, data: seq<ImportBlock>, user: UserId, now: int) returns (err: Option<Error>)
      requires Valid()
      modifies this
      ensures Valid()
      ensures Matches(ImportPage(env, old(Tables()), page, data, user, now), old(Tables()), Tables(), err)
    {
      if ImportPage(env, Tables(), page, data, user, now).Ok? {
        ImportKeepsInv(env, Tables(), page, data, user, now);
      }
      if page !in pages {
        return Some(NotFound);
      }
      var saved := Tables();
      for i := 0 to |data|
        invariant ImportBlocks(env, saved, page, data[..i], user, now) == Ok(Tables())
      {
        assert data[..i + 1][..i] == data[..i];
        err := ImportOne(page, data[i], user, now);
        if err.Some? {
          ImportFailureStays(env, saved, page, data, i + 1, user, now);
          RollBackTransaction(saved);
          return;
        }
      }
      assert data[..|data|] == data;
      return None;
    }

    method ImportOne(page: PageId, data: ImportBlock, user: UserId, now: int) returns (err: Option<Error>)
      modifies this
      ensures Matches(ImportBlockInto(env, old(Tables()), page, data, user, now), old(Tables()), Tables(), err)
    {
      if data.id !in blocks || data.id !in histories || blocks[data.id].page != page {
        return None;
      }
      var block := blocks[data.id];
      var content := data.draft.GetOr(Obj([]));
      if content.Obj? {
        var warnings :=
          ValidatorLoops.ValidateContent(env.lib, MediaLookup(env, files), block.schema, content.entries, false);
        PermissiveRaisesIff(env.lib, MediaLookup(env, files), block.schema, content.entries);
        if warnings.Fail? {
          return Some(Uncaught);
        }
      } else if block.schema != [] {
        return Some(Uncaught);
      }
      SaveVersionedDraft(data.id, data.draft.GetOr(block.draft), Import, user, now);
      return None;
    }

    /** Validate every checked block before any write. */
    method CollectPublishErrors(page: PageId) returns (r: Result<seq<BlockIssue>, Error>)
      ensures r == PublishIssues(env, Tables(), page, order)
    {
      var issues := [];
      for i := 0 to |order|
        invariant PublishIssues(env, Tables(), page, order[..i]) == Ok(issues)
      {
        assert order[..i + 1][..i] == order[..i];
        var b := order[i];
        if b in blocks && Checked(blocks[b], page) {
          var found := StrictErrors(blocks[b]);
          if found.Fail? {
            PublishFailureStays(env, Tables(), page, order, i + 1);
            return Fail(found.error);
          }
          ghost var before := issues;
          for j := 0 to |found.value|
            invariant issues == before + Labelled(b, found.value[..j])
          {
            assert Labelled(b, found.value[..j + 1]) == Labelled(b, found.value[..j]) + [BlockIssue(b, found.value[j])];
            issues := issues + [BlockIssue(b, found.value[j])];
          }
          assert found.value[..|found.value|] == found.value;
        }
      }
      assert order[..|order|] == order;
      return Ok(issues);
    }

    method StrictErrors(block: Block) returns (r: Result<seq<Issue>, Error>)
      ensures r == StrictIssues(env, files, block)
    {
      var content := OrEmpty(block.draft);
      if !content.Obj? {
        return if block.schema == [] then Ok([]) else Fail(Uncaught);
      }
      var v := ValidatorLoops.ValidateContent(env.lib, MediaLookup(env, files), block.schema, content.entries, true);
      return if v.Fail? then Fail(Uncaught) else Ok(v.value);
    }

    method Publish(page: PageId, user: UserId, now: int) returns (err: Option<Error>)
      requires Valid()
      modifies this
      ensures Valid()
      ensures Matches(PublishPage(env, old(Tables()), page, user, now), old(Tables()), Tables(), err)
      ensures err.None? ==> PublishContracts.PageServed(env, old(Tables()), Tables(), page)
    {
      if page !in pages {
        return Some(NotFound);
      }
      var issues := CollectPublishErrors(page);
      if issues.Fail? {
        return Some(issues.error);
      }
      if issues.value != [] {
        return Some(PublishFailed(issues.value));
      }
      var saved := Tables();
      err := WriteAll(page, user, now);
      if err.Some? {
        RollBackTransaction(saved);
      } else {
        pages := pages[page := Page(true, Some(now))];
        PublishPageKeepsInv(env, saved, page, user, now);
        PublishContracts.PublishedMediaServable(env, saved, page, user, now);
      }
    }

    method WriteAll(page: PageId, user: UserId, now: int) returns (err: Option<Error>)
      modifies this
      ensures match PublishBlocks(env, old(Tables()), page, order, user, now)
              case Ok(d) => err == None && Tables() == d
              case Fail(e) => err == Some(e)
    {
      ghost var saved := Tables();
      for i := 0 to |order|
        invariant PublishBlocks(env, saved, page, order[..i], user, now) == Ok(Tables())
      {
        PublishBlocksNext(env, saved, Tables(), page, order, i, user, now);
        var b := order[i];
        if b in blocks && b in histories && blocks[b].page == page {
          err := PublishOne(b, user, now);
          if err.Some? {
            PublishWriteFailureStays(env, saved, page, order, i + 1, user, now);
            return;
          }
        }
      }
      assert order[..|order|] == order;
      return None;
    }

    method PublishOne(b: BlockId, user: UserId, now: int) returns (err: Option<Error>)
      requires b in blocks && b in histories
      modifies this
      ensures err.None? <==> PublishBlock(env, old(Tables()), b, user, now).Ok?
      ensures err.None? ==> Tables() == PublishBlock(env, old(Tables()), b, user, now).value
      ensures err.Some? ==> err == Some(Uncaught)
    {
      var draft := blocks[b].draft;
      blocks := blocks[b := blocks[b].(published := draft, live := true, validated := blocks[b].schemaVersion)];
      var h := CreateContentVersion(histories[b], draft, Versions.Publish, user, now, env.keep);
      histories := histories[b := h];
      err := SyncMediaUsage(b, draft, PublishedLayer);
    }

    method Unpublish(page: PageId) returns (err: Option<Error>)
      requires Valid()
      modifies this
      ensures Valid()
      ensures Matches(UnpublishPage(old(Tables()), page), old(Tables()), Tables(), err)
      ensures err.None? ==> CmsContracts.Offline(old(Tables()), Tables(), page)
    {
      if UnpublishPage(Tables(), page).Ok? {
        UnpublishKeepsInv(env, Tables(), page);
      }
      if page !in pages {
        return Some(NotFound);
      }
      if !pages[page].live {
        return Some(NotPublished);
      }
      blocks := map b | b in blocks ::
        if blocks[b].page == page then blocks[b].(live := false) else blocks[b];
      pages := pages[page := pages[page].(live := false)];
      return None;
    }

    // --------------------------------------------------------------- media

    /** An accepted file has an allowed extension and type, and a business's file is within its limits. */
    method Upload(f: Uuid, u: Upload) returns (err: Option<Error>)
      requires Valid()
      modifies this
      ensures Valid()
      ensures Matches(UploadFile(old(Tables()), f, u), old(Tables()), Tables(), err)
      ensures err.None? <==>
        && u.extension in ALLOWED_MEDIA_EXTENSIONS && u.mime in ALLOWED_MEDIA_TYPES
        && (u.business ==> u.withinQuota && !TooLarge(u))
        && f !in old(files)
      ensures err.None? ==> files == old(files)[f := File(false, false)] && stored == old(stored) + {f}
    {
      if UploadFile(Tables(), f, u).Ok? {
        UploadKeepsInv(env, Tables(), f, u);
      }
      if u.business {
        if !u.withinQuota {
          return Some(LimitReached);
        }
        if TooLarge(u) {
          return Some(InvalidFile);
        }
      }
      if u.extension !in ALLOWED_MEDIA_EXTENSIONS {
        return Some(InvalidFile);
      }
      if u.mime !in ALLOWED_MEDIA_TYPES {
        return Some(InvalidFile);
      }
      if f in files {
        return Some(Uncaught);
      }
      files := files[f := File(false, false)];
      stored := stored + {f};
      return None;
    }

    /**
     * One row per draft usage, each joined to its own copy of the placement: several rows
     * of one placement save the same cleared draft.
     */
    method NullDraftMediaReferences(f: Uuid) returns (err: Option<Error>)
      requires forall u <- usages :: u.block in blocks
      requires histories.Keys == blocks.Keys
      modifies this
      ensures err.None? <==> ClearDrafts(env, old(Tables()), f).Ok?
      ensures err.None? ==> Tables() == ClearDrafts(env, old(Tables()), f).value
      ensures err.Some? ==> err == Some(Uncaught)
    {
      var before := Tables();
      ghost var done: set<BlockId> := {};
      ClearNone(env, before, f);
      for i := 0 to |before.usages|
        invariant done == TouchedBy(before, f, i)
        invariant forall b <- done :: b in before.blocks && before.blocks[b].draft.Obj?
        invariant Tables() == Clear(env, before, f, done)
      {
        var u := before.usages[i];
        var copy := before.blocks[u.block].draft;
        if u.file == f && u.layer == DraftLayer && Truthy(copy) {
          UsageTouches(before, f, i);
          if !copy.Obj? {
            return Some(Uncaught);
          }
          ClearAnother(before, u.block, f, done);
          done := done + {u.block};
        }
      }
      AllTouched(before, f);
      KeepUsages(NotDraftOf(f));
      return None;
    }

    /** Saves the row's own copy of the placement, cleared. */
    method ClearAnother(before: Db, b: BlockId, f: Uuid, ghost done: set<BlockId>)
      requires Tables() == Clear(env, before, f, done)
      requires b in before.blocks && b in before.histories && before.blocks[b].draft.Obj?
      modifies this
      ensures Tables() == Clear(env, before, f, done + {b})
    {
      ClearOneMore(env, before, f, done, b);
      SaveClearedDraft(b, before.blocks[b].draft.entries, before.histories[b].nulled, f);
    }

    method SaveClearedDraft(b: BlockId, copy: Dict, nulled: seq<Uuid>, f: Uuid)
      requires b in blocks && b in histories
      modifies this`blocks, this`histories
      ensures blocks == old(blocks)[b := old(blocks)[b].(draft := NullJson(Obj(copy), env.codec.text(f)))]
      ensures histories == old(histories)[b := old(histories)[b].(nulled := nulled + [f])]
    {
      var cleared := NullMediaIdInContent(copy, env.codec.text(f));
      blocks := blocks[b := blocks[b].(draft := Obj(cleared))];
      histories := histories[b := histories[b].(nulled := nulled + [f])];
    }

    method Delete(f: Uuid) returns (err: Option<Error>)
      requires Valid()
      modifies this
      ensures Valid()
      ensures Matches(DeleteFile(env, old(Tables()), f), old(Tables()), Tables(), err)
      ensures err.None? ==>
        CmsContracts.TombstoneLeft(env, old(Tables()), Tables(), f)
        || (files == old(files)[f := File(old(files)[f].tombstoned, true)] && blocks == old(blocks))
    {
      if DeleteFile(env, Tables(), f).Ok? {
        CmsContracts.DeleteLeaves(env, Tables(), f);
        DeleteFileKeepsInv(env, Tables(), f);
      }
      if f !in files || files[f].deleted {
        return Some(NotFound);
      }
      var used := IsUsed(f, PublishedLayer);
      if used {
        err := TombstoneFile(f);
      } else {
        files := files[f := files[f].(deleted := true)];
        return None;
      }
    }

    method TombstoneFile(f: Uuid) returns (err: Option<Error>)
      requires f in files && histories.Keys == blocks.Keys && forall u <- usages :: u.block in blocks
      modifies this
      ensures Matches(ClearDrafts(env, old(Tables()).(files := old(files)[f := old(files)[f].(tombstoned := true)]), f),
                      old(Tables()), Tables(), err)
    {
      var saved := Tables();
      files := files[f := files[f].(tombstoned := true)];
      err := NullDraftMediaReferences(f);
      if err.Some? {
        RollBackTransaction(saved);
      }
    }

    /** Each tombstoned file is cleaned on its own; a storage error skips the file. */
    method CleanupTombstoned(broken: set<Uuid>) returns (cleaned: nat)
      requires Valid()
      modifies this
      ensures Valid()
      ensures Tables() == CleanUp(old(Tables()), broken)
      ensures cleaned == |Removable(old(Tables()), broken)|
    {
      CleanUpKeepsInv(env, Tables(), broken);
      ghost var before := Tables();
      ghost var all := Removable(before, broken);
      var todo := set f | f in files && files[f].tombstoned && !files[f].deleted;
      cleaned := 0;
      RemoveNone(before);
      assert all - todo == {};
      while todo != {}
        invariant Tables() == Remove(before, all - todo) && cleaned == |all - todo|
        invariant todo <= Tombstones(before)
      {
        var f :| f in todo;
        TakeOne(all, todo, f);
        var removed := CleanOne(f, broken, before, all - todo);
        todo := todo - {f};
        if removed {
          cleaned := cleaned + 1;
        }
      }
      assert all - todo == all;
    }

    method CleanOne(f: Uuid, broken: set<Uuid>, ghost before: Db, ghost gone: set<Uuid>) returns (removed: bool)
      requires Tables() == Remove(before, gone) && f !in gone
      modifies this
      ensures removed <==> !Used(before.usages, f, PublishedLayer) && f !in broken
      ensures Tables() == Remove(before, if removed then gone + {f} else gone)
    {
      UsedAfterRemove(before, gone, f);
      var used := IsUsed(f, PublishedLayer);
      removed := !used && f !in broken;
      if removed {
        RemoveOneMore(before, gone, f);
        HardDelete(f);
      }
    }

    /** Storage object, file row, and the usage rows it cascades to. */
    method HardDelete(f: Uuid)
      modifies this`stored, this`files, this`usages
      ensures stored == old(stored) - {f} && files == old(files) - {f}
      ensures usages == Filter(old(usages), NotAnyOf({f}))
    {
      stored := stored - {f};
      files := files - {f};
      KeepUsages(NotAnyOf({f}));
    }

    /** The weekly retention task, placement by placement. */
    method PruneContentVersions()
      requires Valid()
      modifies this
      ensures Valid()
      ensures Tables() == PruneAll(env, old(Tables()))
      ensures Tables() == old(Tables())
    {
      PruneKeepsInv(env, Tables());
      ghost var before := histories;
      for i := 0 to |order|
        invariant histories == before
        invariant Tables() == old(Tables())
      {
        var b := order[i];
        var rows := PruneOldVersions(histories[b].rows, env.keep);
        assert PruneAll(env, Tables()).histories[b].rows == rows;
        histories := histories[b := histories[b].(rows := rows)];
      }
    }
  }
}
