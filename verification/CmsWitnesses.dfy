// Runs of the content engine on which a promise fails: one page, one block, one file, and
// content that references the file once.

module CmsWitnesses {
  import opened Wrappers
  import opened JsonTree
  import opened MediaRefs
  import opened Schemas
  import opened Validator
  import opened Versions
  import opened Cms
  import opened CmsInvariants
  import opened CmsTheorems
  import opened CmsDrafts

  /** `hero` references file 0 once, and is `cleared` when that reference is cleared. */
  datatype Scene = Scene(env: Env, hero: Dict, path: string, cleared: Dict)

  ghost predicate Apt(s: Scene) {
    && s.env.keep >= 3 && s.env.window <= 10
    && s.hero != [] && |s.path| <= MAX_FIELD_KEY
    && RefsOf(s.env.codec, Obj(s.hero)) == Refs([Ref(s.path, 0)])
    && NullJson(Obj(s.hero), s.env.codec.text(0)) == Obj(s.cleared) && s.cleared != s.hero
    && RefsOf(s.env.codec, Obj(s.cleared)) == Refs([])
  }

  /** {"hero": {"media_id": "a"}}, where "a" spells id 0, under any library and any such configuration. */
  lemma AptSceneExists(lib: Library, otherKey: Json -> Option<Uuid>)
    ensures
      var hero := [Entry("hero", Obj([Entry("media_id", Str("a"))]))];
      Apt(Scene(Env(lib, UNARY_CODEC, otherKey, 10, 5), hero, "hero", [Entry("hero", Null)]))
  {
    var es := [Entry("media_id", Str("a"))];
    var hero := [Entry("hero", Obj(es))];
    UnaryZero();
    HeroReferences(UNARY_CODEC, es, hero);
    HeroCleared(UNARY_CODEC, es, hero);
  }

  lemma UnaryZero()
    ensures UNARY_CODEC.text(0) == "a" && UNARY_CODEC.parse("a") == Some(0)
  {
    assert UNARY_CODEC.text(0) == "a";
    assert "a"[0] == 'a' && "A"[0] == 'A';
  }

  lemma HeroReferences(codec: Codec, es: Dict, hero: Dict)
    requires codec.parse("a") == Some(0)
    requires es == [Entry("media_id", Str("a"))] && hero == [Entry("hero", Obj(es))]
    ensures RefsOf(codec, Obj(hero)) == Refs([Ref("hero", 0)])
  {
    var one := Site("hero", Str("a"));
    assert Lookup(es, "media_id") == Some(Str("a"));
    assert Sites(hero[1..], "") == [];
    assert Sites(hero, "") == [one];
    assert ReadSites(codec, [one][1..]) == Refs([]);
    assert ReadSite(codec, one) == Refs([Ref("hero", 0)]);
  }

  lemma HeroCleared(codec: Codec, es: Dict, hero: Dict)
    requires codec.text(0) == "a"
    requires es == [Entry("media_id", Str("a"))] && hero == [Entry("hero", Obj(es))]
    ensures NullJson(Obj(hero), codec.text(0)) == Obj([Entry("hero", Null)])
    ensures RefsOf(codec, Obj([Entry("hero", Null)])) == Refs([])
  {
    assert [Entry("hero", Null)][1..] == [];
    assert Lookup(es, "media_id") == Some(Str("a"));
    assert NullDict(hero, "a") == [Entry("hero", Null)];
  }

  // ----------------------------------------------------------------- states

  /** The tables with one visible block on page 0. */
  function Tables(schema: Schema, draft: Json, published: Json, live: bool, page: Page, h: History, file: File,
                  us: seq<Usage>): Db {
    Db([0], map[0 := Block(0, schema, 1, false, true, draft, published, live, if live then 1 else 0)], map[0 := h],
       map[0 := page], map[0 := file], {0}, us)
  }

  function Fresh(schema: Schema): Db {
    Tables(schema, Null, Null, false, Page(false, None), NO_HISTORY, File(false, false), [])
  }

  function First(s: Scene): Version {
    Version(1, Obj(s.hero), DraftSave, 1, 0)
  }

  function Second(s: Scene): Version {
    Version(2, Obj(s.hero), Action.Publish, 1, 20)
  }

  function Saved(s: Scene): Db {
    Tables([], Obj(s.hero), Null, false, Page(false, None), History([First(s)], 1, []), File(false, false),
           [Usage(0, 0, s.path, DraftLayer)])
  }

  function Published(s: Scene): Db {
    Tables([], Obj(s.hero), Obj(s.hero), true, Page(true, Some(20)), History([First(s), Second(s)], 2, []),
           File(false, false), [Usage(0, 0, s.path, DraftLayer), Usage(0, 0, s.path, PublishedLayer)])
  }

  function Tombstoned(s: Scene): Db {
    Tables([], Obj(s.cleared), Obj(s.hero), true, Page(true, Some(20)), History([First(s), Second(s)], 2, [0]),
           File(true, false), [Usage(0, 0, s.path, PublishedLayer)])
  }

  /** Saved, then saved empty ten seconds later or more. */
  function Emptied(s: Scene): Db {
    Tables([], Obj([]), Null, false, Page(false, None),
           History([First(s), Version(2, Obj([]), DraftSave, 1, 100)], 2, []),
           File(false, false), [])
  }

  lemma FreshIsInitial(env: Env, schema: Schema)
    ensures Initial(Fresh(schema)) && Inv(env, Fresh(schema))
  {
    InitialHoldsInv(env, Fresh(schema));
  }

  lemma OneRow(s: Scene, layer: Layer)
    ensures Rows(0, [Ref(s.path, 0)], layer) == [Usage(0, 0, s.path, layer)]
  {
  }

  lemma FilterOne(u: Usage, p: Usage -> bool)
    ensures Filter([u], p) == if p(u) then [u] else []
  {
    assert [u][1..] == [];
  }

  // ------------------------------------------------------------------ steps

  lemma VersionOne(s: Scene)
    requires Apt(s)
    ensures Save(NO_HISTORY, Obj(s.hero), 1, 0, s.env.window, s.env.keep) == History([First(s)], 1, [])
  {
    Versions.SaveIs(NO_HISTORY, Obj(s.hero), 1, 0, s.env.window, s.env.keep);
    assert [] + [First(s)] == [First(s)];
  }

  lemma SyncIs(env: Env, db: Db, content: Json, layer: Layer, refs: seq<Ref>, kept: seq<Usage>)
    requires RefsOf(env.codec, content) == Refs(refs) && Insertable(db.files, refs)
    requires Filter(db.usages, NotAt(0, layer)) == kept
    ensures Sync(env, db, 0, content, layer) == Ok(db.(usages := kept + Rows(0, refs, layer)))
  {
  }

  /** A save by user 1 on these tables, given the new version history. */
  lemma SaveIs(env: Env, db: Db, content: Dict, now: int, h: History)
    requires 0 in db.blocks && 0 in db.histories && db.blocks[0].schema == []
    requires Save(db.histories[0], Obj(content), 1, now, env.window, env.keep) == h
    ensures SaveDraft(env, db, 0, content, 1, now)
            == Sync(env, WithDraft(db, 0, Obj(content), h), 0, Obj(content), DraftLayer)
  {
  }

  lemma SaveHero(s: Scene)
    requires Apt(s)
    ensures SaveDraft(s.env, Fresh([]), 0, s.hero, 1, 0) == Ok(Saved(s))
  {
    VersionOne(s);
    OneRow(s, DraftLayer);
    var h := History([First(s)], 1, []);
    var mid := WithDraft(Fresh([]), 0, Obj(s.hero), h);
    SaveIs(s.env, Fresh([]), s.hero, 0, h);
    SyncIs(s.env, mid, Obj(s.hero), DraftLayer, [Ref(s.path, 0)], []);
    assert [] + [Usage(0, 0, s.path, DraftLayer)] == [Usage(0, 0, s.path, DraftLayer)];
    assert mid.(usages := [Usage(0, 0, s.path, DraftLayer)]) == Saved(s);
  }

  lemma VersionTwo(s: Scene)
    requires Apt(s)
    ensures Create(History([First(s)], 1, []), Obj(s.hero), Action.Publish, 1, 20, s.env.keep)
            == History([First(s), Second(s)], 2, [])
  {
    CreateIs(History([First(s)], 1, []), Obj(s.hero), Action.Publish, 1, 20, s.env.keep);
    assert [First(s)] + [Second(s)] == [First(s), Second(s)];
  }

  lemma HeroIsPublishable(s: Scene)
    requires Apt(s)
    ensures PublishIssues(s.env, Saved(s), 0, [0]) == Ok([])
  {
    var db := Saved(s);
    assert StrictIssues(s.env, db.files, db.blocks[0]) == Ok([]);
    NoIssuesMeansChecked(s.env, db, 0, [0]);
  }

  lemma FreezeHero(s: Scene)
    requires Apt(s)
    ensures FreezeBlock(s.env, Saved(s), 0, 1, 20) == Published(s).(pages := Saved(s).pages, usages := Saved(s).usages)
  {
    VersionTwo(s);
    var frozen := FreezeBlock(s.env, Saved(s), 0, 1, 20);
    assert frozen.blocks == Published(s).blocks && frozen.histories == Published(s).histories;
  }

  lemma WriteHero(s: Scene)
    requires Apt(s)
    ensures PublishBlock(s.env, Saved(s), 0, 1, 20) == Ok(Published(s).(pages := Saved(s).pages))
  {
    FreezeHero(s);
    OneRow(s, PublishedLayer);
    var draftRow := Usage(0, 0, s.path, DraftLayer);
    FilterOne(draftRow, NotAt(0, PublishedLayer));
    SyncIs(s.env, FreezeBlock(s.env, Saved(s), 0, 1, 20), Obj(s.hero), PublishedLayer, [Ref(s.path, 0)], [draftRow]);
    assert [draftRow] + [Usage(0, 0, s.path, PublishedLayer)] == Published(s).usages;
  }

  lemma WriteOnly(env: Env, db: Db)
    requires 0 in db.blocks && 0 in db.histories && db.blocks[0].page == 0
    ensures PublishBlocks(env, db, 0, [0], 1, 20) == PublishBlock(env, db, 0, 1, 20)
  {
    assert [0][..0] == [];
    assert PublishBlocks(env, db, 0, [0][..0], 1, 20) == Ok(db);
  }

  lemma PublishHero(s: Scene)
    requires Apt(s)
    ensures PublishPage(s.env, Saved(s), 0, 1, 20) == Ok(Published(s))
  {
    HeroIsPublishable(s);
    WriteHero(s);
    WriteOnly(s.env, Saved(s));
    var d := Published(s).(pages := Saved(s).pages);
    assert PublishBlocks(s.env, Saved(s), 0, [0], 1, 20) == Ok(d);
    assert d.(pages := d.pages[0 := Page(true, Some(20))]) == Published(s);
  }

  lemma HeroRowsCleared(s: Scene)
    ensures Filter(Published(s).usages, NotDraftOf(0)) == Tombstoned(s).usages
  {
    var draftRow, publishedRow := Usage(0, 0, s.path, DraftLayer), Usage(0, 0, s.path, PublishedLayer);
    FilterOne(draftRow, NotDraftOf(0));
    FilterOne(publishedRow, NotDraftOf(0));
    FilterConcat([draftRow], [publishedRow], NotDraftOf(0));
    assert Published(s).usages == [draftRow] + [publishedRow];
  }

  lemma HeroIsTouched(s: Scene)
    requires Apt(s)
    ensures TouchedBlocks(Tombstone(Published(s), 0), 0) == {0}
  {
    var mid := Tombstone(Published(s), 0);
    assert mid.usages[0] == Usage(0, 0, s.path, DraftLayer) && mid.usages[0] in mid.usages;
    assert Touched(mid, 0, 0);
  }

  lemma HeroDraftCleared(s: Scene)
    requires Apt(s)
    ensures
      var d := Clear(s.env, Tombstone(Published(s), 0), 0, {0});
      d.blocks == Tombstoned(s).blocks && d.histories == Tombstoned(s).histories
  {
    assert [] + [0] == [0];
    var d := Clear(s.env, Tombstone(Published(s), 0), 0, {0});
    assert d.blocks.Keys == {0} && d.histories.Keys == {0};
    assert d.blocks[0] == Tombstoned(s).blocks[0];
    assert d.histories[0] == Tombstoned(s).histories[0];
  }

  lemma ClearHero(s: Scene)
    requires Apt(s)
    ensures ClearDrafts(s.env, Tombstone(Published(s), 0), 0) == Ok(Tombstoned(s))
  {
    HeroRowsCleared(s);
    HeroIsTouched(s);
    HeroDraftCleared(s);
    assert Tombstone(Published(s), 0).files == Tombstoned(s).files;
  }

  lemma DeleteHero(s: Scene)
    requires Apt(s)
    ensures DeleteFile(s.env, Published(s), 0) == Ok(Tombstoned(s))
  {
    assert Usage(0, 0, s.path, PublishedLayer) in Published(s).usages;
    ClearHero(s);
  }

  lemma VersionEmpty(s: Scene)
    requires Apt(s)
    ensures Save(History([First(s)], 1, []), Obj([]), 1, 100, s.env.window, s.env.keep) == Emptied(s).histories[0]
  {
    var v2 := Version(2, Obj([]), DraftSave, 1, 100);
    Versions.SaveIs(History([First(s)], 1, []), Obj([]), 1, 100, s.env.window, s.env.keep);
    assert [First(s)] + [v2] == [First(s), v2];
  }

  lemma SaveNothing(s: Scene)
    requires Apt(s)
    ensures SaveDraft(s.env, Saved(s), 0, [], 1, 100) == Ok(Emptied(s))
  {
    VersionEmpty(s);
    var h := Emptied(s).histories[0];
    var mid := WithDraft(Saved(s), 0, Obj([]), h);
    SaveIs(s.env, Saved(s), [], 100, h);
    FilterOne(Usage(0, 0, s.path, DraftLayer), NotAt(0, DraftLayer));
    SyncIs(s.env, mid, Obj([]), DraftLayer, [], []);
    assert Rows(0, [], DraftLayer) == [];
    assert mid.blocks == Emptied(s).blocks && mid.histories == Emptied(s).histories;
  }

  // ------------------------------------------------------------------- runs

  lemma RunThenOne(env: Env, db: Db, evs: seq<Event>, ev: Event)
    ensures Run(env, db, evs + [ev]) == After(env, Run(env, db, evs), ev)
  {
    assert (evs + [ev])[..|evs|] == evs;
  }

  lemma StepTo(env: Env, db: Db, evs: seq<Event>, mid: Db, ev: Event, d: Db)
    requires Run(env, db, evs) == mid && Attempt(env, mid, ev) == Ok(d)
    ensures Run(env, db, evs + [ev]) == d
  {
    RunThenOne(env, db, evs, ev);
  }

  function SavingRun(s: Scene): seq<Event> {
    [] + [SaveDraftEv(0, s.hero, 1, 0)]
  }

  function PublishingRun(s: Scene): seq<Event> {
    SavingRun(s) + [PublishEv(0, 1, 20)]
  }

  /** Save, publish, delete the file. */
  function LosingRun(s: Scene): seq<Event> {
    PublishingRun(s) + [DeleteFileEv(0)]
  }

  lemma SaveRuns(s: Scene, evs: seq<Event>)
    requires Apt(s) && Run(s.env, Fresh([]), evs) == Fresh([])
    ensures Run(s.env, Fresh([]), evs + [SaveDraftEv(0, s.hero, 1, 0)]) == Saved(s)
  {
    SaveHero(s);
    StepTo(s.env, Fresh([]), evs, Fresh([]), SaveDraftEv(0, s.hero, 1, 0), Saved(s));
  }

  lemma PublishAttempt(s: Scene)
    requires Apt(s)
    ensures Attempt(s.env, Saved(s), PublishEv(0, 1, 20)) == Ok(Published(s))
  {
    PublishHero(s);
  }

  lemma PublishRuns(s: Scene, evs: seq<Event>)
    requires Apt(s) && Run(s.env, Fresh([]), evs) == Saved(s)
    ensures Run(s.env, Fresh([]), evs + [PublishEv(0, 1, 20)]) == Published(s)
  {
    PublishAttempt(s);
    StepTo(s.env, Fresh([]), evs, Saved(s), PublishEv(0, 1, 20), Published(s));
  }

  lemma DeleteRuns(s: Scene, evs: seq<Event>)
    requires Apt(s) && Run(s.env, Fresh([]), evs) == Published(s)
    ensures Run(s.env, Fresh([]), evs + [DeleteFileEv(0)]) == Tombstoned(s)
  {
    DeleteHero(s);
    StepTo(s.env, Fresh([]), evs, Published(s), DeleteFileEv(0), Tombstoned(s));
  }

  lemma EmptyRuns(s: Scene, evs: seq<Event>)
    requires Apt(s) && Run(s.env, Fresh([]), evs) == Saved(s)
    ensures Run(s.env, Fresh([]), evs + [SaveDraftEv(0, [], 1, 100)]) == Emptied(s)
  {
    SaveNothing(s);
    StepTo(s.env, Fresh([]), evs, Saved(s), SaveDraftEv(0, [], 1, 100), Emptied(s));
  }

  lemma LosingRunEnds(s: Scene)
    requires Apt(s)
    ensures Run(s.env, Fresh([]), LosingRun(s)) == Tombstoned(s)
  {
    SaveRuns(s, []);
    PublishRuns(s, SavingRun(s));
    DeleteRuns(s, PublishingRun(s));
  }

  /** From there, back to version 1 and forward to the version that was newest. */
  lemma HeroReturns(s: Scene)
    requires Apt(s)
    ensures
      var there := RollBackTo(s.env, Tombstoned(s), 0, 1, 1, 30);
      && there.Ok?
      && var back := RollBackTo(s.env, there.value, 0, 2, 1, 40);
         back.Ok? && 0 in back.value.blocks && back.value.blocks[0].draft == Obj(s.hero)
  {
    var db := Tombstoned(s);
    FreshIsInitial(s.env, []);
    RunKeepsInv(s.env, Fresh([]), LosingRun(s));
    LosingRunEnds(s);
    assert Sound(s.env, db.blocks[0].draft, db.histories[0]);
    FindInBlock(db.histories[0], s.env.keep, 1);
    var mid, back := RollingBackTwice(s.env, db, 0, 1, 1, 30, 1, 40);
  }

  /**
   * Save, publish, delete the file, roll back to version 1, and back to the version that
   * was newest: the draft of before, which had lost the file, is not restored.
   */
  lemma RoundTripLosesDraft(s: Scene)
    requires Apt(s)
    ensures
      var there := LosingRun(s) + [RollBackEv(0, 1, 1, 30)];
      var before, after :=
        Run(s.env, Fresh([]), LosingRun(s)), Run(s.env, Fresh([]), there + [RollBackEv(0, 2, 1, 40)]);
      Initial(Fresh([])) && 0 in before.blocks && 0 in after.blocks && after.blocks[0].draft != before.blocks[0].draft
  {
    var there := LosingRun(s) + [RollBackEv(0, 1, 1, 30)];
    FreshIsInitial(s.env, []);
    LosingRunEnds(s);
    HeroReturns(s);
    RunThenOne(s.env, Fresh([]), LosingRun(s), RollBackEv(0, 1, 1, 30));
    RunThenOne(s.env, Fresh([]), there, RollBackEv(0, 2, 1, 40));
  }

  /** One block on page 0, without fields, whose draft references no file. */
  ghost predicate Bare(env: Env, db: Db) {
    && Listed(db) && db.blocks.Keys == {0} && db.blocks[0].page == 0 && 0 in db.pages && db.blocks[0].schema == []
    && db.blocks[0].draft.Obj? && RefsOf(env.codec, db.blocks[0].draft) == Refs([])
  }

  lemma BarePublishes(env: Env, db: Db)
    requires Bare(env, db)
    ensures PublishPage(env, db, 0, 1, 40).Ok?
  {
    var block := db.blocks[0];
    assert Publishable(env, db.files, block) by {
      assert OrEmpty(block.draft).Obj?;
    }
    assert Indexable(env, db.files, block.draft);
    PublishSucceedsIff(env, db, 0, 1, 40);
  }

  lemma BareReferencesNothing(env: Env, db: Db, d: Db)
    requires db.blocks.Keys == {0} && d.blocks.Keys == {0} && Republished(db, d, 0)
    requires RefsOf(env.codec, db.blocks[0].draft) == Refs([])
    ensures !exists b <- d.blocks :: References(env.codec, d.blocks[b].published, 0)
  {
  }

  /** Publishing such a draft ends the last published use of every file. */
  lemma BarePublished(env: Env, db: Db)
    requires Bare(env, db)
    ensures
      var r := PublishPage(env, db, 0, 1, 40);
      && r.Ok? && r.value.files == db.files
      && !exists b <- r.value.blocks :: References(env.codec, r.value.blocks[b].published, 0)
  {
    BarePublishes(env, db);
    PublishCopiesDrafts(env, db, 0, 1, 40, 0);
    PublishKeepsSchemas(env, db, 0, 1, 40);
    BareReferencesNothing(env, db, PublishPage(env, db, 0, 1, 40).value);
  }

  lemma TombstonedIsBare(s: Scene)
    requires Apt(s)
    ensures Bare(s.env, Tombstoned(s))
  {
  }

  lemma TombstonedKeepsInv(s: Scene)
    requires Apt(s)
    ensures Inv(s.env, Tombstoned(s))
  {
    FreshIsInitial(s.env, []);
    RunKeepsInv(s.env, Fresh([]), LosingRun(s));
    LosingRunEnds(s);
  }

  /** A file tombstoned and out of published use is deleted once more. */
  lemma DeletedAgain(env: Env, db: Db, before: seq<Event>, mid: Db, d: Db, later: seq<Event>)
    requires Inv(env, mid) && Run(env, db, before) == mid
    requires PublishPage(env, mid, 0, 1, 40) == Ok(d) && d.files == mid.files
    requires !exists b <- d.blocks :: References(env.codec, d.blocks[b].published, 0)
    requires 0 in mid.files && mid.files[0].tombstoned && !mid.files[0].deleted
    ensures SoftDeleted(Run(env, Run(env, db, before + [PublishEv(0, 1, 40)] + [DeleteFileEv(0)]), later), 0)
  {
    PublishPageKeepsInv(env, mid, 0, 1, 40);
    StepTo(env, db, before, mid, PublishEv(0, 1, 40), d);
    SoftDeletionStrands(env, d, 0, later);
    StepTo(env, db, before + [PublishEv(0, 1, 40)], d, DeleteFileEv(0), DeleteFile(env, d, 0).value);
  }

  /**
   * Delete the file, publish the cleared draft, delete the file again: nothing published
   * references it, and its object stays stored whatever happens next.
   */
  lemma DeletingAgainStrands(s: Scene, later: seq<Event>)
    requires Apt(s)
    ensures
      var evs := LosingRun(s) + [PublishEv(0, 1, 40)] + [DeleteFileEv(0)];
      SoftDeleted(Run(s.env, Run(s.env, Fresh([]), evs), later), 0)
  {
    TombstonedIsBare(s);
    TombstonedKeepsInv(s);
    LosingRunEnds(s);
    BarePublished(s.env, Tombstoned(s));
    var d := PublishPage(s.env, Tombstoned(s), 0, 1, 40).value;
    DeletedAgain(s.env, Fresh([]), LosingRun(s), Tombstoned(s), d, later);
  }

  lemma OneBlockIndexed(env: Env, db: Db)
    requires db.blocks.Keys == {0} && Indexed(env, db.usages, 0, db.blocks[0].draft, DraftLayer)
    ensures DraftsIndexed(env, db)
  {
  }

  lemma HeroSaves(s: Scene, db: Db)
    requires Apt(s) && db.blocks.Keys == {0} && 0 in db.histories && db.blocks[0].schema == [] && 0 in db.files
    ensures
      var r := SaveDraft(s.env, db, 0, s.hero, 1, 100);
      && r.Ok? && DraftsIndexed(s.env, r.value) && References(s.env.codec, r.value.blocks[0].draft, 0)
      && r.value.files == db.files && r.value.blocks.Keys == {0}
      && r.value.blocks[0].published == db.blocks[0].published
  {
    SavedDraftIsIndexed(s.env, db, 0, s.hero, 1, 100);
    assert Extract(s.env.codec, s.hero) == Refs([Ref(s.path, 0)]);
    assert Insertable(db.files, [Ref(s.path, 0)]);
    var d := SaveDraft(s.env, db, 0, s.hero, 1, 100).value;
    OneBlockIndexed(s.env, d);
    assert Ref(s.path, 0) in [Ref(s.path, 0)];
  }

  lemma RemovedUnderDraft(env: Env, db: Db)
    requires DraftsIndexed(env, db) && 0 in db.blocks && References(env.codec, db.blocks[0].draft, 0)
    requires 0 in db.files && db.files[0].tombstoned && !db.files[0].deleted && !Used(db.usages, 0, PublishedLayer)
    ensures !DraftsIndexed(env, CleanUp(db, {}))
  {
    assert 0 in Removable(db, {});
    CleanUpKeepsDraftIndexIff(env, db, {});
  }

  lemma UnusedAfterSave(env: Env, db: Db, d: Db)
    requires Inv(env, d) && db.blocks.Keys == {0} && d.blocks.Keys == {0}
    requires d.blocks[0].published == db.blocks[0].published
    requires !exists b <- db.blocks :: References(env.codec, db.blocks[b].published, 0)
    ensures !Used(d.usages, 0, PublishedLayer)
  {
    UsedIffReferenced(env, d, 0);
  }

  /**
   * A draft that names a tombstoned file out of published use: it is saved and indexed, and
   * after the next cleanup the index disagrees.
   */
  lemma CleanUpUnindexes(s: Scene, db: Db)
    requires Apt(s) && Inv(s.env, db) && db.blocks.Keys == {0} && db.blocks[0].schema == []
    requires 0 in db.files && db.files[0].tombstoned && !db.files[0].deleted
    requires !exists b <- db.blocks :: References(s.env.codec, db.blocks[b].published, 0)
    ensures
      var r := SaveDraft(s.env, db, 0, s.hero, 1, 100);
      && r.Ok? && DraftsIndexed(s.env, r.value) && !DraftsIndexed(s.env, CleanUp(r.value, {}))
  {
    HeroSaves(s, db);
    SaveDraftKeepsInv(s.env, db, 0, s.hero, 1, 100);
    var d := SaveDraft(s.env, db, 0, s.hero, 1, 100).value;
    UnusedAfterSave(s.env, db, d);
    RemovedUnderDraft(s.env, d);
  }

  /** Delete the file, publish the cleared draft, save the reference again, clean up: the index disagrees. */
  lemma CleanUpSkipsDraft(s: Scene)
    requires Apt(s)
    ensures
      var evs := LosingRun(s) + [PublishEv(0, 1, 40)] + [SaveDraftEv(0, s.hero, 1, 100)];
      && DraftsIndexed(s.env, Run(s.env, Fresh([]), evs))
      && !DraftsIndexed(s.env, Run(s.env, Fresh([]), evs + [CleanUpEv({})]))
  {
    TombstonedIsBare(s);
    TombstonedKeepsInv(s);
    LosingRunEnds(s);
    BarePublished(s.env, Tombstoned(s));
    var d := PublishPage(s.env, Tombstoned(s), 0, 1, 40).value;
    PublishPageKeepsInv(s.env, Tombstoned(s), 0, 1, 40);
    PublishKeepsSchemas(s.env, Tombstoned(s), 0, 1, 40);
    CleanUpUnindexes(s, d);
    var saved := SaveDraft(s.env, d, 0, s.hero, 1, 100).value;
    PublishedThenSaved(s.env, Fresh([]), LosingRun(s), Tombstoned(s), d, s.hero, saved);
    CleanUpNext(s.env, Fresh([]), LosingRun(s) + [PublishEv(0, 1, 40)] + [SaveDraftEv(0, s.hero, 1, 100)]);
  }

  lemma PublishedThenSaved(env: Env, db: Db, before: seq<Event>, mid: Db, d: Db, content: Dict, saved: Db)
    requires Run(env, db, before) == mid && PublishPage(env, mid, 0, 1, 40) == Ok(d)
    requires SaveDraft(env, d, 0, content, 1, 100) == Ok(saved)
    ensures Run(env, db, before + [PublishEv(0, 1, 40)] + [SaveDraftEv(0, content, 1, 100)]) == saved
  {
    StepTo(env, db, before, mid, PublishEv(0, 1, 40), d);
    StepTo(env, db, before + [PublishEv(0, 1, 40)], d, SaveDraftEv(0, content, 1, 100), saved);
  }

  lemma CleanUpNext(env: Env, db: Db, evs: seq<Event>)
    ensures Run(env, db, evs + [CleanUpEv({})]) == CleanUp(Run(env, db, evs), {})
  {
    RunThenOne(env, db, evs, CleanUpEv({}));
  }

  lemma NothingToIndex(env: Env, db: Db)
    requires db.blocks.Keys == {0} && db.usages == [] && !Truthy(db.blocks[0].draft)
    ensures DraftsIndexed(env, db)
  {
    assert Rows(0, [], DraftLayer) == [];
  }

  /** Importing a document with a media reference leaves a draft the index does not know. */
  lemma ImportSkipsIndex(s: Scene)
    requires Apt(s)
    ensures
      var r := ImportPage(s.env, Fresh([]), 0, [ImportBlock(0, Some(Obj(s.hero)))], 1, 0);
      Initial(Fresh([])) && DraftsIndexed(s.env, Fresh([])) && r.Ok? && !DraftsIndexed(s.env, r.value)
  {
    var one := ImportBlock(0, Some(Obj(s.hero)));
    FreshIsInitial(s.env, []);
    NothingToIndex(s.env, Fresh([]));
    assert [one][..0] == [];
    assert ImportBlocks(s.env, Fresh([]), 0, [one][..0], 1, 0) == Ok(Fresh([]));
    assert ImportBlockInto(s.env, Fresh([]), 0, one, 1, 0).Ok?;
    assert GivenDraft([one], 0) == Some(Obj(s.hero));
    ImportKeepsIndexIff(s.env, Fresh([]), 0, [one], 1, 0);
  }

  /** Saving a reference, saving it away and rolling back leaves a draft the index does not know. */
  lemma RollbackSkipsIndex(s: Scene)
    requires Apt(s)
    ensures
      var saves := SavingRun(s) + [SaveDraftEv(0, [], 1, 100)];
      && DraftsIndexed(s.env, Run(s.env, Fresh([]), saves))
      && !DraftsIndexed(s.env, Run(s.env, Fresh([]), saves + [RollBackEv(0, 1, 1, 200)]))
  {
    SaveRuns(s, []);
    EmptyRuns(s, SavingRun(s));
    RunThenOne(s.env, Fresh([]), SavingRun(s) + [SaveDraftEv(0, [], 1, 100)], RollBackEv(0, 1, 1, 200));
    EmptiedRollsBack(s);
  }

  lemma EmptiedRollsBack(s: Scene)
    requires Apt(s)
    ensures DraftsIndexed(s.env, Emptied(s))
    ensures
      var r := RollBackTo(s.env, Emptied(s), 0, 1, 1, 200);
      r.Ok? && !DraftsIndexed(s.env, r.value)
  {
    NothingToIndex(s.env, Emptied(s));
    FindInBlock(Emptied(s).histories[0], s.env.keep, 1);
    assert RollBackTo(s.env, Emptied(s), 0, 1, 1, 200).Ok?;
    RollbackKeepsIndexIff(s.env, Emptied(s), 0, 1, 1, 200);
  }

  /** A block whose draft is still null exports, but its document does not import. */
  lemma NullDraftDoesNotImport(env: Env, f: Field)
    ensures Initial(Fresh([f]))
    ensures ImportPage(env, Fresh([f]), 0, ExportPage(Fresh([f]), 0), 1, 0).Fail?
  {
    FreshIsInitial(env, [f]);
    ImportRestoresExport(env, Fresh([f]), [], 0, 1, 0);
    assert !Validatable([f], Fresh([f]).blocks[0].draft);
  }
}
