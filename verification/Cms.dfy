// The CMS tables and every service call on them, as functions from one state to the
// next. A call is one transaction: it yields the next state or an error.

module Cms {
  import opened Wrappers
  import opened JsonTree
  import opened MediaRefs
  import opened Schemas
  import opened Validator
  import opened Sanitizer
  import opened Versions

  type BlockId = nat
  type PageId = nat

  datatype Layer = DraftLayer | PublishedLayer

  /** A MediaUsage row. */
  datatype Usage = Usage(file: Uuid, block: BlockId, path: string, layer: Layer)

  /** A SectionBlockPlacement row with the schema of its template. JSON null is a null column. */
  datatype Block = Block(
    page: PageId, schema: Schema, schemaVersion: nat, required: bool, visible: bool,
    draft: Json, published: Json, live: bool, validated: nat)

  datatype File = File(tombstoned: bool, deleted: bool)

  datatype Page = Page(live: bool, publishedAt: Option<int>)

  /**
   * Library functions and configuration. `otherKey` is how a `media_id` that is neither
   * a string nor null converts to a primary key; None stands for a conversion error.
   */
  datatype Env = Env(lib: Library, codec: Codec, otherKey: Json -> Option<Uuid>, window: int, keep: nat)

  /** `order` lists the placements in table order; `stored` is the set of files in storage. */
  datatype Db = Db(
    order: seq<BlockId>, blocks: map<BlockId, Block>, histories: map<BlockId, History>,
    pages: map<PageId, Page>, files: map<Uuid, File>, stored: set<Uuid>, usages: seq<Usage>)

  datatype BlockIssue = BlockIssue(block: BlockId, issue: Issue)

  /** `Uncaught` is any exception the service does not handle; the transaction is rolled back. */
  datatype Error =
    | NotFound | Uncaught | LimitReached | InvalidFile
    | PublishFailed(issues: seq<BlockIssue>) | NotPublished | RequiredBlock

  type Step = Result<Db, Error>

  const MAX_FIELD_KEY := 100

  // ----------------------------------------------------------- usage table

  function Filter(us: seq<Usage>, p: Usage -> bool): seq<Usage> {
    if us == [] then []
    else (if p(us[0]) then [us[0]] else []) + Filter(us[1..], p)
  }

  function At(b: BlockId, layer: Layer): Usage -> bool {
    (u: Usage) => u.block == b && u.layer == layer
  }

  function NotAt(b: BlockId, layer: Layer): Usage -> bool {
    (u: Usage) => !(u.block == b && u.layer == layer)
  }

  function NotDraftOf(f: Uuid): Usage -> bool {
    (u: Usage) => !(u.file == f && u.layer == DraftLayer)
  }

  function NotAnyOf(gone: set<Uuid>): Usage -> bool {
    (u: Usage) => u.file !in gone
  }

  function RowsAt(us: seq<Usage>, b: BlockId, layer: Layer): seq<Usage> {
    Filter(us, At(b, layer))
  }

  predicate Used(us: seq<Usage>, f: Uuid, layer: Layer) {
    exists u <- us :: u.file == f && u.layer == layer
  }

  function Rows(b: BlockId, refs: seq<Ref>, layer: Layer): seq<Usage> {
    seq(|refs|, i requires 0 <= i < |refs| => Usage(refs[i].id, b, refs[i].path, layer))
  }

  /** The references of a stored content column: null and empty content have none. */
  function RefsOf(codec: Codec, content: Json): Extraction {
    if !Truthy(content) then Refs([])
    else if content.Obj? then Extract(codec, content.entries)
    else Crash
  }

  /** The rows fit the table: the file rows exist and no field key is too long. */
  predicate Insertable(files: map<Uuid, File>, refs: seq<Ref>) {
    forall r <- refs :: r.id in files && |r.path| <= MAX_FIELD_KEY
  }

  /** `_sync_media_usage`. */
  function Sync(env: Env, db: Db, b: BlockId, content: Json, layer: Layer): Step {
    var refs := RefsOf(env.codec, content);
    if refs.Crash? || !Insertable(db.files, refs.refs) then Fail(Uncaught)
    else Ok(db.(usages := Filter(db.usages, NotAt(b, layer)) + Rows(b, refs.refs, layer)))
  }

  // ---------------------------------------------------------------- editing

  function WithDraft(db: Db, b: BlockId, draft: Json, h: History): Db
    requires b in db.blocks
  {
    db.(blocks := db.blocks[b := db.blocks[b].(draft := draft)], histories := db.histories[b := h])
  }

  function SaveDraft(env: Env, db: Db, b: BlockId, content: Dict, user: UserId, now: int): Step {
    if b !in db.blocks || b !in db.histories then Fail(NotFound)
    else
      var schema := db.blocks[b].schema;
      var draft := Obj(Sanitize(env.lib, schema, content));
      if !Cleanable(schema, content) || !Judgeable(schema, draft.entries) then Fail(Uncaught)
      else
        var h := Save(db.histories[b], draft, user, now, env.window, env.keep);
        Sync(env, WithDraft(db, b, draft, h), b, draft, DraftLayer)
  }

  function RollBackTo(env: Env, db: Db, b: BlockId, number: nat, user: UserId, now: int): Step {
    if b !in db.blocks || b !in db.histories then Fail(NotFound)
    else
      var r := RollBack(db.histories[b], number, user, now, env.keep);
      if r.None? then Fail(NotFound)
      else Ok(WithDraft(db, b, r.value.0, r.value.1))
  }

  function Toggle(db: Db, b: BlockId, visible: bool): Step {
    if b !in db.blocks then Fail(NotFound)
    else if db.blocks[b].required && !visible then Fail(RequiredBlock)
    else Ok(db.(blocks := db.blocks[b := db.blocks[b].(visible := visible)]))
  }

  // ----------------------------------------------------------- import, export

  /** A block of an import document; the draft may be missing from it. */
  datatype ImportBlock = ImportBlock(id: BlockId, draft: Option<Json>)

  /** Validating a column value: anything but a dict has no `get` once there is a field to look up. */
  predicate Validatable(schema: Schema, content: Json) {
    if content.Obj? then Judgeable(schema, content.entries) else schema == []
  }

  function ImportBlockInto(env: Env, db: Db, page: PageId, data: ImportBlock, user: UserId, now: int): Step {
    if data.id !in db.blocks || data.id !in db.histories || db.blocks[data.id].page != page then Ok(db)
    else
      var block := db.blocks[data.id];
      if !Validatable(block.schema, data.draft.GetOr(Obj([]))) then Fail(Uncaught)
      else
        var draft := data.draft.GetOr(block.draft);
        Ok(WithDraft(db, data.id, draft, Create(db.histories[data.id], draft, Import, user, now, env.keep)))
  }

  function ImportBlocks(env: Env, db: Db, page: PageId, data: seq<ImportBlock>, user: UserId, now: int): Step {
    if data == [] then Ok(db)
    else
      var d :- ImportBlocks(env, db, page, data[..|data| - 1], user, now);
      ImportBlockInto(env, d, page, data[|data| - 1], user, now)
  }

  function ImportPage(env: Env, db: Db, page: PageId, data: seq<ImportBlock>, user: UserId, now: int): Step {
    if page !in db.pages then Fail(NotFound)
    else ImportBlocks(env, db, page, data, user, now)
  }

  function ExportBlocks(db: Db, ids: seq<BlockId>, page: PageId): seq<ImportBlock> {
    if ids == [] then []
    else (if ids[0] in db.blocks && db.blocks[ids[0]].page == page
          then [ImportBlock(ids[0], Some(db.blocks[ids[0]].draft))] else [])
         + ExportBlocks(db, ids[1..], page)
  }

  /** The placements of a page with their drafts, as the export document lists them. */
  function ExportPage(db: Db, page: PageId): seq<ImportBlock> {
    ExportBlocks(db, db.order, page)
  }

  // ------------------------------------------------------------- publishing

  function FileState(files: map<Uuid, File>, f: Uuid): MediaState {
    if f !in files || files[f].deleted then Missing
    else if files[f].tombstoned then Tombstoned
    else Live
  }

  /** The query of the strict media check, by the raw `media_id`. */
  function MediaLookup(env: Env, files: map<Uuid, File>): Json -> MediaState {
    (v: Json) =>
      if v.Null? then Missing
      else
        var key := if v.Str? then env.codec.parse(v.s) else env.otherKey(v);
        if key.None? then NotAKey else FileState(files, key.value)
  }

  function StrictIssues(env: Env, files: map<Uuid, File>, block: Block): Result<seq<Issue>, Error> {
    var content := OrEmpty(block.draft);
    if !content.Obj? then (if block.schema == [] then Ok([]) else Fail(Uncaught))
    else
      var v := Validate(env.lib, MediaLookup(env, files), block.schema, content.entries, true);
      if v.Fail? then Fail(Uncaught) else Ok(v.value)
  }

  /** Hidden blocks that are not required are published without validation. */
  predicate Checked(block: Block, page: PageId) {
    block.page == page && (block.visible || block.required)
  }

  function Labelled(b: BlockId, issues: seq<Issue>): seq<BlockIssue> {
    seq(|issues|, i requires 0 <= i < |issues| => BlockIssue(b, issues[i]))
  }

  function PublishIssues(env: Env, db: Db, page: PageId, ids: seq<BlockId>): Result<seq<BlockIssue>, Error> {
    if ids == [] then Ok([])
    else
      var issues :- PublishIssues(env, db, page, ids[..|ids| - 1]);
      var b := ids[|ids| - 1];
      if b !in db.blocks || !Checked(db.blocks[b], page) then Ok(issues)
      else
        var found :- StrictIssues(env, db.files, db.blocks[b]);
        Ok(issues + Labelled(b, found))
  }

  function PublishedForm(block: Block): Block {
    block.(published := block.draft, live := true, validated := block.schemaVersion)
  }

  /** The placement row and its new version, before the index is synced. */
  function FreezeBlock(env: Env, db: Db, b: BlockId, user: UserId, now: int): Db
    requires b in db.blocks && b in db.histories
  {
    var block := db.blocks[b];
    db.(blocks := db.blocks[b := PublishedForm(block)],
        histories := db.histories[b := Create(db.histories[b], block.draft, Publish, user, now, env.keep)])
  }

  function PublishBlock(env: Env, db: Db, b: BlockId, user: UserId, now: int): Step
    requires b in db.blocks && b in db.histories
  {
    Sync(env, FreezeBlock(env, db, b, user, now), b, db.blocks[b].draft, PublishedLayer)
  }

  function PublishBlocks(env: Env, db: Db, page: PageId, ids: seq<BlockId>, user: UserId, now: int): Step {
    if ids == [] then Ok(db)
    else
      var d :- PublishBlocks(env, db, page, ids[..|ids| - 1], user, now);
      var b := ids[|ids| - 1];
      if b in d.blocks && b in d.histories && d.blocks[b].page == page then PublishBlock(env, d, b, user, now)
      else Ok(d)
  }

  function PublishPage(env: Env, db: Db, page: PageId, user: UserId, now: int): Step {
    if page !in db.pages then Fail(NotFound)
    else
      var issues :- PublishIssues(env, db, page, db.order);
      if issues != [] then Fail(PublishFailed(issues))
      else
        var d :- PublishBlocks(env, db, page, db.order, user, now);
        Ok(d.(pages := d.pages[page := Page(true, Some(now))]))
  }

  function UnpublishPage(db: Db, page: PageId): Step {
    if page !in db.pages then Fail(NotFound)
    else if !db.pages[page].live then Fail(NotPublished)
    else Ok(db.(blocks := map b | b in db.blocks ::
                  if db.blocks[b].page == page then db.blocks[b].(live := false) else db.blocks[b],
                pages := db.pages[page := db.pages[page].(live := false)]))
  }

  // ------------------------------------------------------------------ media

  const ALLOWED_MEDIA_TYPES := {
    "image/jpeg", "image/png", "image/gif", "image/webp", "image/svg+xml", "application/pdf",
    "video/mp4", "video/webm", "audio/mpeg", "audio/ogg"}

  const ALLOWED_MEDIA_EXTENSIONS := {
    "jpg", "jpeg", "png", "gif", "webp", "svg", "pdf", "mp4", "webm", "mp3", "ogg"}

  /**
   * An uploaded file. The quota lookup and the size limit in megabytes, 0 for none, apply
   * to businesses only; `extension` and `mime` are in lower case.
   */
  datatype Upload = Upload(
    business: bool, withinQuota: bool, maxMb: nat, size: nat, extension: string, mime: string)

  predicate TooLarge(u: Upload) {
    u.maxMb != 0 && u.size > u.maxMb * 1024 * 1024
  }

  /** Why an upload is refused, in the order of the checks. */
  function Refusal(u: Upload): Option<Error> {
    if u.business && !u.withinQuota then Some(LimitReached)
    else if u.business && TooLarge(u) then Some(InvalidFile)
    else if u.extension !in ALLOWED_MEDIA_EXTENSIONS then Some(InvalidFile)
    else if u.mime !in ALLOWED_MEDIA_TYPES then Some(InvalidFile)
    else None
  }

  function UploadFile(db: Db, f: Uuid, u: Upload): Step {
    var refusal := Refusal(u);
    if refusal.Some? then Fail(refusal.value)
    else if f in db.files then Fail(Uncaught)
    else Ok(db.(files := db.files[f := File(false, false)], stored := db.stored + {f}))
  }

  /** A draft-layer row ties the block to the file and there is a draft to change. */
  predicate Touched(db: Db, b: BlockId, f: Uuid) {
    && b in db.blocks
    && Truthy(db.blocks[b].draft)
    && exists u <- db.usages :: u.file == f && u.layer == DraftLayer && u.block == b
  }

  function TouchedBlocks(db: Db, f: Uuid): set<BlockId> {
    set b | b in db.blocks && Touched(db, b, f)
  }

  /** The given placements with the file cleared from their drafts. */
  function Clear(env: Env, db: Db, f: Uuid, bs: set<BlockId>): Db {
    db.(blocks := map b | b in db.blocks ::
          if b in bs then db.blocks[b].(draft := NullJson(db.blocks[b].draft, env.codec.text(f))) else db.blocks[b],
        histories := map b | b in db.histories ::
          if b in bs then db.histories[b].(nulled := db.histories[b].nulled + [f]) else db.histories[b])
  }

  /** `_null_draft_media_references`. A touched draft that is not a dict raises. */
  function ClearDrafts(env: Env, db: Db, f: Uuid): Step {
    if exists b <- TouchedBlocks(db, f) :: !db.blocks[b].draft.Obj? then Fail(Uncaught)
    else Ok(Clear(env, db, f, TouchedBlocks(db, f)).(usages := Filter(db.usages, NotDraftOf(f))))
  }

  function DeleteFile(env: Env, db: Db, f: Uuid): Step {
    if f !in db.files || db.files[f].deleted then Fail(NotFound)
    else if Used(db.usages, f, PublishedLayer) then
      ClearDrafts(env, db.(files := db.files[f := db.files[f].(tombstoned := true)]), f)
    else Ok(db.(files := db.files[f := db.files[f].(deleted := true)]))
  }

  /** The tombstoned files with no published use whose storage object can be deleted. */
  function Removable(db: Db, broken: set<Uuid>): set<Uuid> {
    set f | f in db.files && f !in broken
            && db.files[f].tombstoned && !db.files[f].deleted && !Used(db.usages, f, PublishedLayer)
  }

  /** Hard deletion of files cascades to their usage rows of either layer. */
  function Remove(db: Db, gone: set<Uuid>): Db {
    db.(files := db.files - gone, stored := db.stored - gone, usages := Filter(db.usages, NotAnyOf(gone)))
  }

  function CleanUp(db: Db, broken: set<Uuid>): Db {
    Remove(db, Removable(db, broken))
  }

  function PruneAll(env: Env, db: Db): Db {
    db.(histories := map b | b in db.histories ::
      db.histories[b].(rows := Prune(db.histories[b].rows, env.keep)))
  }

  // ------------------------------------------------------------------- runs

  datatype Event =
    | SaveDraftEv(b: BlockId, content: Dict, user: UserId, now: int)
    | RollBackEv(b: BlockId, number: nat, user: UserId, now: int)
    | ToggleEv(b: BlockId, visible: bool)
    | ImportEv(page: PageId, data: seq<ImportBlock>, user: UserId, now: int)
    | PublishEv(page: PageId, user: UserId, now: int)
    | UnpublishEv(page: PageId)
    | UploadEv(f: Uuid, upload: Upload)
    | DeleteFileEv(f: Uuid)
    | CleanUpEv(broken: set<Uuid>)
    | PruneEv

  function Attempt(env: Env, db: Db, ev: Event): Step {
    match ev
    case SaveDraftEv(b, content, user, now) => SaveDraft(env, db, b, content, user, now)
    case RollBackEv(b, number, user, now) => RollBackTo(env, db, b, number, user, now)
    case ToggleEv(b, visible) => Toggle(db, b, visible)
    case ImportEv(page, data, user, now) => ImportPage(env, db, page, data, user, now)
    case PublishEv(page, user, now) => PublishPage(env, db, page, user, now)
    case UnpublishEv(page) => UnpublishPage(db, page)
    case UploadEv(f, upload) => UploadFile(db, f, upload)
    case DeleteFileEv(f) => DeleteFile(env, db, f)
    case CleanUpEv(broken) => Ok(CleanUp(db, broken))
    case PruneEv => Ok(PruneAll(env, db))
  }

  /** The state after a call: a failed transaction changes nothing. */
  function After(env: Env, db: Db, ev: Event): Db {
    var r := Attempt(env, db, ev);
    if r.Ok? then r.value else db
  }

  function Run(env: Env, db: Db, evs: seq<Event>): Db {
    if evs == [] then db
    else After(env, Run(env, db, evs[..|evs| - 1]), evs[|evs| - 1])
  }

  /** Freshly placed blocks: drafts may hold default content, nothing is published or indexed. */
  ghost predicate Initial(db: Db) {
    && Listed(db)
    && (forall b <- db.blocks :: db.blocks[b].published == Null)
    && (forall b <- db.histories :: db.histories[b] == NO_HISTORY)
    && db.usages == []
    && db.files.Keys <= db.stored
  }

  /** `order` names each placement once, and each placement has a history and a page. */
  ghost predicate Listed(db: Db) {
    && (forall i, j :: 0 <= i < j < |db.order| ==> db.order[i] != db.order[j])
    && (forall b :: b in db.order <==> b in db.blocks)
    && db.histories.Keys == db.blocks.Keys
    && (forall b <- db.blocks :: db.blocks[b].page in db.pages)
  }
}
