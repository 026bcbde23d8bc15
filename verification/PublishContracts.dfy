// What the publish gate reports and lets through, told on the rows of the file table.

module PublishContracts {
  import opened Wrappers
  import opened JsonTree
  import opened MediaRefs
  import opened Schemas
  import opened Validator
  import opened ValidatorMeaning
  import opened Versions
  import opened Cms
  import opened CmsInvariants
  import opened CmsTheorems

  // ----------------------------------------------------------- one media id

  /** The primary key a raw media id stands for. */
  function KeyOf(env: Env, id: Json): Option<Uuid> {
    match id
    case Null => None
    case Str(s) => env.codec.parse(s)
    case _ => env.otherKey(id)
  }

  /** There is no such file, or it was soft-deleted. */
  predicate NoFile(env: Env, files: map<Uuid, File>, id: Json) {
    id == Null
    || (KeyOf(env, id).Some? && (KeyOf(env, id).value !in files || files[KeyOf(env, id).value].deleted))
  }

  predicate TombstonedFile(env: Env, files: map<Uuid, File>, id: Json) {
    var u := KeyOf(env, id);
    u.Some? && u.value in files && !files[u.value].deleted && files[u.value].tombstoned
  }

  predicate ServableFile(env: Env, files: map<Uuid, File>, id: Json) {
    var u := KeyOf(env, id);
    u.Some? && u.value in files && !files[u.value].deleted && !files[u.value].tombstoned
  }

  /** The value of a field that holds an object with this media id. */
  predicate Names(d: Dict, f: Field, id: Json)
    requires f.Field?
  {
    match Lookup(d, f.key)
    case Some(Obj(es)) => Lookup(es, "media_id") == Some(id)
    case _ => false
  }

  /**
   * Strict validation of a media field that names a file: not found exactly if the file is
   * missing or deleted, tombstoned exactly if it is, and no issue exactly if it is neither.
   * An id that is no primary key raises.
   */
  lemma MediaFieldIssues(env: Env, files: map<Uuid, File>, f: Field, d: Dict, id: Json)
    requires f.Field? && f.kind == Media && Names(d, f, id)
    ensures
      var r := FieldVerdict(env.lib, MediaLookup(env, files), f, d, true);
      && (r == Ok([Issue(f.key, MediaNotFound)]) <==> NoFile(env, files, id))
      && (r == Ok([Issue(f.key, MediaTombstoned)]) <==> TombstonedFile(env, files, id))
      && (r == Ok([]) <==> ServableFile(env, files, id))
      && (r == Fail(InvalidMediaKey) <==> id != Null && KeyOf(env, id).None?)
  {
    FieldMeans(env.lib, MediaLookup(env, files), f, d, true);
  }

  // -------------------------------------------------- documents that pass

  /** The field is filled if required, and names a servable file if it is a media field with a value. */
  ghost predicate FieldServed(env: Env, files: map<Uuid, File>, f: Field, value: Option<Json>)
    requires f.Field?
    decreases f
  {
    match value
    case None => !f.required
    case Some(v) =>
      && (f.required ==> v != Null && v != Str("") && v != Arr([]))
      && (f.kind == Media ==> v == Null || v == Str("") || NamesServable(env, files, v))
      && (f.kind == Repeater && v.Arr? && f.item.ItemSchema? ==>
            forall item <- v.items :: item.Obj? ==> Served(env, files, f.item.fields, item.entries))
  }

  predicate NamesServable(env: Env, files: map<Uuid, File>, v: Json) {
    v.Obj? && Lookup(v.entries, "media_id").Some? && ServableFile(env, files, Lookup(v.entries, "media_id").value)
  }

  ghost predicate Served(env: Env, files: map<Uuid, File>, schema: Schema, d: Dict)
    decreases schema
  {
    forall f <- schema :: f.Field? && FieldServed(env, files, f, Lookup(d, f.key))
  }

  predicate Passes(v: Verdict) {
    v.Ok? && v.value == []
  }

  lemma CatPasses(a: Verdict, b: Verdict)
    ensures Passes(Cat(a, b)) <==> Passes(a) && Passes(b)
  {
    if a.Ok? && b.Ok? {
      assert |a.value + b.value| == |a.value| + |b.value|;
    }
  }

  lemma {:induction false} PassesByField(lib: Library, media: Json -> MediaState, schema: Schema, d: Dict, strict: bool)
    ensures Passes(Validate(lib, media, schema, d, strict))
            <==> forall f <- schema :: Passes(FieldVerdict(lib, media, f, d, strict))
    decreases |schema|
  {
    if schema != [] {
      PassesByField(lib, media, schema[1..], d, strict);
      CatPasses(FieldVerdict(lib, media, schema[0], d, strict), Validate(lib, media, schema[1..], d, strict));
      assert schema == [schema[0]] + schema[1..];
      assert schema[0] in schema && forall f <- schema[1..] :: f in schema;
    }
  }

  lemma {:induction false} PassesByItem(lib: Library, media: Json -> MediaState, key: string, schema: Schema,
                                        items: seq<Json>, n: nat, strict: bool)
    ensures Passes(ItemsVerdict(lib, media, key, schema, items, n, strict))
            <==> forall item <- items :: item.Obj? ==> Passes(Validate(lib, media, schema, item.entries, strict))
    decreases |items|
  {
    if items != [] {
      PassesByItem(lib, media, key, schema, items[1..], n + 1, strict);
      CatPasses(ItemVerdict(lib, media, key, schema, items[0], n, strict),
                ItemsVerdict(lib, media, key, schema, items[1..], n + 1, strict));
      ItemPasses(lib, media, key, schema, items[0], n, strict);
      assert items == [items[0]] + items[1..];
    }
  }

  lemma ItemPasses(lib: Library, media: Json -> MediaState, key: string, schema: Schema, item: Json, n: nat,
                   strict: bool)
    ensures Passes(ItemVerdict(lib, media, key, schema, item, n, strict))
            <==> (item.Obj? ==> Passes(Validate(lib, media, schema, item.entries, strict)))
  {
    if item.Obj? {
      var sub := Validate(lib, media, schema, item.entries, strict);
      if sub.Ok? {
        assert |Prefixed(sub.value, ItemPrefix(key, n))| == |sub.value|;
      }
    }
  }

  /** Strict validation finds nothing exactly if permissive validation finds nothing and the document is served. */
  lemma {:induction false} PassesIffServed(env: Env, files: map<Uuid, File>, schema: Schema, d: Dict)
    ensures
      var media := MediaLookup(env, files);
      Passes(Validate(env.lib, media, schema, d, true))
      <==> Passes(Validate(env.lib, media, schema, d, false)) && Served(env, files, schema, d)
    decreases schema, 1
  {
    var media := MediaLookup(env, files);
    PassesByField(env.lib, media, schema, d, true);
    PassesByField(env.lib, media, schema, d, false);
    forall f | f in schema
      ensures Passes(FieldVerdict(env.lib, media, f, d, true))
              <==> Passes(FieldVerdict(env.lib, media, f, d, false))
                   && f.Field? && FieldServed(env, files, f, Lookup(d, f.key))
    {
      FieldPassesIffServed(env, files, f, d);
    }
  }

  lemma {:induction false} FieldPassesIffServed(env: Env, files: map<Uuid, File>, f: Field, d: Dict)
    ensures
      var media := MediaLookup(env, files);
      Passes(FieldVerdict(env.lib, media, f, d, true))
      <==> Passes(FieldVerdict(env.lib, media, f, d, false))
           && f.Field? && FieldServed(env, files, f, Lookup(d, f.key))
    decreases f, 1
  {
    var media := MediaLookup(env, files);
    FieldAgrees(env.lib, media, f, d);
    if f.Field? {
      if f.kind == Repeater {
        RepeaterPassesIffServed(env, files, f, d);
      } else if f.kind != Media {
        SimpleValueAgrees(env.lib, media, f, Lookup(d, f.key).GetOr(Null));
        SimplePassesAlike(env.lib, media, f, d);
      }
    }
  }

  lemma SimplePassesAlike(lib: Library, media: Json -> MediaState, f: Field, d: Dict)
    requires f.Field? && f.kind != Media && f.kind != Repeater
    ensures
      var strict := FieldVerdict(lib, media, f, d, true);
      var v := Lookup(d, f.key).GetOr(Null);
      Passes(strict) <==> Passes(FieldVerdict(lib, media, f, d, false)) && !RequiredButEmpty(f, v)
  {
    var v := Lookup(d, f.key).GetOr(Null);
    SimpleSame(lib, media, f, v);
  }

  lemma SimpleSame(lib: Library, media: Json -> MediaState, f: Field, v: Json)
    requires f.Field? && f.kind != Media && f.kind != Repeater
    ensures ValueVerdict(lib, media, f, v, true) == ValueVerdict(lib, media, f, v, false)
  {
  }

  lemma {:induction false} RepeaterPassesIffServed(env: Env, files: map<Uuid, File>, f: Field, d: Dict)
    requires f.Field? && f.kind == Repeater
    ensures
      var media := MediaLookup(env, files);
      Passes(FieldVerdict(env.lib, media, f, d, true))
      <==> Passes(FieldVerdict(env.lib, media, f, d, false)) && FieldServed(env, files, f, Lookup(d, f.key))
    decreases f, 0
  {
    var media, v := MediaLookup(env, files), Lookup(d, f.key).GetOr(Null);
    if v.Arr? && f.item.ItemSchema? {
      PassesByItem(env.lib, media, f.key, f.item.fields, v.items, 0, true);
      PassesByItem(env.lib, media, f.key, f.item.fields, v.items, 0, false);
      forall item | item in v.items && item.Obj?
        ensures Passes(Validate(env.lib, media, f.item.fields, item.entries, true))
                <==> Passes(Validate(env.lib, media, f.item.fields, item.entries, false))
                     && Served(env, files, f.item.fields, item.entries)
      {
        PassesIffServed(env, files, f.item.fields, item.entries);
      }
    }
  }

  // ---------------------------------------------- documents that do not

  /** What `media_not_found` and `media_tombstoned` say of a media id. */
  predicate Faulty(env: Env, files: map<Uuid, File>, id: Json, kind: IssueKind) {
    match kind
    case MediaNotFound => NoFile(env, files, id)
    case MediaTombstoned => TombstonedFile(env, files, id)
    case _ => false
  }

  /** Some media field of the document, in list items too, has an id with this fault. */
  ghost predicate HasFault(env: Env, files: map<Uuid, File>, schema: Schema, d: Dict, kind: IssueKind)
    decreases schema
  {
    exists f <- schema :: f.Field? && FieldHasFault(env, files, f, Lookup(d, f.key), kind)
  }

  ghost predicate FieldHasFault(env: Env, files: map<Uuid, File>, f: Field, value: Option<Json>, kind: IssueKind)
    requires f.Field?
    decreases f
  {
    match value
    case None => false
    case Some(v) =>
      || (f.kind == Media && v.Obj? && Lookup(v.entries, "media_id").Some?
          && Faulty(env, files, Lookup(v.entries, "media_id").value, kind))
      || (f.kind == Repeater && v.Arr? && f.item.ItemSchema?
          && exists item <- v.items :: item.Obj? && HasFault(env, files, f.item.fields, item.entries, kind))
  }

  predicate HasKind(issues: seq<Issue>, kind: IssueKind) {
    exists i <- issues :: i.kind == kind
  }

  lemma HasKindConcat(a: seq<Issue>, b: seq<Issue>, kind: IssueKind)
    ensures HasKind(a + b, kind) <==> HasKind(a, kind) || HasKind(b, kind)
  {
    assert forall i :: i in a + b <==> i in a || i in b;
  }

  /** Reported at all: the verdict is a list with such an issue. */
  predicate Says(v: Verdict, kind: IssueKind) {
    v.Ok? && HasKind(v.value, kind)
  }

  lemma CatSays(a: Verdict, b: Verdict, kind: IssueKind)
    ensures Cat(a, b).Ok? ==> (Says(Cat(a, b), kind) <==> Says(a, kind) || Says(b, kind))
  {
    if a.Ok? && b.Ok? {
      HasKindConcat(a.value, b.value, kind);
    }
  }

  predicate MediaFault(kind: IssueKind) {
    kind == MediaNotFound || kind == MediaTombstoned
  }

  /** Strict validation reports either fault exactly if some media field of the document has it. */
  lemma {:induction false} FaultReportedIff(env: Env, files: map<Uuid, File>, schema: Schema, d: Dict, kind: IssueKind)
    requires MediaFault(kind) && Validate(env.lib, MediaLookup(env, files), schema, d, true).Ok?
    ensures Says(Validate(env.lib, MediaLookup(env, files), schema, d, true), kind)
            <==> HasFault(env, files, schema, d, kind)
    decreases schema, 2
  {
    if schema != [] {
      var media, f, rest := MediaLookup(env, files), schema[0], schema[1..];
      FieldFaultReportedIff(env, files, f, d, kind);
      FaultReportedIff(env, files, rest, d, kind);
      CatSays(FieldVerdict(env.lib, media, f, d, true), Validate(env.lib, media, rest, d, true), kind);
      assert schema == [f] + rest;
      assert forall g :: g in schema <==> g == f || g in rest;
    }
  }

  lemma {:induction false} FieldFaultReportedIff(env: Env, files: map<Uuid, File>, f: Field, d: Dict, kind: IssueKind)
    requires MediaFault(kind) && FieldVerdict(env.lib, MediaLookup(env, files), f, d, true).Ok?
    ensures f.Field?
    ensures Says(FieldVerdict(env.lib, MediaLookup(env, files), f, d, true), kind)
            <==> FieldHasFault(env, files, f, Lookup(d, f.key), kind)
    decreases f, 1
  {
    var media, v := MediaLookup(env, files), Lookup(d, f.key).GetOr(Null);
    if f.kind == Repeater {
      if v.Arr? && f.item.ItemSchema? && !RequiredButEmpty(f, v) {
        RepeaterFaultReportedIff(env, files, f, v, kind);
      }
    } else if f.kind == Media {
      MediaFaultReportedIff(env, files, f, d, kind);
    } else {
      SimpleValuesHaveNoFault(env.lib, media, f, v, kind);
    }
  }

  lemma MediaFaultReportedIff(env: Env, files: map<Uuid, File>, f: Field, d: Dict, kind: IssueKind)
    requires MediaFault(kind) && FieldVerdict(env.lib, MediaLookup(env, files), f, d, true).Ok?
    requires f.Field? && f.kind == Media
    ensures Says(FieldVerdict(env.lib, MediaLookup(env, files), f, d, true), kind)
            <==> FieldHasFault(env, files, f, Lookup(d, f.key), kind)
  {
    var r := FieldVerdict(env.lib, MediaLookup(env, files), f, d, true);
    if v: Json :| Lookup(d, f.key) == Some(v) && IsMediaReference(v) {
      MediaFieldIssues(env, files, f, d, MediaIdOf(v));
      assert Says(r, kind) <==> r == Ok([Issue(f.key, kind)]);
    }
  }

  lemma SimpleValuesHaveNoFault(lib: Library, media: Json -> MediaState, f: Field, v: Json, kind: IssueKind)
    requires MediaFault(kind) && f.Field? && f.kind != Media && f.kind != Repeater
    ensures !Says(ValueVerdict(lib, media, f, v, true), kind)
  {
    match f.kind {
      case Text | TextArea => TextIsPlain(lib, f, v);
      case Number => NumberIsPlain(f, v);
      case MultiSelect => SelectionIsPlain(lib, f, v);
      case _ =>
    }
  }

  lemma {:induction false} RepeaterFaultReportedIff(env: Env, files: map<Uuid, File>, f: Field, v: Json,
                                                    kind: IssueKind)
    requires MediaFault(kind) && f.Field? && f.kind == Repeater && v.Arr? && f.item.ItemSchema?
    requires ValueVerdict(env.lib, MediaLookup(env, files), f, v, true).Ok?
    ensures Says(ValueVerdict(env.lib, MediaLookup(env, files), f, v, true), kind)
            <==> exists item <- v.items :: item.Obj? && HasFault(env, files, f.item.fields, item.entries, kind)
    decreases f, 0
  {
    var media := MediaLookup(env, files);
    var sizes, items := SizeVerdict(f, v.items), ItemsVerdict(env.lib, media, f.key, f.item.fields, v.items, 0, true);
    SizeIsPlain(f, v.items);
    CatSays(sizes, items, kind);
    ItemsFaultReportedIff(env, files, f.key, f.item.fields, v.items, 0, kind);
  }

  lemma {:induction false} ItemsFaultReportedIff(env: Env, files: map<Uuid, File>, key: string, schema: Schema,
                                                 items: seq<Json>, n: nat, kind: IssueKind)
    requires MediaFault(kind) && ItemsVerdict(env.lib, MediaLookup(env, files), key, schema, items, n, true).Ok?
    ensures Says(ItemsVerdict(env.lib, MediaLookup(env, files), key, schema, items, n, true), kind)
            <==> exists item <- items :: item.Obj? && HasFault(env, files, schema, item.entries, kind)
    decreases schema, 3, |items|
  {
    if items != [] {
      var media, item, rest := MediaLookup(env, files), items[0], items[1..];
      ItemsFaultReportedIff(env, files, key, schema, rest, n + 1, kind);
      CatSays(ItemVerdict(env.lib, media, key, schema, item, n, true),
              ItemsVerdict(env.lib, media, key, schema, rest, n + 1, true), kind);
      if item.Obj? {
        FaultReportedIff(env, files, schema, item.entries, kind);
        PrefixedHasKind(Validate(env.lib, media, schema, item.entries, true).value, ItemPrefix(key, n), kind);
      }
      assert items == [item] + rest;
      assert forall x :: x in items <==> x == item || x in rest;
    }
  }

  lemma PrefixedHasKind(issues: seq<Issue>, prefix: string, kind: IssueKind)
    ensures HasKind(Prefixed(issues, prefix), kind) <==> HasKind(issues, kind)
  {
    if i :| 0 <= i < |issues| && issues[i].kind == kind {
      assert Prefixed(issues, prefix)[i] in Prefixed(issues, prefix);
    }
    if HasKind(Prefixed(issues, prefix), kind) {
      var i :| 0 <= i < |issues| && Prefixed(issues, prefix)[i].kind == kind;
      assert issues[i] in issues;
    }
  }

  // -------------------------------------------------------------- the page

  /** The document of a content column, where everything false reads as an empty one. */
  function Document(column: Json): Option<Dict> {
    match column
    case Obj(entries) => Some(entries)
    case Null => Some([])
    case Bool(b) => if b then None else Some([])
    case Num(n) => if n == 0.0 then Some([]) else None
    case Str(s) => if s == "" then Some([]) else None
    case Arr(items) => if items == [] then Some([]) else None
  }

  lemma DocumentIs(column: Json)
    ensures Document(column) == if OrEmpty(column).Obj? then Some(OrEmpty(column).entries) else None
  {
  }

  /** The block is on the page, and shown or required. */
  predicate Gated(db: Db, page: PageId, b: BlockId) {
    b in db.blocks && db.blocks[b].page == page && (db.blocks[b].visible || db.blocks[b].required)
  }

  /** The column holds a served document, or its schema has no fields. */
  ghost predicate ColumnServed(env: Env, files: map<Uuid, File>, schema: Schema, column: Json) {
    match Document(column)
    case None => schema == []
    case Some(doc) => Served(env, files, schema, doc)
  }

  /** Nothing is reported for the column in permissive mode. */
  ghost predicate ColumnAccepted(env: Env, schema: Schema, column: Json, media: Json -> MediaState) {
    match Document(column)
    case None => schema == []
    case Some(doc) => Passes(Validate(env.lib, media, schema, doc, false))
  }

  lemma PublishableIff(env: Env, files: map<Uuid, File>, block: Block)
    ensures Publishable(env, files, block)
            <==> && ColumnAccepted(env, block.schema, block.draft, MediaLookup(env, files))
                 && ColumnServed(env, files, block.schema, block.draft)
  {
    DocumentIs(block.draft);
    if OrEmpty(block.draft).Obj? {
      var doc := OrEmpty(block.draft).entries;
      PassesIffServed(env, files, block.schema, doc);
      StrictPassIffReady(env.lib, MediaLookup(env, files), block.schema, doc);
    }
  }

  /**
   * A publish succeeds exactly when the page exists, each of its visible or required blocks
   * has a draft that permissive validation accepts, with its required fields filled and
   * servable files in its media fields, and the media references of all its drafts, hidden
   * blocks' included, are to existing files and have keys that fit the column.
   */
  lemma PublishedExactlyWhen(env: Env, db: Db, page: PageId, user: UserId, now: int)
    requires Listed(db)
    ensures PublishPage(env, db, page, user, now).Ok?
            <==> && page in db.pages
                 && (forall b <- db.blocks :: Gated(db, page, b) ==>
                       && ColumnAccepted(env, db.blocks[b].schema, db.blocks[b].draft, MediaLookup(env, db.files))
                       && ColumnServed(env, db.files, db.blocks[b].schema, db.blocks[b].draft))
                 && (forall b <- db.blocks :: db.blocks[b].page == page ==> Storable(env, db, db.blocks[b].draft))
  {
    PublishSucceedsIff(env, db, page, user, now);
    forall b | b in db.blocks
      ensures Publishable(env, db.files, db.blocks[b])
              <==> && ColumnAccepted(env, db.blocks[b].schema, db.blocks[b].draft, MediaLookup(env, db.files))
                   && ColumnServed(env, db.files, db.blocks[b].schema, db.blocks[b].draft)
    {
      PublishableIff(env, db.files, db.blocks[b]);
    }
  }

  /** The column's references can be read, and each is to a file with a row, under a key of at most 100 characters. */
  ghost predicate Storable(env: Env, db: Db, column: Json) {
    var refs := RefsOf(env.codec, column);
    refs.Refs? && forall r <- refs.refs :: r.id in db.files && |r.path| <= 100
  }

  /**
   * Every published media field of a shown or required block of the page, in list items
   * too, names a file that is there and neither deleted nor tombstoned, and every required
   * field is filled.
   */
  ghost predicate PageServed(env: Env, db: Db, d: Db, page: PageId) {
    forall b :: Gated(db, page, b) ==>
      b in d.blocks && ColumnServed(env, d.files, db.blocks[b].schema, d.blocks[b].published)
  }

  lemma PublishedMediaServable(env: Env, db: Db, page: PageId, user: UserId, now: int)
    requires Listed(db) && PublishPage(env, db, page, user, now).Ok?
    ensures PageServed(env, db, PublishPage(env, db, page, user, now).value, page)
  {
    PublishedExactlyWhen(env, db, page, user, now);
    forall b | Gated(db, page, b)
      ensures
        var d := PublishPage(env, db, page, user, now).value;
        b in d.blocks && ColumnServed(env, d.files, db.blocks[b].schema, d.blocks[b].published)
    {
      PublishCopiesDrafts(env, db, page, user, now, b);
    }
  }

  /** Strict validation of the block's draft reports this issue. */
  ghost predicate Reported(env: Env, files: map<Uuid, File>, block: Block, i: Issue) {
    match Document(block.draft)
    case None => false
    case Some(doc) =>
      var r := Validate(env.lib, MediaLookup(env, files), block.schema, doc, true);
      r.Ok? && i in r.value
  }

  lemma {:induction false} IssuesAre(env: Env, db: Db, page: PageId, ids: seq<BlockId>, b: BlockId, i: Issue)
    requires PublishIssues(env, db, page, ids).Ok?
    ensures BlockIssue(b, i) in PublishIssues(env, db, page, ids).value
            <==> b in ids && Gated(db, page, b) && Reported(env, db.files, db.blocks[b], i)
    decreases |ids|
  {
    if ids != [] {
      var before, last := ids[..|ids| - 1], ids[|ids| - 1];
      assert ids == before + [last];
      IssuesAre(env, db, page, before, b, i);
      if Gated(db, page, last) {
        IssuesOfBlock(env, db.files, db.blocks[last], last, b, i);
      }
    }
  }

  lemma IssuesOfBlock(env: Env, files: map<Uuid, File>, block: Block, last: BlockId, b: BlockId, i: Issue)
    requires StrictIssues(env, files, block).Ok?
    ensures BlockIssue(b, i) in Labelled(last, StrictIssues(env, files, block).value)
            <==> b == last && Reported(env, files, block, i)
  {
    DocumentIs(block.draft);
    var found := StrictIssues(env, files, block).value;
    assert i in found <==> Reported(env, files, block, i);
    if b == last && i in found {
      var k :| 0 <= k < |found| && found[k] == i;
      assert Labelled(last, found)[k] == BlockIssue(b, i);
    }
  }

  /** Some media field of the column, in list items too, has an id with this fault. */
  ghost predicate ColumnHasFault(env: Env, files: map<Uuid, File>, schema: Schema, column: Json, kind: IssueKind) {
    match Document(column)
    case None => false
    case Some(doc) => HasFault(env, files, schema, doc, kind)
  }

  lemma {:induction false} NoneRaised(env: Env, db: Db, page: PageId, ids: seq<BlockId>, b: BlockId)
    requires PublishIssues(env, db, page, ids).Ok? && b in ids && Gated(db, page, b)
    ensures StrictIssues(env, db.files, db.blocks[b]).Ok?
    decreases |ids|
  {
    if b != ids[|ids| - 1] {
      NoneRaised(env, db, page, ids[..|ids| - 1], b);
    }
  }

  /**
   * A publish that the gate refuses lists, for its shown or required blocks alone, what
   * strict validation reports: `media_not_found` exactly if one of their media fields has
   * an id of a missing or deleted file, `media_tombstoned` exactly if one has an id of a
   * tombstoned one.
   */
  lemma RefusedPublishLists(env: Env, db: Db, page: PageId, user: UserId, now: int, issues: seq<BlockIssue>)
    requires Listed(db) && PublishPage(env, db, page, user, now) == Fail(PublishFailed(issues))
    ensures page in db.pages && issues != []
    ensures forall b, i ::
      BlockIssue(b, i) in issues <==> Gated(db, page, b) && Reported(env, db.files, db.blocks[b], i)
    ensures forall kind :: MediaFault(kind) ==>
      ((exists x <- issues :: x.issue.kind == kind)
       <==> exists b :: Gated(db, page, b)
                        && ColumnHasFault(env, db.files, db.blocks[b].schema, db.blocks[b].draft, kind))
  {
    RefusedByGate(env, db, page, user, now);
    forall b, i ensures BlockIssue(b, i) in issues
                        <==> Gated(db, page, b) && Reported(env, db.files, db.blocks[b], i)
    {
      IssuesAre(env, db, page, db.order, b, i);
    }
    forall kind | MediaFault(kind)
      ensures (exists x <- issues :: x.issue.kind == kind)
              <==> exists b :: Gated(db, page, b)
                               && ColumnHasFault(env, db.files, db.blocks[b].schema, db.blocks[b].draft, kind)
    {
      FaultListedIff(env, db, page, issues, kind);
    }
  }

  lemma FaultOfBlock(env: Env, files: map<Uuid, File>, block: Block, kind: IssueKind)
    requires MediaFault(kind) && StrictIssues(env, files, block).Ok?
    ensures (exists i :: Reported(env, files, block, i) && i.kind == kind)
            <==> ColumnHasFault(env, files, block.schema, block.draft, kind)
  {
    DocumentIs(block.draft);
    if OrEmpty(block.draft).Obj? {
      var doc := OrEmpty(block.draft).entries;
      FaultReportedIff(env, files, block.schema, doc, kind);
      var r := Validate(env.lib, MediaLookup(env, files), block.schema, doc, true);
      assert forall i :: Reported(env, files, block, i) <==> i in r.value;
    }
  }

  lemma FaultListedIff(env: Env, db: Db, page: PageId, issues: seq<BlockIssue>, kind: IssueKind)
    requires Listed(db) && MediaFault(kind) && PublishIssues(env, db, page, db.order) == Ok(issues)
    ensures (exists x <- issues :: x.issue.kind == kind)
            <==> exists b :: Gated(db, page, b)
                             && ColumnHasFault(env, db.files, db.blocks[b].schema, db.blocks[b].draft, kind)
  {
    if x :| x in issues && x.issue.kind == kind {
      IssuesAre(env, db, page, db.order, x.block, x.issue);
      NoneRaised(env, db, page, db.order, x.block);
      FaultOfBlock(env, db.files, db.blocks[x.block], kind);
    }
    if b :| Gated(db, page, b) && ColumnHasFault(env, db.files, db.blocks[b].schema, db.blocks[b].draft, kind) {
      NoneRaised(env, db, page, db.order, b);
      FaultOfBlock(env, db.files, db.blocks[b], kind);
      var i :| Reported(env, db.files, db.blocks[b], i) && i.kind == kind;
      IssuesAre(env, db, page, db.order, b, i);
      assert BlockIssue(b, i).issue.kind == kind;
    }
  }

  /** Once the gate is passed a publish fails by an exception alone. */
  lemma {:induction false} WritesNeverList(env: Env, db: Db, page: PageId, ids: seq<BlockId>, user: UserId, now: int)
    ensures
      var r := PublishBlocks(env, db, page, ids, user, now);
      r.Ok? || r == Fail(Uncaught)
  {
    if ids != [] {
      WritesNeverList(env, db, page, ids[..|ids| - 1], user, now);
    }
  }

  lemma {:induction false} GateRaisesUncaught(env: Env, db: Db, page: PageId, ids: seq<BlockId>)
    ensures
      var r := PublishIssues(env, db, page, ids);
      r.Ok? || r == Fail(Uncaught)
  {
    if ids != [] {
      GateRaisesUncaught(env, db, page, ids[..|ids| - 1]);
    }
  }

  /** A publish is refused for an unknown page, for issues, or by an exception. */
  lemma RefusedByGate(env: Env, db: Db, page: PageId, user: UserId, now: int)
    ensures PublishPage(env, db, page, user, now) == Fail(NotFound) <==> page !in db.pages
    ensures forall issues :: PublishPage(env, db, page, user, now) == Fail(PublishFailed(issues))
                             <==> page in db.pages && issues != []
                                  && PublishIssues(env, db, page, db.order) == Ok(issues)
  {
    GateRaisesUncaught(env, db, page, db.order);
    WritesNeverList(env, db, page, db.order, user, now);
  }

  // ------------------------------------------------------------ the effect

  /** The newest row of the history, if retention keeps any. */
  predicate NewestIs(h: History, keep: nat, row: Version) {
    keep >= 1 ==> h.rows != [] && h.rows[|h.rows| - 1] == row
  }

  /**
   * A publish leaves the page live as of now, every placement of the page with its draft
   * published against the current schema and in a new version, and everything else of
   * every row as it was.
   */
  lemma PublishLeaves(env: Env, db: Db, page: PageId, user: UserId, now: int)
    requires Inv(env, db) && PublishPage(env, db, page, user, now).Ok?
    ensures
      var d := PublishPage(env, db, page, user, now).value;
      && d.pages == db.pages[page := Page(true, Some(now))]
      && d.order == db.order && d.files == db.files && d.stored == db.stored
      && d.blocks.Keys == db.blocks.Keys && d.histories.Keys == db.histories.Keys
      && forall b <- db.blocks ::
        if db.blocks[b].page == page then
          && d.blocks[b] == db.blocks[b].(published := db.blocks[b].draft, live := true,
                                          validated := db.blocks[b].schemaVersion)
          && var n := db.histories[b].created + 1;
             && d.histories[b].created == n
             && NewestIs(d.histories[b], env.keep, Version(n, OrEmpty(db.blocks[b].draft), Versions.Publish, user, now))
        else d.blocks[b] == db.blocks[b] && d.histories[b] == db.histories[b]
  {
    PublishIsWrite(env, db, page, user, now);
    PublishEffect(env, db, page, db.order, user, now);
    var d := PublishBlocks(env, db, page, db.order, user, now).value;
    forall b | b in db.blocks && db.blocks[b].page == page
      ensures
        var n := db.histories[b].created + 1;
        && d.histories[b].created == n
        && NewestIs(d.histories[b], env.keep, Version(n, OrEmpty(db.blocks[b].draft), Versions.Publish, user, now))
    {
      assert Sound(env, db.blocks[b].draft, db.histories[b]);
      NewestCreated(db.histories[b], db.blocks[b].draft, Versions.Publish, user, now, env.keep);
    }
  }

  lemma NewestCreated(h: History, content: Json, action: Action, author: UserId, now: int, keep: nat)
    requires Contiguous(h, keep)
    ensures
      var g := Create(h, content, action, author, now, keep);
      && g.created == h.created + 1
      && NewestIs(g, keep, Version(h.created + 1, OrEmpty(content), action, author, now))
  {
    if keep >= 1 {
      CreateKeepsBlock(h, content, action, author, now, keep);
    }
  }
}
