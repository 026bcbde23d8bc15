// What a cleaned document is, told without the order in which it is cleaned.

module SanitizerMeaning {
  import opened Wrappers
  import opened JsonTree
  import opened Schemas
  import opened Sanitizer

  /**
   * `r` is `d` with each rich text cleaned with the tags its field allows, in list items as
   * in the document, and everything else as it was.
   */
  ghost predicate IsCleaned(lib: Library, schema: Schema, d: Dict, r: Dict)
    decreases schema, 0
  {
    && Keys(r) == Keys(d)
    && (forall k :: (forall f <- schema :: f.Field? ==> f.key != k) ==> Lookup(r, k) == Lookup(d, k))
    && forall f <- schema :: f.Field? ==> ValueIsCleaned(lib, f, Lookup(d, f.key), Lookup(r, f.key))
  }

  ghost predicate ValueIsCleaned(lib: Library, f: Field, before: Option<Json>, after: Option<Json>)
    requires f.Field?
    decreases f, 1
  {
    match before
    case None => after == None
    case Some(v) =>
      if f.kind == RichText && v.Str? then
        after == Some(Str(lib.clean(if f.tags.Given? then f.tags.value else DEFAULT_TAGS, v.s)))
      else if f.kind == Repeater && v.Arr? && f.item.ItemSchema? then
        && after.Some? && after.value.Arr? && |after.value.items| == |v.items|
        && forall i :: 0 <= i < |v.items| ==> ItemIsCleaned(lib, f.item.fields, v.items[i], after.value.items[i])
      else after == before
  }

  ghost predicate ItemIsCleaned(lib: Library, schema: Schema, v: Json, w: Json)
    decreases schema, 1
  {
    if v.Obj? then w.Obj? && IsCleaned(lib, schema, v.entries, w.entries) else w == v
  }

  lemma {:induction false} LookupOfKey(lib: Library, schema: Schema, d: Dict, f: Field)
    requires f in schema && f.Field? && DistinctKeys(schema)
    ensures Lookup(Sanitize(lib, schema, d), f.key)
            == match Lookup(d, f.key)
               case None => None
               case Some(v) => Some(Cleaned(lib, f, v))
  {
    var first, rest := schema[0], schema[1..];
    assert schema == [first] + rest && DistinctKeys(rest);
    if first.Field? {
      var v := Lookup(d, first.key).GetOr(Null);
      AssignLookup(d, first.key, Cleaned(lib, first, v), f.key);
    }
    if f == first {
      forall g | g in rest ensures !SameKey(f, g) {
        var i :| 0 < i < |schema| && schema[i] == g;
      }
      LookupOfOther(lib, rest, SanitizeField(lib, first, d), f.key);
    } else {
      assert !SameKey(first, f) by {
        var i :| 0 < i < |schema| && schema[i] == f;
      }
      LookupOfKey(lib, rest, SanitizeField(lib, first, d), f);
    }
  }

  lemma {:induction false} LookupOfOther(lib: Library, schema: Schema, d: Dict, k: string)
    requires forall f <- schema :: f.Field? ==> f.key != k
    ensures Lookup(Sanitize(lib, schema, d), k) == Lookup(d, k)
  {
    if schema != [] {
      var f := schema[0];
      assert f in schema;
      if f.Field? {
        AssignLookup(d, f.key, Cleaned(lib, f, Lookup(d, f.key).GetOr(Null)), k);
      }
      LookupOfOther(lib, schema[1..], SanitizeField(lib, f, d), k);
    }
  }

  /** With keys distinct at every level, cleaning a document yields exactly that. */
  lemma {:induction false} SanitizedIsCleaned(lib: Library, schema: Schema, d: Dict)
    requires DeeplyDistinct(schema)
    ensures IsCleaned(lib, schema, d, Sanitize(lib, schema, d))
    decreases schema, 0
  {
    var r := Sanitize(lib, schema, d);
    SanitizeKeepsOtherValues(lib, schema, d, "");
    forall k | forall f <- schema :: f.Field? ==> f.key != k ensures Lookup(r, k) == Lookup(d, k) {
      LookupOfOther(lib, schema, d, k);
    }
    forall f | f in schema && f.Field? ensures ValueIsCleaned(lib, f, Lookup(d, f.key), Lookup(r, f.key)) {
      LookupOfKey(lib, schema, d, f);
      if Lookup(d, f.key).Some? {
        FieldIsCleaned(lib, f, Lookup(d, f.key).value);
      }
    }
  }

  lemma {:induction false} FieldIsCleaned(lib: Library, f: Field, v: Json)
    requires f.Field? && (f.item.ItemSchema? ==> DeeplyDistinct(f.item.fields))
    ensures ValueIsCleaned(lib, f, Some(v), Some(Cleaned(lib, f, v)))
    decreases f, 0
  {
    if f.kind == Repeater && v.Arr? && f.item.ItemSchema? {
      var items := CleanedItems(lib, f.item.fields, v.items);
      forall i | 0 <= i < |v.items| ensures ItemIsCleaned(lib, f.item.fields, v.items[i], items[i]) {
        if v.items[i].Obj? {
          SanitizedIsCleaned(lib, f.item.fields, v.items[i].entries);
        }
      }
    }
  }
}
