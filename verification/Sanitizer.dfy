// Cleaning rich text before content is stored (SchemaValidator.sanitize_content).

module Sanitizer {
  import opened Wrappers
  import opened JsonTree
  import opened MediaRefs
  import opened Schemas
  import opened Validator

  /** `d[k] = v` for a key already present: the position is kept. */
  function Assign(d: Dict, k: string, v: Json): (r: Dict)
    ensures |r| == |d|
  {
    if d == [] then []
    else if d[0].key == k then [Entry(k, v)] + d[1..]
    else [d[0]] + Assign(d[1..], k, v)
  }

  const DEFAULT_TAGS := {"p", "br", "strong", "em", "u", "s", "a", "ul", "ol", "li",
                         "h1", "h2", "h3", "h4", "h5", "h6", "blockquote", "code", "pre"}

  /** The document after cleaning the fields of a schema in order. */
  function Sanitize(lib: Library, schema: Schema, d: Dict): Dict
    decreases schema, 0
  {
    if schema == [] then d
    else Sanitize(lib, schema[1..], SanitizeField(lib, schema[0], d))
  }

  function SanitizeField(lib: Library, f: Field, d: Dict): Dict
    decreases f, 1
  {
    if f.Incomplete? then d
    else Assign(d, f.key, Cleaned(lib, f, Lookup(d, f.key).GetOr(Null)))
  }

  /** A field's value after cleaning; a value of any other shape is left alone. */
  function Cleaned(lib: Library, f: Field, v: Json): Json
    requires f.Field?
    decreases f, 0
  {
    if f.kind == RichText && v.Str? then Str(lib.clean(AllowedTags(f), v.s))
    else if f.kind == Repeater && v.Arr? && f.item.ItemSchema? then
      Arr(CleanedItems(lib, f.item.fields, v.items))
    else v
  }

  function AllowedTags(f: Field): set<string>
    requires f.Field?
  {
    if f.tags.Given? then f.tags.value else DEFAULT_TAGS
  }

  function CleanedItems(lib: Library, schema: Schema, items: seq<Json>): (r: seq<Json>)
    ensures |r| == |items|
    decreases schema, 1
  {
    seq(|items|, i requires 0 <= i < |items| =>
      if items[i].Obj? then Obj(Sanitize(lib, schema, items[i].entries)) else items[i])
  }

  /** Cleaning this document uses no malformed part of the schema. */
  predicate Cleanable(schema: Schema, d: Dict)
    decreases schema
  {
    forall f <- schema :: FieldCleanable(f, d)
  }

  predicate FieldCleanable(f: Field, d: Dict)
    decreases f, 1
  {
    f.Field? && ValueCleanable(f, Lookup(d, f.key).GetOr(Null))
  }

  predicate ValueCleanable(f: Field, v: Json)
    requires f.Field?
    decreases f, 0
  {
    && (f.kind == RichText && v.Str? ==> !f.tags.Malformed?)
    && (f.kind == Repeater && v.Arr? && f.item.ItemSchema? ==>
          forall item <- v.items :: item.Obj? ==> Cleanable(f.item.fields, item.entries))
  }

  /**
   * The copy is overwritten field by field, and list items are cleaned recursively. What
   * has been overwritten on the way never decides whether a later field raises.
   */
  method SanitizeContent(lib: Library, schema: Schema, content: Dict) returns (r: Result<Dict, Raised>)
    ensures r == if Cleanable(schema, content) then Ok(Sanitize(lib, schema, content)) else Fail(MalformedSchema)
    decreases schema, 1
  {
    var sanitized := content;
    assert schema[0..] == schema;
    for i := 0 to |schema|
      invariant Sanitize(lib, schema[i..], sanitized) == Sanitize(lib, schema, content)
      invariant forall g <- schema :: FieldCleanable(g, sanitized) <==> FieldCleanable(g, content)
      invariant forall g <- schema[..i] :: FieldCleanable(g, content)
    {
      var f := schema[i];
      assert schema[i..][1..] == schema[i + 1..];
      assert schema[..i + 1] == schema[..i] + [f];
      assert f in schema;
      if f.Incomplete? {
        assert !FieldCleanable(f, content);
        return Fail(MalformedSchema);
      }
      var value := Lookup(sanitized, f.key).GetOr(Null);
      var cleaned := CleanValue(lib, f, value);
      if cleaned.Fail? {
        return Fail(cleaned.error);
      }
      forall g | g in schema
        ensures FieldCleanable(g, SanitizeField(lib, f, sanitized)) <==> FieldCleanable(g, sanitized)
      {
        CleanableAfterField(lib, g, f, sanitized);
      }
      if cleaned.value == value {
        AssignSame(sanitized, f.key, value);
      } else {
        sanitized := Assign(sanitized, f.key, cleaned.value);
      }
    }
    assert schema[..|schema|] == schema;
    return Ok(sanitized);
  }

  method CleanValue(lib: Library, f: Field, value: Json) returns (r: Result<Json, Raised>)
    requires f.Field?
    ensures r == if ValueCleanable(f, value) then Ok(Cleaned(lib, f, value)) else Fail(MalformedSchema)
    decreases f, 0
  {
    if f.kind == RichText && value.Str? {
      if f.tags.Malformed? {
        return Fail(MalformedSchema);
      }
      return Ok(Str(lib.clean(AllowedTags(f), value.s)));
    }
    if f.kind == Repeater && value.Arr? && f.item.ItemSchema? {
      var items := value.items;
      for j := 0 to |items|
        invariant |items| == |value.items|
        invariant forall k :: 0 <= k < j ==> items[k] == CleanedItems(lib, f.item.fields, value.items)[k]
        invariant forall k :: j <= k < |items| ==> items[k] == value.items[k]
        invariant forall k :: 0 <= k < j && value.items[k].Obj? ==> Cleanable(f.item.fields, value.items[k].entries)
      {
        if items[j].Obj? {
          assert value.items[j] in value.items;
          var cleaned := SanitizeContent(lib, f.item.fields, items[j].entries);
          if cleaned.Fail? {
            return Fail(cleaned.error);
          }
          items := items[j := Obj(cleaned.value)];
        }
      }
      assert items == CleanedItems(lib, f.item.fields, value.items);
      return Ok(Arr(items));
    }
    return Ok(value);
  }

  /** Cleaning one field keeps every value's shape, so it decides nothing about another field. */
  lemma {:induction false} CleanableAfterField(lib: Library, g: Field, f: Field, d: Dict)
    ensures FieldCleanable(g, SanitizeField(lib, f, d)) <==> FieldCleanable(g, d)
    decreases f, 1
  {
    if f.Field? && g.Field? {
      var v := Lookup(d, f.key).GetOr(Null);
      AssignLookup(d, f.key, Cleaned(lib, f, v), g.key);
      if f.key == g.key {
        CleanableAfterCleaned(lib, g, f, v);
      }
    }
  }

  lemma {:induction false} CleanableAfterCleaned(lib: Library, g: Field, f: Field, v: Json)
    requires f.Field? && g.Field?
    ensures ValueCleanable(g, Cleaned(lib, f, v)) <==> ValueCleanable(g, v)
    decreases f, 0
  {
    if f.kind == Repeater && v.Arr? && f.item.ItemSchema? && g.item.ItemSchema? {
      var old_, new_ := v.items, CleanedItems(lib, f.item.fields, v.items);
      forall i | 0 <= i < |old_| && old_[i].Obj?
        ensures Cleanable(g.item.fields, new_[i].entries) <==> Cleanable(g.item.fields, old_[i].entries)
        ensures old_[i] in old_ && new_[i] in new_
      {
        forall h | h in g.item.fields
          ensures FieldCleanable(h, new_[i].entries) <==> FieldCleanable(h, old_[i].entries)
        {
          CleanableAfterAll(lib, h, f.item.fields, old_[i].entries);
        }
      }
    }
  }

  lemma {:induction false} CleanableAfterAll(lib: Library, g: Field, schema: Schema, d: Dict)
    ensures FieldCleanable(g, Sanitize(lib, schema, d)) <==> FieldCleanable(g, d)
    decreases schema, 0
  {
    if schema != [] {
      CleanableAfterField(lib, g, schema[0], d);
      CleanableAfterAll(lib, g, schema[1..], SanitizeField(lib, schema[0], d));
    }
  }

  /** Every field is complete, and rich text fields have usable tags, through item schemas. */
  predicate TagsWellTyped(schema: Schema)
    decreases schema
  {
    forall f <- schema :: f.Field? && FieldTagsWellTyped(f)
  }

  predicate FieldTagsWellTyped(f: Field)
    requires f.Field?
    decreases f
  {
    && (f.kind == RichText ==> !f.tags.Malformed?)
    && (f.kind == Repeater && f.item.ItemSchema? ==> TagsWellTyped(f.item.fields))
  }

  lemma {:induction false} WellTypedIsCleanable(schema: Schema, d: Dict)
    requires TagsWellTyped(schema)
    ensures Cleanable(schema, d)
    decreases schema
  {
    forall f | f in schema ensures FieldCleanable(f, d) {
      var v := Lookup(d, f.key).GetOr(Null);
      if f.kind == Repeater && v.Arr? && f.item.ItemSchema? {
        forall item | item in v.items && item.Obj? ensures Cleanable(f.item.fields, item.entries) {
          WellTypedIsCleanable(f.item.fields, item.entries);
        }
      }
    }
  }

  lemma {:induction false} IllTypedTagsRaise(schema: Schema) returns (d: Dict)
    requires !TagsWellTyped(schema)
    ensures !Cleanable(schema, d)
    decreases schema
  {
    var f :| f in schema && !(f.Field? && FieldTagsWellTyped(f));
    if f.Incomplete? {
      d := [];
    } else if f.kind == RichText {
      d := [Entry(f.key, Str("x"))];
    } else {
      var inner := IllTypedTagsRaise(f.item.fields);
      d := [Entry(f.key, Arr([Obj(inner)]))];
      assert Obj(inner) in [Obj(inner)];
    }
    if f.Field? {
      assert Lookup(d, f.key) == Some(d[0].val);
    }
    assert !FieldCleanable(f, d);
  }

  /** Cleaning raises on no document at all if and only if the schema is well typed for it. */
  lemma NeverRaisesIffTagsWellTyped(schema: Schema)
    ensures (forall d: Dict :: Cleanable(schema, d)) <==> TagsWellTyped(schema)
  {
    if TagsWellTyped(schema) {
      forall d: Dict ensures Cleanable(schema, d) {
        WellTypedIsCleanable(schema, d);
      }
    } else {
      var d := IllTypedTagsRaise(schema);
    }
  }

  // ------------------------------------------------------------ assignments

  lemma {:induction false} AssignSame(d: Dict, k: string, v: Json)
    requires Lookup(d, k).GetOr(v) == v
    ensures Assign(d, k, v) == d
  {
    if d != [] && d[0].key != k {
      AssignSame(d[1..], k, v);
      assert d == [d[0]] + d[1..];
    } else if d != [] {
      assert d == [Entry(k, v)] + d[1..];
    }
  }

  lemma {:induction false} AssignKeys(d: Dict, k: string, v: Json)
    ensures Keys(Assign(d, k, v)) == Keys(d)
  {
    if d != [] && d[0].key != k {
      AssignKeys(d[1..], k, v);
      assert Assign(d, k, v)[1..] == Assign(d[1..], k, v);
      assert Keys(d) == [d[0].key] + Keys(d[1..]);
      assert Keys(Assign(d, k, v)) == [d[0].key] + Keys(Assign(d[1..], k, v));
    }
  }

  lemma {:induction false} AssignLookup(d: Dict, k: string, v: Json, other: string)
    ensures Lookup(Assign(d, k, v), other) == if other == k && Lookup(d, k).Some? then Some(v) else Lookup(d, other)
  {
    if d != [] && d[0].key != k {
      AssignLookup(d[1..], k, v, other);
      assert Assign(d, k, v)[1..] == Assign(d[1..], k, v);
    } else if d != [] {
      assert Assign(d, k, v)[1..] == d[1..];
    }
  }

  lemma {:induction false} AssignTwice(d: Dict, k: string, v: Json, w: Json)
    ensures Assign(Assign(d, k, v), k, w) == Assign(d, k, w)
  {
    if d != [] && d[0].key != k {
      AssignTwice(d[1..], k, v, w);
      assert Assign(d, k, v)[1..] == Assign(d[1..], k, v);
    } else if d != [] {
      assert Assign(d, k, v)[1..] == d[1..];
    }
  }

  lemma {:induction false} AssignCommutes(d: Dict, k: string, v: Json, l: string, w: Json)
    requires k != l
    ensures Assign(Assign(d, k, v), l, w) == Assign(Assign(d, l, w), k, v)
  {
    if d != [] {
      AssignCommutes(d[1..], k, v, l, w);
      assert Assign(d, k, v)[1..] == if d[0].key == k then d[1..] else Assign(d[1..], k, v);
      assert Assign(d, l, w)[1..] == if d[0].key == l then d[1..] else Assign(d[1..], l, w);
    }
  }

  lemma {:induction false} AssignKeepsSites(d: Dict, k: string, v: Json, prefix: string)
    requires Lookup(d, k).Some? ==>
      SitesOf(v, FullKey(prefix, k)) == SitesOf(Lookup(d, k).value, FullKey(prefix, k))
    ensures Sites(Assign(d, k, v), prefix) == Sites(d, prefix)
  {
    if d != [] && d[0].key != k {
      AssignKeepsSites(d[1..], k, v, prefix);
      assert Assign(d, k, v)[1..] == Assign(d[1..], k, v);
    } else if d != [] {
      assert Assign(d, k, v)[1..] == d[1..];
    }
  }

  // ------------------------------------------------------- what is preserved

  /** No field of the schema cleans a value of this shape stored under the key. */
  predicate Untouched(schema: Schema, k: string, v: Json) {
    forall f <- schema :: f.Field? && f.key == k ==>
      !(f.kind == RichText && v.Str?) && !(f.kind == Repeater && v.Arr? && f.item.ItemSchema?)
  }

  /** Cleaning keeps the keys and every value that is neither rich text nor a repeater. */
  lemma {:induction false} SanitizeKeepsOtherValues(lib: Library, schema: Schema, d: Dict, k: string)
    ensures Keys(Sanitize(lib, schema, d)) == Keys(d)
    ensures Untouched(schema, k, Lookup(d, k).GetOr(Null)) ==> Lookup(Sanitize(lib, schema, d), k) == Lookup(d, k)
  {
    if schema != [] {
      var f := schema[0];
      if f.Field? {
        AssignKeys(d, f.key, Cleaned(lib, f, Lookup(d, f.key).GetOr(Null)));
        AssignLookup(d, f.key, Cleaned(lib, f, Lookup(d, f.key).GetOr(Null)), k);
      }
      SanitizeKeepsOtherValues(lib, schema[1..], SanitizeField(lib, f, d), k);
    }
  }

  /** The media walk collects the same sites, with the same paths, before and after. */
  lemma {:induction false} SanitizeKeepsSites(lib: Library, schema: Schema, d: Dict, prefix: string)
    ensures Sites(Sanitize(lib, schema, d), prefix) == Sites(d, prefix)
    decreases schema, 0
  {
    if schema != [] {
      var f := schema[0];
      if f.Field? {
        var v := Lookup(d, f.key).GetOr(Null);
        var full := FullKey(prefix, f.key);
        if f.kind == Repeater && v.Arr? && f.item.ItemSchema? {
          ItemsKeepSites(lib, f.item.fields, v.items, full, 0);
        }
        assert SitesOf(Cleaned(lib, f, v), full) == SitesOf(v, full);
        AssignKeepsSites(d, f.key, Cleaned(lib, f, v), prefix);
      }
      SanitizeKeepsSites(lib, schema[1..], SanitizeField(lib, f, d), prefix);
    }
  }

  lemma {:induction false} ItemsKeepSites(lib: Library, schema: Schema, items: seq<Json>, full: string, i: nat)
    ensures ItemSites(CleanedItems(lib, schema, items), full, i) == ItemSites(items, full, i)
    decreases schema, 1, |items|
  {
    if items != [] {
      assert CleanedItems(lib, schema, items)[1..] == CleanedItems(lib, schema, items[1..]);
      ItemsKeepSites(lib, schema, items[1..], full, i + 1);
      if items[0].Obj? {
        SanitizeKeepsSites(lib, schema, items[0].entries, ItemKey(full, i));
      }
    }
  }

  lemma SanitizeKeepsReferences(lib: Library, codec: Codec, schema: Schema, d: Dict)
    ensures Extract(codec, Sanitize(lib, schema, d)) == Extract(codec, d)
  {
    SanitizeKeepsSites(lib, schema, d, "");
  }

  // ------------------------------------------------------------- idempotence

  ghost predicate CleanerSettles(lib: Library) {
    forall tags: set<string>, s: string :: lib.clean(tags, lib.clean(tags, s)) == lib.clean(tags, s)
  }

  /** Field keys are distinct at this level and in every item schema. */
  predicate DeeplyDistinct(schema: Schema)
    decreases schema
  {
    && DistinctKeys(schema)
    && forall f <- schema :: f.Field? && f.item.ItemSchema? ==> DeeplyDistinct(f.item.fields)
  }

  /** Cleaning twice is cleaning once. */
  lemma {:induction false} SanitizeIsIdempotent(lib: Library, schema: Schema, d: Dict)
    requires CleanerSettles(lib) && DeeplyDistinct(schema)
    ensures Sanitize(lib, schema, Sanitize(lib, schema, d)) == Sanitize(lib, schema, d)
    decreases schema, 1
  {
    if schema != [] {
      var f, rest := schema[0], schema[1..];
      var once := SanitizeField(lib, f, d);
      assert schema == [f] + rest && DistinctKeys(rest);
      if f.Field? {
        FieldIsIdempotent(lib, f, d);
        forall g | g in rest ensures !SameKey(f, g) {
          var i :| 0 < i < |schema| && schema[i] == g;
        }
        FieldCommutes(lib, f, rest, once);
      }
      SanitizeIsIdempotent(lib, rest, once);
    }
  }

  lemma {:induction false} FieldIsIdempotent(lib: Library, f: Field, d: Dict)
    requires CleanerSettles(lib)
    requires f.Field? && (f.item.ItemSchema? ==> DeeplyDistinct(f.item.fields))
    ensures SanitizeField(lib, f, SanitizeField(lib, f, d)) == SanitizeField(lib, f, d)
    decreases f
  {
    var v := Lookup(d, f.key).GetOr(Null);
    var c := Cleaned(lib, f, v);
    if f.kind == Repeater && v.Arr? && f.item.ItemSchema? {
      var schema := f.item.fields;
      var items := CleanedItems(lib, schema, v.items);
      forall i | 0 <= i < |items|
        ensures CleanedItems(lib, schema, items)[i] == items[i]
      {
        if v.items[i].Obj? {
          assert items[i] == Obj(Sanitize(lib, schema, v.items[i].entries));
          SanitizeIsIdempotent(lib, schema, v.items[i].entries);
        }
      }
      assert CleanedItems(lib, schema, items) == items;
    }
    assert Cleaned(lib, f, c) == c;
    AssignLookup(d, f.key, c, f.key);
    AssignSame(SanitizeField(lib, f, d), f.key, Cleaned(lib, f, Lookup(SanitizeField(lib, f, d), f.key).GetOr(Null)));
  }

  lemma {:induction false} FieldCommutes(lib: Library, f: Field, schema: Schema, d: Dict)
    requires f.Field? && forall g <- schema :: !SameKey(f, g)
    ensures SanitizeField(lib, f, Sanitize(lib, schema, d)) == Sanitize(lib, schema, SanitizeField(lib, f, d))
  {
    if schema != [] {
      var g := schema[0];
      if g.Field? {
        assert !SameKey(f, g);
        var a, b := Cleaned(lib, f, Lookup(d, f.key).GetOr(Null)), Cleaned(lib, g, Lookup(d, g.key).GetOr(Null));
        AssignLookup(d, f.key, a, g.key);
        AssignLookup(d, g.key, b, f.key);
        AssignCommutes(d, f.key, a, g.key, b);
      }
      FieldCommutes(lib, f, schema[1..], SanitizeField(lib, g, d));
    }
  }

  // ------------------------------------- idempotence, key by key and exactly

  /** What the fields of a schema that share a key do to its value, in order. */
  function Composite(lib: Library, schema: Schema, k: string, v: Json): Json {
    if schema == [] then v
    else Composite(lib, schema[1..], k,
                   if schema[0].Field? && schema[0].key == k then Cleaned(lib, schema[0], v) else v)
  }

  function Without(schema: Schema, k: string): Schema {
    if schema == [] then []
    else (if schema[0].Field? && schema[0].key == k then [] else [schema[0]]) + Without(schema[1..], k)
  }

  ghost predicate Settles(lib: Library, schema: Schema) {
    forall k: string, v: Json ::
      Composite(lib, schema, k, Composite(lib, schema, k, v)) == Composite(lib, schema, k, v)
  }

  lemma {:induction false} CompositeWithout(lib: Library, schema: Schema, k: string, j: string, v: Json)
    ensures Composite(lib, Without(schema, k), j, v) == if j == k then v else Composite(lib, schema, j, v)
  {
    if schema != [] {
      var f := schema[0];
      var mid := if f.Field? && f.key == j then Cleaned(lib, f, v) else v;
      if f.Field? && f.key == k {
        CompositeWithout(lib, schema[1..], k, j, v);
        assert Without(schema, k) == Without(schema[1..], k);
      } else {
        CompositeWithout(lib, schema[1..], k, j, mid);
        assert Without(schema, k)[0] == f && Without(schema, k)[1..] == Without(schema[1..], k);
      }
    }
  }

  /** Cleaning entry by entry: the first entry by its key's fields, the rest by the others. */
  lemma {:induction false} SanitizeFirstEntry(lib: Library, schema: Schema, e: Entry, rest: Dict)
    ensures Sanitize(lib, schema, [e] + rest)
            == [Entry(e.key, Composite(lib, schema, e.key, e.val))] + Sanitize(lib, Without(schema, e.key), rest)
  {
    if schema != [] {
      var f := schema[0];
      assert ([e] + rest)[1..] == rest;
      if f.Field? && f.key == e.key {
        var once := Entry(e.key, Cleaned(lib, f, e.val));
        assert SanitizeField(lib, f, [e] + rest) == [once] + rest;
        SanitizeFirstEntry(lib, schema[1..], once, rest);
        assert Without(schema, e.key) == Without(schema[1..], e.key);
      } else {
        assert SanitizeField(lib, f, [e] + rest) == [e] + SanitizeField(lib, f, rest);
        SanitizeFirstEntry(lib, schema[1..], e, SanitizeField(lib, f, rest));
        assert Without(schema, e.key)[0] == f && Without(schema, e.key)[1..] == Without(schema[1..], e.key);
      }
    }
  }

  lemma {:induction false} NothingToClean(lib: Library, schema: Schema)
    ensures Sanitize(lib, schema, []) == []
  {
    if schema != [] {
      NothingToClean(lib, schema[1..]);
    }
  }

  lemma {:induction false} SettledIsIdempotent(lib: Library, schema: Schema, d: Dict)
    requires Settles(lib, schema)
    ensures Sanitize(lib, schema, Sanitize(lib, schema, d)) == Sanitize(lib, schema, d)
    decreases |d|
  {
    NothingToClean(lib, schema);
    if d != [] {
      var e, rest, others := d[0], d[1..], Without(schema, d[0].key);
      var once := Entry(e.key, Composite(lib, schema, e.key, e.val));
      assert d == [e] + rest;
      SanitizeFirstEntry(lib, schema, e, rest);
      SanitizeFirstEntry(lib, schema, once, Sanitize(lib, others, rest));
      forall k: string, v: Json
        ensures Composite(lib, others, k, Composite(lib, others, k, v)) == Composite(lib, others, k, v)
      {
        CompositeWithout(lib, schema, e.key, k, v);
        CompositeWithout(lib, schema, e.key, k, Composite(lib, others, k, v));
      }
      SettledIsIdempotent(lib, others, rest);
    }
  }

  /**
   * Cleaning is idempotent on every document if and only if, for each key, what its fields
   * do to a value in a row is idempotent. No assumption on keys, kinds or the cleaner.
   */
  lemma IdempotentIffSettles(lib: Library, schema: Schema)
    ensures (forall d: Dict :: Sanitize(lib, schema, Sanitize(lib, schema, d)) == Sanitize(lib, schema, d))
            <==> Settles(lib, schema)
  {
    if Settles(lib, schema) {
      forall d: Dict ensures Sanitize(lib, schema, Sanitize(lib, schema, d)) == Sanitize(lib, schema, d) {
        SettledIsIdempotent(lib, schema, d);
      }
    } else {
      var k: string, v: Json :|
        Composite(lib, schema, k, Composite(lib, schema, k, v)) != Composite(lib, schema, k, v);
      OneEntry(lib, schema, k, v);
      OneEntry(lib, schema, k, Composite(lib, schema, k, v));
      var d := [Entry(k, v)];
      assert Sanitize(lib, schema, Sanitize(lib, schema, d))[0] != Sanitize(lib, schema, d)[0];
    }
  }

  lemma OneEntry(lib: Library, schema: Schema, k: string, v: Json)
    ensures Sanitize(lib, schema, [Entry(k, v)]) == [Entry(k, Composite(lib, schema, k, v))]
  {
    SanitizeFirstEntry(lib, schema, Entry(k, v), []);
    NothingToClean(lib, Without(schema, k));
    assert [Entry(k, v)] + [] == [Entry(k, v)];
  }

  /**
   * Distinct keys cannot be dropped for an arbitrary cleaner: the structural check looks for
   * repeated keys at the top level only, and there is a settling cleaner that does not
   * settle when two fields of an item schema share a key.
   */
  lemma RepeatedItemKeyNeedNotSettle(rules: Rules)
    requires rules.pattern.Absent?
    ensures
      var clean := (tags: set<string>, s: string) =>
        if tags == {"b"} then (if s == "x" then "y" else if s == "z" then "w" else s)
        else (if s == "y" then "z" else if s == "w" then "v" else s);
      var lib := Library(clean, s => s, (p, s) => Matched, p => true, p => false, (a, b) => a == b);
      var inner := [Field("t", RichText, false, rules, Given({"b"}), NoItemSchema),
                    Field("t", RichText, false, rules, Given({"i"}), NoItemSchema)];
      var schema := [Field("rows", Repeater, false, rules, Absent, ItemSchema(inner))];
      var d := [Entry("rows", Arr([Obj([Entry("t", Str("x"))])]))];
      && CleanerSettles(lib)
      && Accepted(lib, Fields(schema))
      && Sanitize(lib, schema, Sanitize(lib, schema, d)) != Sanitize(lib, schema, d)
  {
    var clean := (tags: set<string>, s: string) =>
      if tags == {"b"} then (if s == "x" then "y" else if s == "z" then "w" else s)
      else (if s == "y" then "z" else if s == "w" then "v" else s);
    var lib := Library(clean, s => s, (p, s) => Matched, p => true, p => false, (a, b) => a == b);
    var f1 := Field("t", RichText, false, rules, Given({"b"}), NoItemSchema);
    var f2 := Field("t", RichText, false, rules, Given({"i"}), NoItemSchema);
    var f := Field("rows", Repeater, false, rules, Absent, ItemSchema([f1, f2]));
    assert "x"[0] == 'x' && "y"[0] == 'y' && "z"[0] == 'z' && "w"[0] == 'w' && "v"[0] == 'v';
    assert "i" in {"i"} && "i"[0] != "b"[0];
    TwoPasses(lib, f1, f2, "x", "z");
    TwoPasses(lib, f1, f2, "z", "v");
    OneRow(lib, f, [Entry("t", Str("x"))], [Entry("t", Str("z"))]);
    OneRow(lib, f, [Entry("t", Str("z"))], [Entry("t", Str("v"))]);
    assert Accepted(lib, Fields([f]));
  }

  lemma TwoPasses(lib: Library, f1: Field, f2: Field, s: string, t: string)
    requires f1.Field? && f2.Field? && f1.key == "t" && f2.key == "t" && f1.kind == RichText && f2.kind == RichText
    requires lib.clean(AllowedTags(f2), lib.clean(AllowedTags(f1), s)) == t
    ensures Sanitize(lib, [f1, f2], [Entry("t", Str(s))]) == [Entry("t", Str(t))]
  {
    var mid := lib.clean(AllowedTags(f1), s);
    assert SanitizeField(lib, f1, [Entry("t", Str(s))]) == [Entry("t", Str(mid))];
    assert SanitizeField(lib, f2, [Entry("t", Str(mid))]) == [Entry("t", Str(t))];
    assert [f1, f2][1..] == [f2] && [f2][1..] == [];
    assert Sanitize(lib, [f2], [Entry("t", Str(mid))]) == [Entry("t", Str(t))];
  }

  lemma OneRow(lib: Library, f: Field, row: Dict, row': Dict)
    requires f.Field? && f.kind == Repeater && f.item.ItemSchema? && f.key == "rows"
    requires Sanitize(lib, f.item.fields, row) == row'
    ensures Sanitize(lib, [f], [Entry("rows", Arr([Obj(row)]))]) == [Entry("rows", Arr([Obj(row')]))]
  {
    var d := [Entry("rows", Arr([Obj(row)]))];
    assert CleanedItems(lib, f.item.fields, [Obj(row)]) == [Obj(row')];
    assert SanitizeField(lib, f, d) == [Entry("rows", Arr([Obj(row')]))];
    assert [f][1..] == [];
  }
}
