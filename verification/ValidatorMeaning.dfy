// What validation reports, told kind by kind from the rules and the value alone.

module ValidatorMeaning {
  import opened Wrappers
  import opened JsonTree
  import opened MediaRefs
  import opened Schemas
  import opened Validator

  predicate Over(n: real, limit: Rule<real>) {
    limit.Given? && n > limit.value
  }

  predicate Under(n: real, limit: Rule<real>) {
    limit.Given? && n < limit.value
  }

  function One(reported: bool, key: string, kind: IssueKind): seq<Issue> {
    if reported then [Issue(key, kind)] else []
  }

  function Flat<T>(parts: seq<seq<T>>): seq<T> {
    if parts == [] then [] else parts[0] + Flat(parts[1..])
  }

  /** There are choices, and the value is the same as none of them. */
  predicate OffList(lib: Library, choices: Rule<seq<Json>>, v: Json) {
    choices.Given? && choices.value != [] && forall c <- choices.value :: !lib.same(v, c)
  }

  predicate PatternSays(lib: Library, pattern: Rule<string>, s: string, m: Match) {
    pattern.Given? && lib.match_(pattern.value, s) == m
  }

  ghost predicate TextMeaning(lib: Library, f: Field, v: Json, r: Verdict)
    requires f.Field?
  {
    var rules := f.rules;
    if !v.Str? then r == Ok([Issue(f.key, TypeError)])
    else if rules.maxLength.Malformed? || rules.minLength.Malformed? || rules.pattern.Malformed? then
      r == Fail(MalformedSchema)
    else
      r == Ok(One(Over(|v.s| as real, rules.maxLength), f.key, TooLong)
              + One(Under(|v.s| as real, rules.minLength), f.key, TooShort)
              + if PatternSays(lib, rules.pattern, v.s, Unmatched) then [Issue(f.key, PatternMismatch)]
                else One(PatternSays(lib, rules.pattern, v.s, Broken), f.key, PatternError))
  }

  /** Rich text is measured without its markup. */
  ghost predicate RichTextMeaning(lib: Library, f: Field, v: Json, r: Verdict)
    requires f.Field?
  {
    if !v.Str? then r == Ok([Issue(f.key, TypeError)])
    else if f.rules.maxLength.Malformed? then r == Fail(MalformedSchema)
    else r == Ok(One(Over(|lib.plain(v.s)| as real, f.rules.maxLength), f.key, TooLong))
  }

  ghost predicate NumberMeaning(f: Field, v: Json, r: Verdict)
    requires f.Field?
  {
    if !v.Num? && !v.Bool? then r == Ok([Issue(f.key, TypeError)])
    else if f.rules.min.Malformed? || f.rules.max.Malformed? then r == Fail(MalformedSchema)
    else
      var n := if v.Num? then v.n else if v.b then 1.0 else 0.0;
      r == Ok(One(Under(n, f.rules.min), f.key, BelowMin) + One(Over(n, f.rules.max), f.key, AboveMax))
  }

  ghost predicate SelectMeaning(lib: Library, f: Field, v: Json, r: Verdict)
    requires f.Field?
  {
    if f.rules.choices.Malformed? then r == Fail(MalformedSchema)
    else r == Ok(One(OffList(lib, f.rules.choices, v), f.key, InvalidChoice))
  }

  /** One issue for each item off the list, then the two limits on how many are selected. */
  ghost predicate MultiSelectMeaning(lib: Library, f: Field, v: Json, r: Verdict)
    requires f.Field?
  {
    var rules := f.rules;
    if !v.Arr? then r == Ok([Issue(f.key, TypeError)])
    else if rules.choices.Malformed? || rules.minSelected.Malformed? || rules.maxSelected.Malformed? then
      r == Fail(MalformedSchema)
    else
      var picks := seq(|v.items|, i requires 0 <= i < |v.items| =>
                         One(OffList(lib, rules.choices, v.items[i]), f.key, InvalidChoice));
      r == Ok(Flat(picks)
              + One(Under(|v.items| as real, rules.minSelected), f.key, TooFewSelected)
              + One(Over(|v.items| as real, rules.maxSelected), f.key, TooManySelected))
  }

  /** The file is asked for in strict mode only. */
  ghost predicate MediaMeaning(media: Json -> MediaState, f: Field, v: Json, strict: bool, r: Verdict)
    requires f.Field?
  {
    if !v.Obj? || Lookup(v.entries, "media_id").None? then r == Ok([Issue(f.key, TypeError)])
    else
      var state := media(Lookup(v.entries, "media_id").value);
      if strict && state == NotAKey then r == Fail(InvalidMediaKey)
      else if strict && state == Tombstoned then r == Ok([Issue(f.key, MediaTombstoned)])
      else r == Ok(One(strict && state == Missing, f.key, MediaNotFound))
  }

  /** The issues of list item `i`, if it is an object, under the item's path. */
  function Nested(lib: Library, media: Json -> MediaState, key: string, schema: Schema, item: Json, i: nat,
                  strict: bool): seq<Issue>
  {
    if !item.Obj? then []
    else
      match Validate(lib, media, schema, item.entries, strict)
      case Fail(_) => []
      case Ok(sub) =>
        seq(|sub|, k requires 0 <= k < |sub| => Issue(key + "[" + Decimal(i) + "]" + "." + sub[k].key, sub[k].kind))
  }

  function NestedFrom(lib: Library, media: Json -> MediaState, key: string, schema: Schema, items: seq<Json>, n: nat,
                      strict: bool): seq<seq<Issue>>
  {
    seq(|items|, i requires 0 <= i < |items| => Nested(lib, media, key, schema, items[i], n + i, strict))
  }

  ghost predicate ItemRaises(lib: Library, media: Json -> MediaState, schema: Schema, items: seq<Json>, strict: bool,
                             raised: Raised)
  {
    exists item <- items :: item.Obj? && Validate(lib, media, schema, item.entries, strict) == Fail(raised)
  }

  /** The two limits on how many items there are, then the issues of the items, one item after the other. */
  ghost predicate RepeaterMeaning(lib: Library, media: Json -> MediaState, f: Field, v: Json, strict: bool, r: Verdict)
    requires f.Field?
  {
    if !v.Arr? then r == Ok([Issue(f.key, TypeError)])
    else if f.rules.minItems.Malformed? || f.rules.maxItems.Malformed? then r == Fail(MalformedSchema)
    else
      var sizes := One(Under(|v.items| as real, f.rules.minItems), f.key, TooFewItems)
                   + One(Over(|v.items| as real, f.rules.maxItems), f.key, TooManyItems);
      if f.item.NoItemSchema? then r == Ok(sizes)
      else
        match r
        case Fail(raised) => ItemRaises(lib, media, f.item.fields, v.items, strict, raised)
        case Ok(issues) =>
          && (forall raised :: !ItemRaises(lib, media, f.item.fields, v.items, strict, raised))
          && issues == sizes + Flat(NestedFrom(lib, media, f.key, f.item.fields, v.items, 0, strict))
  }

  /** What is reported for a value, by the kind of its field; the other kinds accept any value. */
  ghost predicate Meaning(lib: Library, media: Json -> MediaState, f: Field, v: Json, strict: bool, r: Verdict)
    requires f.Field?
  {
    match f.kind
    case Text | TextArea => TextMeaning(lib, f, v, r)
    case RichText => RichTextMeaning(lib, f, v, r)
    case Number => NumberMeaning(f, v, r)
    case Boolean => r == Ok(One(!v.Bool?, f.key, TypeError))
    case Select => SelectMeaning(lib, f, v, r)
    case MultiSelect => MultiSelectMeaning(lib, f, v, r)
    case Media => MediaMeaning(media, f, v, strict, r)
    case Repeater => RepeaterMeaning(lib, media, f, v, strict, r)
    case Url | Email | Date | DateTime | List | Relation | JsonValue | Color | Icon | Unknown(_) => r == Ok([])
  }

  lemma {:induction false} PicksAreFlat(lib: Library, f: Field, choices: seq<Json>, values: seq<Json>)
    requires f.Field? && f.rules.choices == Given(choices)
    ensures (if choices == [] then [] else ChoiceIssues(lib, f.key, choices, values))
            == Flat(seq(|values|, i requires 0 <= i < |values| =>
                          One(OffList(lib, f.rules.choices, values[i]), f.key, InvalidChoice)))
  {
    if values != [] {
      var parts := seq(|values|, i requires 0 <= i < |values| =>
                         One(OffList(lib, f.rules.choices, values[i]), f.key, InvalidChoice));
      var rest := values[1..];
      PicksAreFlat(lib, f, choices, rest);
      assert parts[1..] == seq(|rest|, i requires 0 <= i < |rest| =>
                                 One(OffList(lib, f.rules.choices, rest[i]), f.key, InvalidChoice));
    }
  }

  lemma {:induction false} NothingIsFlat<T>(parts: seq<seq<T>>)
    requires forall i :: 0 <= i < |parts| ==> parts[i] == []
    ensures Flat(parts) == []
  {
    if parts != [] {
      NothingIsFlat(parts[1..]);
    }
  }

  lemma MultiSelectMeans(lib: Library, f: Field, v: Json)
    requires f.Field?
    ensures MultiSelectMeaning(lib, f, v, SelectionVerdict(lib, f, v))
  {
    if v.Arr? && f.rules.choices.Given? {
      PicksAreFlat(lib, f, f.rules.choices.value, v.items);
    } else if v.Arr? && f.rules.choices.Absent? {
      NothingIsFlat(seq(|v.items|, i requires 0 <= i < |v.items| =>
                          One(OffList(lib, f.rules.choices, v.items[i]), f.key, InvalidChoice)));
    }
  }

  lemma ItemIsNested(lib: Library, media: Json -> MediaState, key: string, schema: Schema, item: Json, i: nat,
                     strict: bool)
    ensures
      var r := ItemVerdict(lib, media, key, schema, item, i, strict);
      match r
      case Ok(issues) => issues == Nested(lib, media, key, schema, item, i, strict)
      case Fail(raised) => item.Obj? && Validate(lib, media, schema, item.entries, strict) == Fail(raised)
  {
    if item.Obj? {
      var sub := Validate(lib, media, schema, item.entries, strict);
      if sub.Ok? {
        var prefix := key + "[" + Decimal(i) + "]" + ".";
        assert ItemPrefix(key, i) == prefix;
        assert forall k :: 0 <= k < |sub.value| ==>
          Prefixed(sub.value, prefix)[k] == Issue(prefix + sub.value[k].key, sub.value[k].kind);
      }
    }
  }

  lemma RaisesFirst(lib: Library, media: Json -> MediaState, schema: Schema, items: seq<Json>, strict: bool,
                    raised: Raised)
    requires items != []
    ensures ItemRaises(lib, media, schema, items, strict, raised)
            <==> || (items[0].Obj? && Validate(lib, media, schema, items[0].entries, strict) == Fail(raised))
                 || ItemRaises(lib, media, schema, items[1..], strict, raised)
  {
    assert items == [items[0]] + items[1..];
    assert forall item :: item in items <==> item == items[0] || item in items[1..];
  }

  lemma {:induction false} ItemsAreFlat(lib: Library, media: Json -> MediaState, key: string, schema: Schema,
                                        items: seq<Json>, n: nat, strict: bool)
    ensures
      match ItemsVerdict(lib, media, key, schema, items, n, strict)
      case Fail(raised) => ItemRaises(lib, media, schema, items, strict, raised)
      case Ok(issues) =>
        && (forall raised :: !ItemRaises(lib, media, schema, items, strict, raised))
        && issues == Flat(NestedFrom(lib, media, key, schema, items, n, strict))
    decreases |items|
  {
    if items != [] {
      var rest := items[1..];
      ItemIsNested(lib, media, key, schema, items[0], n, strict);
      ItemsAreFlat(lib, media, key, schema, rest, n + 1, strict);
      forall raised ensures ItemRaises(lib, media, schema, items, strict, raised)
            <==> || (items[0].Obj? && Validate(lib, media, schema, items[0].entries, strict) == Fail(raised))
                 || ItemRaises(lib, media, schema, rest, strict, raised)
      {
        RaisesFirst(lib, media, schema, items, strict, raised);
      }
      assert NestedFrom(lib, media, key, schema, items, n, strict)[1..]
          == NestedFrom(lib, media, key, schema, rest, n + 1, strict);
    }
  }

  lemma RepeaterMeans(lib: Library, media: Json -> MediaState, f: Field, v: Json, strict: bool)
    requires f.Field? && f.kind == Repeater
    ensures RepeaterMeaning(lib, media, f, v, strict, ValueVerdict(lib, media, f, v, strict))
  {
    if v.Arr? {
      var sizes := One(Under(|v.items| as real, f.rules.minItems), f.key, TooFewItems)
                   + One(Over(|v.items| as real, f.rules.maxItems), f.key, TooManyItems);
      assert sizes + [] == sizes;
      if f.item.ItemSchema? {
        ItemsAreFlat(lib, media, f.key, f.item.fields, v.items, 0, strict);
      }
    }
  }

  lemma TextMeans(lib: Library, f: Field, v: Json)
    requires f.Field?
    ensures TextMeaning(lib, f, v, TextVerdict(lib, f, v))
  {
  }

  lemma NumberMeans(f: Field, v: Json)
    requires f.Field?
    ensures NumberMeaning(f, v, NumberVerdict(f, v))
  {
  }

  /** Select holds values against the choices one by one. */
  lemma SimpleValueMeans(lib: Library, media: Json -> MediaState, f: Field, v: Json, strict: bool)
    requires f.Field? && (f.kind == RichText || f.kind == Select || f.kind == Media)
    ensures Meaning(lib, media, f, v, strict, ValueVerdict(lib, media, f, v, strict))
  {
  }

  /** Every value of every kind gets exactly these issues, in this order. */
  lemma ValueMeans(lib: Library, media: Json -> MediaState, f: Field, v: Json, strict: bool)
    requires f.Field?
    ensures Meaning(lib, media, f, v, strict, ValueVerdict(lib, media, f, v, strict))
  {
    match f.kind {
      case Text | TextArea => TextMeans(lib, f, v);
      case Number => NumberMeans(f, v);
      case MultiSelect => MultiSelectMeans(lib, f, v);
      case Repeater => RepeaterMeans(lib, media, f, v, strict);
      case RichText | Select | Media => SimpleValueMeans(lib, media, f, v, strict);
      case _ =>
    }
  }

  /**
   * A required field without content is reported in strict mode, and any other field
   * without content is passed over. An empty list counts as no content for the first only.
   */
  ghost predicate FieldMeaning(lib: Library, media: Json -> MediaState, f: Field, content: Dict, strict: bool,
                               r: Verdict)
  {
    if f.Incomplete? then r == Fail(MalformedSchema)
    else
      match Lookup(content, f.key)
      case None => r == Ok(One(strict && f.required, f.key, RequiredFieldEmpty))
      case Some(v) =>
        if v == Null || v == Str("") || (v == Arr([]) && f.required) then
          r == Ok(One(strict && f.required, f.key, RequiredFieldEmpty))
        else Meaning(lib, media, f, v, strict, r)
  }

  lemma FieldMeans(lib: Library, media: Json -> MediaState, f: Field, content: Dict, strict: bool)
    ensures FieldMeaning(lib, media, f, content, strict, FieldVerdict(lib, media, f, content, strict))
  {
    if f.Field? {
      ValueMeans(lib, media, f, Lookup(content, f.key).GetOr(Null), strict);
    }
  }

  function IssuesOf(r: Verdict): seq<Issue> {
    if r.Ok? then r.value else []
  }

  /** The first failure among the verdicts, or the issues of all of them one after the other. */
  ghost predicate InTurn(verdicts: seq<Verdict>, r: Verdict) {
    match r
    case Fail(raised) =>
      exists i :: 0 <= i < |verdicts| && verdicts[i] == Fail(raised) && forall j :: 0 <= j < i ==> verdicts[j].Ok?
    case Ok(issues) =>
      && (forall i :: 0 <= i < |verdicts| ==> verdicts[i].Ok?)
      && issues == Flat(seq(|verdicts|, i requires 0 <= i < |verdicts| => IssuesOf(verdicts[i])))
  }

  lemma InTurnFirst(first: Verdict, rest: seq<Verdict>, r: Verdict)
    requires InTurn(rest, r)
    ensures InTurn([first] + rest, Cat(first, r))
  {
    var all := [first] + rest;
    if first.Fail? {
      assert all[0] == first;
    } else if r.Fail? {
      var i :| 0 <= i < |rest| && rest[i] == r && forall j :: 0 <= j < i ==> rest[j].Ok?;
      assert all[i + 1] == r && forall j :: 1 <= j < i + 1 ==> all[j] == rest[j - 1];
    } else {
      var parts := seq(|all|, i requires 0 <= i < |all| => IssuesOf(all[i]));
      assert parts[1..] == seq(|rest|, i requires 0 <= i < |rest| => IssuesOf(rest[i]));
      assert forall i :: 1 <= i < |all| ==> all[i] == rest[i - 1];
    }
  }

  /**
   * Each field is judged on its own value, whatever the other fields hold, and the issues
   * are listed field after field; the first field that raises ends it.
   */
  lemma {:induction false} ContentMeans(lib: Library, media: Json -> MediaState, schema: Schema, content: Dict,
                                        strict: bool) returns (verdicts: seq<Verdict>)
    ensures |verdicts| == |schema|
    ensures forall i :: 0 <= i < |schema| ==> FieldMeaning(lib, media, schema[i], content, strict, verdicts[i])
    ensures InTurn(verdicts, Validate(lib, media, schema, content, strict))
    decreases |schema|
  {
    verdicts := [];
    if schema != [] {
      var first := FieldVerdict(lib, media, schema[0], content, strict);
      var rest := ContentMeans(lib, media, schema[1..], content, strict);
      FieldMeans(lib, media, schema[0], content, strict);
      InTurnFirst(first, rest, Validate(lib, media, schema[1..], content, strict));
      verdicts := [first] + rest;
    }
  }
}
