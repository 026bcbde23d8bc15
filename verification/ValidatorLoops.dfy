// The validator as loops: issue lists grown field by field, and the keys of nested
// issues rewritten as they are collected.

module ValidatorLoops {
  import opened Wrappers
  import opened JsonTree
  import opened Schemas
  import opened Validator
  import opened ValidatorMeaning

  lemma CatAssociates(a: Verdict, b: Verdict, c: Verdict)
    ensures Cat(Cat(a, b), c) == Cat(a, Cat(b, c))
  {
    if a.Ok? && b.Ok? && c.Ok? {
      assert (a.value + b.value) + c.value == a.value + (b.value + c.value);
    }
  }

  lemma CatUnit(v: Verdict)
    ensures Cat(Ok([]), v) == v && Cat(v, Ok([])) == v
  {
    if v.Ok? {
      assert [] + v.value == v.value && v.value + [] == v.value;
    }
  }

  method ValidateContent(lib: Library, media: Json -> MediaState, schema: Schema, content: Dict, strict: bool)
    returns (r: Verdict)
    ensures r == Validate(lib, media, schema, content, strict)
    decreases schema, 0
  {
    var issues := [];
    assert schema[0..] == schema;
    CatUnit(Validate(lib, media, schema, content, strict));
    for i := 0 to |schema|
      invariant Cat(Ok(issues), Validate(lib, media, schema[i..], content, strict))
                == Validate(lib, media, schema, content, strict)
    {
      assert schema[i..][1..] == schema[i + 1..];
      var f := schema[i];
      if f.Incomplete? {
        return Fail(MalformedSchema);
      }
      ghost var rest := Validate(lib, media, schema[i + 1..], content, strict);
      var value := Lookup(content, f.key).GetOr(Null);
      var found: Verdict := Ok([]);
      if RequiredButEmpty(f, value) {
        if strict {
          found := Ok([Issue(f.key, RequiredFieldEmpty)]);
        }
      } else if !Blank(value) {
        found := ValidateFieldValue(lib, media, f, value, strict);
      }
      CatAssociates(Ok(issues), found, rest);
      if found.Fail? {
        return found;
      }
      issues := issues + found.value;
    }
    CatUnit(Ok(issues));
    return Ok(issues);
  }

  /** The verdict lists an issue of this kind for the field. */
  predicate Reports(r: Verdict, f: Field, kind: IssueKind)
    requires f.Field?
  {
    r.Ok? && Issue(f.key, kind) in r.value
  }

  /** The issues are those of the field's kind, each exactly when its rule is broken. */
  method ValidateFieldValue(lib: Library, media: Json -> MediaState, f: Field, value: Json, strict: bool)
    returns (r: Verdict)
    requires f.Field?
    ensures r == ValueVerdict(lib, media, f, value, strict)
    ensures Meaning(lib, media, f, value, strict, r)
    decreases f, 1
  {
    ValueMeans(lib, media, f, value, strict);
    match f.kind {
      case Text | TextArea =>
        r := TextIssues(lib, f, value);
      case RichText =>
        if !value.Str? {
          return Ok([Issue(f.key, TypeError)]);
        }
        r := Ok([]);
        if !f.rules.maxLength.Absent? {
          var stripped := lib.plain(value.s);
          r := AtMost(|stripped| as real, f.rules.maxLength, f.key, TooLong);
        }
      case Number =>
        r := NumberIssues(f, value);
      case Boolean =>
        r := if value.Bool? then Ok([]) else Ok([Issue(f.key, TypeError)]);
      case Select =>
        var choices := Choices(f.rules.choices);
        if choices.Fail? {
          return Fail(choices.error);
        }
        var bad := choices.value != [] && !Chosen(lib, choices.value, value);
        r := if bad then Ok([Issue(f.key, InvalidChoice)]) else Ok([]);
      case MultiSelect =>
        r := SelectionIssues(lib, f, value);
      case Media =>
        if !IsMediaReference(value) {
          return Ok([Issue(f.key, TypeError)]);
        }
        r := Ok([]);
        if strict {
          var state := media(MediaIdOf(value));
          r := MediaIssues(f.key, state);
        }
      case Repeater =>
        r := RepeaterIssues(lib, media, f, value, strict);
      case _ =>
        r := Ok([]);
    }
  }

  /**
   * A text is judged unless a rule is malformed: too long or too short exactly beyond its
   * bounds, and against its pattern.
   */
  method TextIssues(lib: Library, f: Field, value: Json) returns (r: Verdict)
    requires f.Field?
    ensures r == TextVerdict(lib, f, value)
    ensures r.Fail?
            <==> value.Str?
                 && (f.rules.maxLength.Malformed? || f.rules.minLength.Malformed? || f.rules.pattern.Malformed?)
    ensures Reports(r, f, TypeError) <==> !value.Str?
    ensures r.Ok? && value.Str? ==>
      && (Reports(r, f, TooLong) <==> Over(|value.s| as real, f.rules.maxLength))
      && (Reports(r, f, TooShort) <==> Under(|value.s| as real, f.rules.minLength))
      && (Reports(r, f, PatternMismatch)
          <==> f.rules.pattern.Given? && lib.match_(f.rules.pattern.value, value.s) == Unmatched)
      && (Reports(r, f, PatternError)
          <==> f.rules.pattern.Given? && lib.match_(f.rules.pattern.value, value.s) == Broken)
  {
    if !value.Str? {
      return Ok([Issue(f.key, TypeError)]);
    }
    var long := AtMost(|value.s| as real, f.rules.maxLength, f.key, TooLong);
    if long.Fail? {
      return long;
    }
    var short := AtLeast(|value.s| as real, f.rules.minLength, f.key, TooShort);
    if short.Fail? {
      return short;
    }
    var issues := long.value + short.value;
    if f.rules.pattern.Malformed? {
      return Fail(MalformedSchema);
    }
    if f.rules.pattern.Given? {
      match lib.match_(f.rules.pattern.value, value.s) {
        case Matched =>
        case Unmatched => issues := issues + [Issue(f.key, PatternMismatch)];
        case Broken => issues := issues + [Issue(f.key, PatternError)];
      }
    }
    assert issues == long.value + short.value + PatternIssues(lib, f.key, f.rules.pattern, value.s).value;
    return Ok(issues);
  }

  /**
   * Numbers, booleans among them, pass exactly when they lie within the given bounds;
   * anything else is a type error.
   */
  method NumberIssues(f: Field, value: Json) returns (r: Verdict)
    requires f.Field?
    ensures r == NumberVerdict(f, value)
    ensures r.Fail? <==> Numeric(value).Some? && (f.rules.min.Malformed? || f.rules.max.Malformed?)
    ensures r == Ok([]) <==>
      && Numeric(value).Some? && !f.rules.min.Malformed? && !f.rules.max.Malformed?
      && (f.rules.min.Given? ==> f.rules.min.value <= Numeric(value).value)
      && (f.rules.max.Given? ==> Numeric(value).value <= f.rules.max.value)
    ensures Reports(r, f, TypeError) <==> Numeric(value).None?
    ensures r.Ok? && Numeric(value).Some? ==>
      && (Reports(r, f, BelowMin) <==> Under(Numeric(value).value, f.rules.min))
      && (Reports(r, f, AboveMax) <==> Over(Numeric(value).value, f.rules.max))
  {
    var n := Numeric(value);
    if n.None? {
      return Ok([Issue(f.key, TypeError)]);
    }
    var low := AtLeast(n.value, f.rules.min, f.key, BelowMin);
    if low.Fail? {
      return low;
    }
    var high := AtMost(n.value, f.rules.max, f.key, AboveMax);
    if high.Fail? {
      return high;
    }
    var issues := low.value + high.value;
    assert issues == [] <==> low.value == [] && high.value == [];
    return Ok(issues);
  }

  method SelectionIssues(lib: Library, f: Field, value: Json) returns (r: Verdict)
    requires f.Field?
    ensures r == SelectionVerdict(lib, f, value)
  {
    if !value.Arr? {
      return Ok([Issue(f.key, TypeError)]);
    }
    var found := Choices(f.rules.choices);
    if found.Fail? {
      return Fail(found.error);
    }
    var choices, values := found.value, value.items;
    var issues := [];
    if choices != [] {
      assert values[0..] == values;
      for i := 0 to |values|
        invariant issues + ChoiceIssues(lib, f.key, choices, values[i..]) == ChoiceIssues(lib, f.key, choices, values)
      {
        assert values[i..][1..] == values[i + 1..];
        if !Chosen(lib, choices, values[i]) {
          issues := issues + [Issue(f.key, InvalidChoice)];
        }
      }
    }
    assert issues == if choices == [] then [] else ChoiceIssues(lib, f.key, choices, values);
    var few := AtLeast(|values| as real, f.rules.minSelected, f.key, TooFewSelected);
    if few.Fail? {
      return few;
    }
    var many := AtMost(|values| as real, f.rules.maxSelected, f.key, TooManySelected);
    if many.Fail? {
      return many;
    }
    return Ok(issues + few.value + many.value);
  }

  method RepeaterIssues(lib: Library, media: Json -> MediaState, f: Field, value: Json, strict: bool)
    returns (r: Verdict)
    requires f.Field? && f.kind == Repeater
    ensures r == ValueVerdict(lib, media, f, value, strict)
    ensures RepeaterMeaning(lib, media, f, value, strict, r)
    decreases f, 0
  {
    RepeaterMeans(lib, media, f, value, strict);
    if !value.Arr? {
      return Ok([Issue(f.key, TypeError)]);
    }
    var few := AtLeast(|value.items| as real, f.rules.minItems, f.key, TooFewItems);
    if few.Fail? {
      return few;
    }
    var many := AtMost(|value.items| as real, f.rules.maxItems, f.key, TooManyItems);
    if many.Fail? {
      return many;
    }
    var nested: Verdict := Ok([]);
    if f.item.ItemSchema? {
      nested := ValidateItems(lib, media, f.key, f.item.fields, value.items, strict);
    }
    if nested.Fail? {
      return nested;
    }
    return Ok(few.value + many.value + nested.value);
  }

  method ValidateItems(lib: Library, media: Json -> MediaState, key: string, schema: Schema,
                       items: seq<Json>, strict: bool) returns (r: Verdict)
    ensures r == ItemsVerdict(lib, media, key, schema, items, 0, strict)
    decreases schema, 1
  {
    var issues := [];
    assert items[0..] == items;
    CatUnit(ItemsVerdict(lib, media, key, schema, items, 0, strict));
    for i := 0 to |items|
      invariant Cat(Ok(issues), ItemsVerdict(lib, media, key, schema, items[i..], i, strict))
                == ItemsVerdict(lib, media, key, schema, items, 0, strict)
    {
      assert items[i..][1..] == items[i + 1..];
      ghost var rest := ItemsVerdict(lib, media, key, schema, items[i + 1..], i + 1, strict);
      CatUnit(rest);
      CatAssociates(Ok(issues), ItemVerdict(lib, media, key, schema, items[i], i, strict), rest);
      if items[i].Obj? {
        var sub := ValidateContent(lib, media, schema, items[i].entries, strict);
        if sub.Fail? {
          return sub;
        }
        ghost var before := issues;
        for j := 0 to |sub.value|
          invariant issues == before + Prefixed(sub.value[..j], ItemPrefix(key, i))
        {
          var issue := sub.value[j];
          issues := issues + [issue.(key := ItemPrefix(key, i) + issue.key)];
        }
        assert sub.value[..|sub.value|] == sub.value;
      }
    }
    CatUnit(Ok(issues));
    return Ok(issues);
  }
}
