// Block template schemas and the structural check on them
// (SchemaValidator.validate_schema_structure).

module Schemas {
  import opened Wrappers
  import opened JsonTree

  datatype FieldType =
    | Text | TextArea | RichText | Number | Boolean | Url | Email | Date | DateTime
    | Select | MultiSelect | Media | List | Repeater | Relation | JsonValue | Color | Icon
    | Unknown(name: string)

  /**
   * An entry of a field's `validation` dict. Using a malformed one raises: a bound that is
   * no number, a pattern that is no string, a list of choices one of which has no value.
   */
  datatype Rule<T> = Absent | Given(value: T) | Malformed

  datatype Rules = Rules(
    maxLength: Rule<real>, minLength: Rule<real>, pattern: Rule<string>,
    min: Rule<real>, max: Rule<real>, choices: Rule<seq<Json>>,
    minSelected: Rule<real>, maxSelected: Rule<real>,
    minItems: Rule<real>, maxItems: Rule<real>)

  /**
   * A field definition. An incomplete one lacks its key or its type. `tags` are the allowed
   * tags after the default is applied, and `item` the fields of a repeater's `item_schema`.
   */
  datatype Field =
    | Incomplete
    | Field(key: string, kind: FieldType, required: bool, rules: Rules, tags: Rule<set<string>>, item: ItemSchema)

  datatype ItemSchema = NoItemSchema | ItemSchema(fields: seq<Field>)

  type Schema = seq<Field>

  datatype Match = Matched | Unmatched | Broken

  /** Library functions the validator calls: regular expressions, HTML handling, Python's `==`. */
  datatype Library = Library(
    clean: (set<string>, string) -> string,
    plain: string -> string,
    match_: (string, string) -> Match,
    compiles: string -> bool,
    risky: string -> bool,
    same: (Json, Json) -> bool)

  const MAX_REGEX_PATTERN_LENGTH := 500

  /** A schema document before the check. */
  datatype RawSchema = NoFields | FieldsNotList | Fields(fields: seq<Field>)

  /** `PatternNotText` is the uncaught TypeError of handling a pattern that is no string. */
  datatype StructureError =
    | MissingFields | FieldsMustBeArray | MissingKeyOrType | UnknownType | DuplicateKey
    | PatternNotText | PatternTooLong | PatternInvalid | PatternRisky | MissingItemSchema | NestedRepeater

  predicate PatternAllowed(lib: Library, pattern: Rule<string>) {
    match pattern
    case Absent => true
    case Malformed => false
    case Given(text) => |text| <= MAX_REGEX_PATTERN_LENGTH && lib.compiles(text) && !lib.risky(text)
  }

  predicate IsRepeater(f: Field) {
    f.Field? && f.kind == Repeater
  }

  /** The check looks one level into an item schema, and only for repeaters. */
  predicate RepeaterAllowed(f: Field) {
    IsRepeater(f) ==>
      && f.item.ItemSchema?
      && forall k :: 0 <= k < |f.item.fields| ==> !IsRepeater(f.item.fields[k])
  }

  predicate SameKey(f: Field, g: Field) {
    f.Field? && g.Field? && f.key == g.key
  }

  predicate DistinctKeys(fields: seq<Field>) {
    forall i, j :: 0 <= i < j < |fields| ==> !SameKey(fields[i], fields[j])
  }

  /** What a stored schema is promised to be. */
  predicate Accepted(lib: Library, raw: RawSchema) {
    raw.Fields? && FieldsAccepted(lib, raw.fields)
  }

  predicate FieldsAccepted(lib: Library, fields: seq<Field>) {
    (forall i :: 0 <= i < |fields| ==> FieldAccepted(lib, fields[i])) && DistinctKeys(fields)
  }

  predicate FieldAccepted(lib: Library, f: Field) {
    && f.Field?
    && !f.kind.Unknown?
    && PatternAllowed(lib, f.rules.pattern)
    && RepeaterAllowed(f)
  }

  /** The offence of field `i` that an error names. */
  predicate Offends(lib: Library, fields: seq<Field>, i: nat, err: StructureError)
    requires i < |fields|
  {
    var f := fields[i];
    match err
    case MissingFields | FieldsMustBeArray => false
    case MissingKeyOrType => f.Incomplete?
    case UnknownType => f.Field? && f.kind.Unknown?
    case DuplicateKey => exists j :: 0 <= j < i && SameKey(fields[j], f)
    case PatternNotText => f.Field? && f.rules.pattern.Malformed?
    case PatternTooLong => f.Field? && f.rules.pattern.Given? && |f.rules.pattern.value| > MAX_REGEX_PATTERN_LENGTH
    case PatternInvalid => f.Field? && f.rules.pattern.Given? && !lib.compiles(f.rules.pattern.value)
    case PatternRisky => f.Field? && f.rules.pattern.Given? && lib.risky(f.rules.pattern.value)
    case MissingItemSchema => IsRepeater(f) && f.item.NoItemSchema?
    case NestedRepeater => IsRepeater(f) && f.item.ItemSchema? && exists g <- f.item.fields :: IsRepeater(g)
  }

  /** A schema is accepted exactly if it is a list of fields none of which offends in any way. */
  lemma AcceptedIffNoOffence(lib: Library, raw: RawSchema)
    ensures Accepted(lib, raw)
            <==> raw.Fields? && forall i: nat, err :: i < |raw.fields| ==> !Offends(lib, raw.fields, i, err)
  {
    if raw.Fields? && !Accepted(lib, raw) {
      var i, err := SomeOffence(lib, raw.fields);
    }
  }

  lemma SomeOffence(lib: Library, fields: seq<Field>) returns (i: nat, err: StructureError)
    requires !FieldsAccepted(lib, fields)
    ensures i < |fields| && Offends(lib, fields, i, err)
  {
    if DistinctKeys(fields) {
      i :| 0 <= i < |fields| && !FieldAccepted(lib, fields[i]);
      err := OffenceOf(lib, fields, i);
    } else {
      var j, k :| 0 <= j < k < |fields| && SameKey(fields[j], fields[k]);
      i, err := k, DuplicateKey;
    }
  }

  lemma OffenceOf(lib: Library, fields: seq<Field>, i: nat) returns (err: StructureError)
    requires i < |fields| && !FieldAccepted(lib, fields[i])
    ensures Offends(lib, fields, i, err)
  {
    var f := fields[i];
    if f.Incomplete? {
      err := MissingKeyOrType;
    } else if f.kind.Unknown? {
      err := UnknownType;
    } else if !PatternAllowed(lib, f.rules.pattern) {
      var rule := f.rules.pattern;
      err := if rule.Malformed? then PatternNotText
             else if |rule.value| > MAX_REGEX_PATTERN_LENGTH then PatternTooLong
             else if !lib.compiles(rule.value) then PatternInvalid
             else PatternRisky;
    } else if f.item.NoItemSchema? {
      err := MissingItemSchema;
    } else {
      var k :| 0 <= k < |f.item.fields| && IsRepeater(f.item.fields[k]);
      assert f.item.fields[k] in f.item.fields;
      err := NestedRepeater;
    }
  }

  /** A refusal names an offence of the first field at which the schema is not acceptable. */
  method ValidateSchemaStructure(lib: Library, raw: RawSchema) returns (err: Option<StructureError>)
    ensures err.None? <==> Accepted(lib, raw)
    ensures err == Some(MissingFields) <==> raw.NoFields?
    ensures err == Some(FieldsMustBeArray) <==> raw.FieldsNotList?
    ensures err.Some? && raw.Fields? ==>
      exists i: nat ::
        i < |raw.fields| && FieldsAccepted(lib, raw.fields[..i]) && Offends(lib, raw.fields, i, err.value)
  {
    if raw.NoFields? {
      return Some(MissingFields);
    }
    if raw.FieldsNotList? {
      return Some(FieldsMustBeArray);
    }
    var seenKeys: set<string> := {};
    for i := 0 to |raw.fields|
      invariant FieldsAccepted(lib, raw.fields[..i])
      invariant forall key ::
        key in seenKeys <==> exists k :: 0 <= k < i && raw.fields[k].Field? && raw.fields[k].key == key
    {
      var f := raw.fields[i];
      assert raw.fields[..i + 1] == raw.fields[..i] + [f];
      if f.Incomplete? {
        assert Offends(lib, raw.fields, i, MissingKeyOrType);
        return Some(MissingKeyOrType);
      }
      if f.kind.Unknown? {
        assert Offends(lib, raw.fields, i, UnknownType);
        return Some(UnknownType);
      }
      if f.key in seenKeys {
        assert Offends(lib, raw.fields, i, DuplicateKey);
        return Some(DuplicateKey);
      }
      seenKeys := seenKeys + {f.key};
      var bad := CheckPattern(lib, f.rules.pattern);
      if bad.Some? {
        assert Offends(lib, raw.fields, i, bad.value);
        return bad;
      }
      bad := CheckRepeater(f);
      if bad.Some? {
        assert Offends(lib, raw.fields, i, bad.value);
        return bad;
      }
    }
    assert raw.fields[..|raw.fields|] == raw.fields;
    return None;
  }

  method CheckPattern(lib: Library, rule: Rule<string>) returns (err: Option<StructureError>)
    ensures err.None? <==> PatternAllowed(lib, rule)
    ensures err.Some? ==>
      match err.value
      case PatternNotText => rule.Malformed?
      case PatternTooLong => rule.Given? && |rule.value| > MAX_REGEX_PATTERN_LENGTH
      case PatternInvalid => rule.Given? && !lib.compiles(rule.value)
      case PatternRisky => rule.Given? && lib.risky(rule.value)
      case _ => false
  {
    match rule {
      case Absent => return None;
      case Malformed => return Some(PatternNotText);
      case Given(pattern) =>
        if |pattern| > MAX_REGEX_PATTERN_LENGTH {
          return Some(PatternTooLong);
        }
        if !lib.compiles(pattern) {
          return Some(PatternInvalid);
        }
        if lib.risky(pattern) {
          return Some(PatternRisky);
        }
        return None;
    }
  }

  method CheckRepeater(f: Field) returns (err: Option<StructureError>)
    ensures err.None? <==> RepeaterAllowed(f)
    ensures err.Some? ==> err == Some(MissingItemSchema) || err == Some(NestedRepeater)
    ensures err == Some(MissingItemSchema) ==> IsRepeater(f) && f.item.NoItemSchema?
    ensures err == Some(NestedRepeater) ==>
      IsRepeater(f) && f.item.ItemSchema? && exists g <- f.item.fields :: IsRepeater(g)
  {
    if IsRepeater(f) {
      if f.item.NoItemSchema? {
        return Some(MissingItemSchema);
      }
      for k := 0 to |f.item.fields|
        invariant forall j :: 0 <= j < k ==> !IsRepeater(f.item.fields[j])
      {
        if IsRepeater(f.item.fields[k]) {
          return Some(NestedRepeater);
        }
      }
    }
    return None;
  }
}
