// Content validation in its two modes (SchemaValidator.validate_content and
// _validate_field_value).

module Validator {
  import opened Wrappers
  import opened JsonTree
  import opened MediaRefs
  import opened Schemas

  datatype IssueKind =
    | RequiredFieldEmpty | TypeError | TooLong | TooShort | PatternMismatch | PatternError
    | BelowMin | AboveMax | InvalidChoice | TooFewSelected | TooManySelected
    | MediaNotFound | MediaTombstoned | TooFewItems | TooManyItems

  datatype Issue = Issue(key: string, kind: IssueKind)

  /** Looking up a raw `media_id`: a value that is no primary key makes the query raise. */
  datatype MediaState = Live | Tombstoned | Missing | NotAKey

  /** The exceptions validation lets through. */
  datatype Raised = MalformedSchema | InvalidMediaKey

  type Verdict = Result<seq<Issue>, Raised>

  function Cat(a: Verdict, b: Verdict): Verdict {
    if a.Fail? then a
    else if b.Fail? then b
    else Ok(a.value + b.value)
  }

  function When(bad: bool, key: string, kind: IssueKind): seq<Issue> {
    if bad then [Issue(key, kind)] else []
  }

  predicate Blank(v: Json) {
    v == Null || v == Str("")
  }

  /** The number a JSON value counts as: booleans are integers in Python. */
  function Numeric(v: Json): Option<real> {
    match v
    case Num(n) => Some(n)
    case Bool(b) => Some(if b then 1.0 else 0.0)
    case _ => None
  }

  /** Issues of a value against an upper or a lower bound. */
  function AtMost(n: real, limit: Rule<real>, key: string, kind: IssueKind): Verdict {
    match limit
    case Absent => Ok([])
    case Given(bound) => Ok(When(n > bound, key, kind))
    case Malformed => Fail(MalformedSchema)
  }

  function AtLeast(n: real, limit: Rule<real>, key: string, kind: IssueKind): Verdict {
    match limit
    case Absent => Ok([])
    case Given(bound) => Ok(When(n < bound, key, kind))
    case Malformed => Fail(MalformedSchema)
  }

  function MediaIssues(key: string, state: MediaState): Verdict {
    match state
    case Live => Ok([])
    case Tombstoned => Ok([Issue(key, MediaTombstoned)])
    case Missing => Ok([Issue(key, MediaNotFound)])
    case NotAKey => Fail(InvalidMediaKey)
  }

  predicate Chosen(lib: Library, choices: seq<Json>, v: Json) {
    exists c <- choices :: lib.same(v, c)
  }

  function ChoiceIssues(lib: Library, key: string, choices: seq<Json>, values: seq<Json>): seq<Issue> {
    if values == [] then []
    else When(!Chosen(lib, choices, values[0]), key, InvalidChoice)
         + ChoiceIssues(lib, key, choices, values[1..])
  }

  function Prefixed(issues: seq<Issue>, prefix: string): seq<Issue> {
    seq(|issues|, i requires 0 <= i < |issues| => issues[i].(key := prefix + issues[i].key))
  }

  function ItemPrefix(key: string, i: nat): string {
    ItemKey(key, i) + "."
  }

  /** The issue list of `content` against `schema`, or the exception raised on the way. */
  function Validate(lib: Library, media: Json -> MediaState, schema: Schema, content: Dict, strict: bool): Verdict
    decreases schema, 0
  {
    if schema == [] then Ok([])
    else Cat(FieldVerdict(lib, media, schema[0], content, strict),
             Validate(lib, media, schema[1..], content, strict))
  }

  predicate RequiredButEmpty(f: Field, v: Json)
    requires f.Field?
  {
    f.required && (Blank(v) || v == Arr([]))
  }

  function FieldVerdict(lib: Library, media: Json -> MediaState, f: Field, content: Dict, strict: bool): Verdict
    decreases f, 1
  {
    if f.Incomplete? then Fail(MalformedSchema)
    else
      var v := Lookup(content, f.key).GetOr(Null);
      if RequiredButEmpty(f, v) then Ok(When(strict, f.key, RequiredFieldEmpty))
      else if Blank(v) then Ok([])
      else ValueVerdict(lib, media, f, v, strict)
  }

  function ValueVerdict(lib: Library, media: Json -> MediaState, f: Field, v: Json, strict: bool): Verdict
    requires f.Field?
    decreases f, 0
  {
    match f.kind
    case Text | TextArea => TextVerdict(lib, f, v)
    case RichText =>
      if !v.Str? then Ok([Issue(f.key, TypeError)])
      else AtMost(|lib.plain(v.s)| as real, f.rules.maxLength, f.key, TooLong)
    case Number => NumberVerdict(f, v)
    case Boolean => Ok(When(!v.Bool?, f.key, TypeError))
    case Select =>
      var choices :- Choices(f.rules.choices);
      Ok(When(choices != [] && !Chosen(lib, choices, v), f.key, InvalidChoice))
    case MultiSelect => SelectionVerdict(lib, f, v)
    case Media =>
      if !IsMediaReference(v) then Ok([Issue(f.key, TypeError)])
      else if strict then MediaIssues(f.key, media(MediaIdOf(v)))
      else Ok([])
    case Repeater =>
      if !v.Arr? then Ok([Issue(f.key, TypeError)])
      else Cat(SizeVerdict(f, v.items),
               if f.item.NoItemSchema? then Ok([])
               else ItemsVerdict(lib, media, f.key, f.item.fields, v.items, 0, strict))
    case _ => Ok([])
  }

  function TextVerdict(lib: Library, f: Field, v: Json): Verdict
    requires f.Field?
  {
    if !v.Str? then Ok([Issue(f.key, TypeError)])
    else Cat(Cat(AtMost(|v.s| as real, f.rules.maxLength, f.key, TooLong),
                 AtLeast(|v.s| as real, f.rules.minLength, f.key, TooShort)),
             PatternIssues(lib, f.key, f.rules.pattern, v.s))
  }

  function NumberVerdict(f: Field, v: Json): Verdict
    requires f.Field?
  {
    var n := Numeric(v);
    if n.None? then Ok([Issue(f.key, TypeError)])
    else Cat(AtLeast(n.value, f.rules.min, f.key, BelowMin), AtMost(n.value, f.rules.max, f.key, AboveMax))
  }

  function SelectionVerdict(lib: Library, f: Field, v: Json): Verdict
    requires f.Field?
  {
    if !v.Arr? then Ok([Issue(f.key, TypeError)])
    else
      var choices :- Choices(f.rules.choices);
      Cat(Cat(Ok(if choices == [] then [] else ChoiceIssues(lib, f.key, choices, v.items)),
              AtLeast(|v.items| as real, f.rules.minSelected, f.key, TooFewSelected)),
          AtMost(|v.items| as real, f.rules.maxSelected, f.key, TooManySelected))
  }

  function SizeVerdict(f: Field, items: seq<Json>): Verdict
    requires f.Field?
  {
    Cat(AtLeast(|items| as real, f.rules.minItems, f.key, TooFewItems),
        AtMost(|items| as real, f.rules.maxItems, f.key, TooManyItems))
  }

  /** The values of the `choices` entry; collecting them raises when one is missing. */
  function Choices(rule: Rule<seq<Json>>): Result<seq<Json>, Raised> {
    match rule
    case Absent => Ok([])
    case Given(values) => Ok(values)
    case Malformed => Fail(MalformedSchema)
  }

  predicate IsMediaReference(v: Json) {
    v.Obj? && Lookup(v.entries, "media_id").Some?
  }

  function MediaIdOf(v: Json): Json
    requires IsMediaReference(v)
  {
    Lookup(v.entries, "media_id").value
  }

  function PatternIssues(lib: Library, key: string, pattern: Rule<string>, s: string): Verdict {
    match pattern
    case Absent => Ok([])
    case Malformed => Fail(MalformedSchema)
    case Given(text) =>
      match lib.match_(text, s)
      case Matched => Ok([])
      case Unmatched => Ok([Issue(key, PatternMismatch)])
      case Broken => Ok([Issue(key, PatternError)])
  }

  function ItemsVerdict(lib: Library, media: Json -> MediaState, key: string, schema: Schema,
                        items: seq<Json>, i: nat, strict: bool): Verdict
    decreases schema, 1, |items|
  {
    if items == [] then Ok([])
    else Cat(ItemVerdict(lib, media, key, schema, items[0], i, strict),
             ItemsVerdict(lib, media, key, schema, items[1..], i + 1, strict))
  }

  function ItemVerdict(lib: Library, media: Json -> MediaState, key: string, schema: Schema,
                       item: Json, i: nat, strict: bool): Verdict
    decreases schema, 1, 0
  {
    if !item.Obj? then Ok([])
    else
      var sub := Validate(lib, media, schema, item.entries, strict);
      if sub.Fail? then sub else Ok(Prefixed(sub.value, ItemPrefix(key, i)))
  }

  // ------------------------------------------------------ strict, permissive

  /** The issues only strict mode reports. */
  predicate StrictOnly(i: Issue) {
    i.kind == RequiredFieldEmpty || i.kind == MediaNotFound || i.kind == MediaTombstoned
  }

  function Lenient(issues: seq<Issue>): seq<Issue> {
    if issues == [] then []
    else (if StrictOnly(issues[0]) then [] else [issues[0]]) + Lenient(issues[1..])
  }

  lemma {:induction false} LenientConcat(a: seq<Issue>, b: seq<Issue>)
    ensures Lenient(a + b) == Lenient(a) + Lenient(b)
  {
    if a == [] {
      assert a + b == b;
    } else {
      assert (a + b)[1..] == a[1..] + b;
      LenientConcat(a[1..], b);
    }
  }

  lemma {:induction false} LenientPrefixed(issues: seq<Issue>, prefix: string)
    ensures Lenient(Prefixed(issues, prefix)) == Prefixed(Lenient(issues), prefix)
  {
    if issues != [] {
      var head, tail := issues[0], issues[1..];
      LenientPrefixed(tail, prefix);
      assert Prefixed(issues, prefix)[1..] == Prefixed(tail, prefix);
      assert Prefixed(issues, prefix)[0] == head.(key := prefix + head.key);
      if StrictOnly(head) {
        assert Lenient(issues) == Lenient(tail);
      } else {
        assert Prefixed([head] + Lenient(tail), prefix)
            == [head.(key := prefix + head.key)] + Prefixed(Lenient(tail), prefix);
      }
    }
  }

  lemma {:induction false} LenientKeepsOrdinary(issues: seq<Issue>)
    requires forall i <- issues :: !StrictOnly(i)
    ensures Lenient(issues) == issues
  {
    if issues != [] {
      LenientKeepsOrdinary(issues[1..]);
      assert issues == [issues[0]] + issues[1..];
    }
  }

  /**
   * How the two modes compare: a permissive exception is a strict one, strict mode alone
   * raises only for a media id that is no key, and otherwise permissive mode drops the
   * strict-only issues.
   */
  ghost predicate Agree(strict: Verdict, permissive: Verdict) {
    && (permissive.Fail? ==> strict.Fail? && permissive.error == MalformedSchema)
    && (strict.Fail? && permissive.Ok? ==> strict.error == InvalidMediaKey)
    && (strict.Ok? ==> permissive.Ok? && permissive.value == Lenient(strict.value))
  }

  lemma CatAgrees(a: Verdict, b: Verdict, a': Verdict, b': Verdict)
    requires Agree(a, a') && Agree(b, b')
    ensures Agree(Cat(a, b), Cat(a', b'))
  {
    if a.Ok? && b.Ok? {
      LenientConcat(a.value, b.value);
    }
  }

  /** The verdict does not depend on the mode. */
  ghost predicate Plain(v: Verdict) {
    match v
    case Fail(error) => error == MalformedSchema
    case Ok(issues) => forall i <- issues :: !StrictOnly(i)
  }

  lemma PlainAgrees(v: Verdict)
    requires Plain(v)
    ensures Agree(v, v)
  {
    if v.Ok? {
      LenientKeepsOrdinary(v.value);
    }
  }

  lemma CatPlain(a: Verdict, b: Verdict)
    requires Plain(a) && Plain(b)
    ensures Plain(Cat(a, b))
  {
  }

  /**
   * Permissive mode reports exactly the strict issues without the three strict-only
   * kinds: same order, same rewritten paths, at any depth. It raises only where strict
   * mode raises.
   */
  lemma {:induction false} PermissiveIsStrictFiltered(lib: Library, media: Json -> MediaState, schema: Schema,
                                                      content: Dict)
    ensures Agree(Validate(lib, media, schema, content, true), Validate(lib, media, schema, content, false))
    decreases schema, 0
  {
    if schema != [] {
      var f := schema[0];
      FieldAgrees(lib, media, f, content);
      PermissiveIsStrictFiltered(lib, media, schema[1..], content);
      CatAgrees(FieldVerdict(lib, media, f, content, true), Validate(lib, media, schema[1..], content, true),
                FieldVerdict(lib, media, f, content, false), Validate(lib, media, schema[1..], content, false));
    }
  }

  lemma {:induction false} FieldAgrees(lib: Library, media: Json -> MediaState, f: Field, content: Dict)
    ensures Agree(FieldVerdict(lib, media, f, content, true), FieldVerdict(lib, media, f, content, false))
    decreases f, 1
  {
    if f.Field? {
      var v := Lookup(content, f.key).GetOr(Null);
      if !RequiredButEmpty(f, v) && !Blank(v) {
        ValueAgrees(lib, media, f, v);
      }
    }
  }

  lemma {:induction false} ChoicesAreOrdinary(lib: Library, key: string, choices: seq<Json>, values: seq<Json>)
    ensures forall i <- ChoiceIssues(lib, key, choices, values) :: !StrictOnly(i)
  {
    if values != [] {
      ChoicesAreOrdinary(lib, key, choices, values[1..]);
    }
  }

  lemma TextIsPlain(lib: Library, f: Field, v: Json)
    requires f.Field?
    ensures Plain(TextVerdict(lib, f, v))
  {
    if v.Str? {
      var n := |v.s| as real;
      var long, short := AtMost(n, f.rules.maxLength, f.key, TooLong), AtLeast(n, f.rules.minLength, f.key, TooShort);
      CatPlain(long, short);
      CatPlain(Cat(long, short), PatternIssues(lib, f.key, f.rules.pattern, v.s));
    }
  }

  lemma NumberIsPlain(f: Field, v: Json)
    requires f.Field?
    ensures Plain(NumberVerdict(f, v))
  {
    var n := Numeric(v);
    if n.Some? {
      CatPlain(AtLeast(n.value, f.rules.min, f.key, BelowMin), AtMost(n.value, f.rules.max, f.key, AboveMax));
    }
  }

  lemma SelectionIsPlain(lib: Library, f: Field, v: Json)
    requires f.Field?
    ensures Plain(SelectionVerdict(lib, f, v))
  {
    if v.Arr? && !f.rules.choices.Malformed? {
      var choices, n := Choices(f.rules.choices).value, |v.items| as real;
      var picked: Verdict := Ok(if choices == [] then [] else ChoiceIssues(lib, f.key, choices, v.items));
      var few := AtLeast(n, f.rules.minSelected, f.key, TooFewSelected);
      ChoicesAreOrdinary(lib, f.key, choices, v.items);
      CatPlain(picked, few);
      CatPlain(Cat(picked, few), AtMost(n, f.rules.maxSelected, f.key, TooManySelected));
    }
  }

  lemma SizeIsPlain(f: Field, items: seq<Json>)
    requires f.Field?
    ensures Plain(SizeVerdict(f, items))
  {
    CatPlain(AtLeast(|items| as real, f.rules.minItems, f.key, TooFewItems),
             AtMost(|items| as real, f.rules.maxItems, f.key, TooManyItems));
  }

  /** Values of the simple kinds are judged alike in both modes. */
  lemma SimpleValueAgrees(lib: Library, media: Json -> MediaState, f: Field, v: Json)
    requires f.Field? && f.kind != Media && f.kind != Repeater
    ensures Agree(ValueVerdict(lib, media, f, v, true), ValueVerdict(lib, media, f, v, false))
  {
    match f.kind {
      case Text | TextArea => TextIsPlain(lib, f, v);
      case Number => NumberIsPlain(f, v);
      case MultiSelect => SelectionIsPlain(lib, f, v);
      case _ =>
    }
    PlainAgrees(ValueVerdict(lib, media, f, v, false));
  }

  lemma {:induction false} ValueAgrees(lib: Library, media: Json -> MediaState, f: Field, v: Json)
    requires f.Field?
    ensures Agree(ValueVerdict(lib, media, f, v, true), ValueVerdict(lib, media, f, v, false))
    decreases f, 0
  {
    if f.kind == Media {
    } else if f.kind == Repeater {
      if v.Arr? {
        var sizes := SizeVerdict(f, v.items);
        SizeIsPlain(f, v.items);
        PlainAgrees(sizes);
        PlainAgrees(Ok([]));
        if f.item.ItemSchema? {
          ItemsAgree(lib, media, f.key, f.item.fields, v.items, 0);
          CatAgrees(sizes, ItemsVerdict(lib, media, f.key, f.item.fields, v.items, 0, true),
                    sizes, ItemsVerdict(lib, media, f.key, f.item.fields, v.items, 0, false));
        } else {
          CatAgrees(sizes, Ok([]), sizes, Ok([]));
        }
      }
    } else {
      SimpleValueAgrees(lib, media, f, v);
    }
  }

  lemma {:induction false} ItemsAgree(lib: Library, media: Json -> MediaState, key: string, schema: Schema,
                                      items: seq<Json>, i: nat)
    ensures Agree(ItemsVerdict(lib, media, key, schema, items, i, true),
                  ItemsVerdict(lib, media, key, schema, items, i, false))
    decreases schema, 1, |items|
  {
    if items != [] {
      if items[0].Obj? {
        PermissiveIsStrictFiltered(lib, media, schema, items[0].entries);
        var sub := Validate(lib, media, schema, items[0].entries, true);
        if sub.Ok? {
          LenientPrefixed(sub.value, ItemPrefix(key, i));
        }
      }
      ItemsAgree(lib, media, key, schema, items[1..], i + 1);
      CatAgrees(ItemVerdict(lib, media, key, schema, items[0], i, true),
                ItemsVerdict(lib, media, key, schema, items[1..], i + 1, true),
                ItemVerdict(lib, media, key, schema, items[0], i, false),
                ItemsVerdict(lib, media, key, schema, items[1..], i + 1, false));
    }
  }

  // ----------------------------------------------- which schemas make it raise

  /** Permissive validation reads no malformed part of the schema for this content. */
  predicate Judgeable(schema: Schema, content: Dict)
    decreases schema
  {
    forall f <- schema :: f.Field? && ValueJudgeable(f, Lookup(content, f.key).GetOr(Null))
  }

  predicate ValueJudgeable(f: Field, v: Json)
    requires f.Field?
    decreases f
  {
    var r := f.rules;
    !RequiredButEmpty(f, v) && !Blank(v) ==>
      match f.kind
      case Text | TextArea => v.Str? ==> !r.maxLength.Malformed? && !r.minLength.Malformed? && !r.pattern.Malformed?
      case RichText => v.Str? ==> !r.maxLength.Malformed?
      case Number => Numeric(v).Some? ==> !r.min.Malformed? && !r.max.Malformed?
      case Select => !r.choices.Malformed?
      case MultiSelect =>
        v.Arr? ==> !r.choices.Malformed? && !r.minSelected.Malformed? && !r.maxSelected.Malformed?
      case Repeater =>
        v.Arr? ==>
          && !r.minItems.Malformed? && !r.maxItems.Malformed?
          && (f.item.ItemSchema? ==> forall item <- v.items :: item.Obj? ==> Judgeable(f.item.fields, item.entries))
      case _ => true
  }

  /** Permissive validation raises exactly on the content that makes it read a malformed part. */
  lemma {:induction false} PermissiveRaisesIff(lib: Library, media: Json -> MediaState, schema: Schema, content: Dict)
    ensures Validate(lib, media, schema, content, false).Ok? <==> Judgeable(schema, content)
    decreases schema, 0
  {
    if schema != [] {
      var f, rest := schema[0], schema[1..];
      PermissiveRaisesIff(lib, media, rest, content);
      if f.Field? {
        ValueRaisesIff(lib, media, f, Lookup(content, f.key).GetOr(Null));
      }
      assert schema == [f] + rest;
    }
  }

  lemma {:induction false} ValueRaisesIff(lib: Library, media: Json -> MediaState, f: Field, v: Json)
    requires f.Field?
    ensures !RequiredButEmpty(f, v) && !Blank(v) ==>
      (ValueVerdict(lib, media, f, v, false).Ok? <==> ValueJudgeable(f, v))
    decreases f, 0
  {
    if f.kind == Repeater && v.Arr? && f.item.ItemSchema? {
      ItemsRaiseIff(lib, media, f.key, f.item.fields, v.items, 0);
    }
  }

  lemma {:induction false} ItemsRaiseIff(lib: Library, media: Json -> MediaState, key: string, schema: Schema,
                                         items: seq<Json>, i: nat)
    ensures ItemsVerdict(lib, media, key, schema, items, i, false).Ok?
            <==> forall item <- items :: item.Obj? ==> Judgeable(schema, item.entries)
    decreases schema, 1, |items|
  {
    if items != [] {
      ItemsRaiseIff(lib, media, key, schema, items[1..], i + 1);
      assert items == [items[0]] + items[1..];
      if items[0].Obj? {
        PermissiveRaisesIff(lib, media, schema, items[0].entries);
      }
    }
  }

  /** Every field is complete, and the rules its kind uses are well typed, through item schemas. */
  predicate WellTyped(schema: Schema)
    decreases schema
  {
    forall f <- schema :: f.Field? && FieldWellTyped(f)
  }

  predicate FieldWellTyped(f: Field)
    requires f.Field?
    decreases f
  {
    var r := f.rules;
    match f.kind
    case Text | TextArea => !r.maxLength.Malformed? && !r.minLength.Malformed? && !r.pattern.Malformed?
    case RichText => !r.maxLength.Malformed?
    case Number => !r.min.Malformed? && !r.max.Malformed?
    case Select => !r.choices.Malformed?
    case MultiSelect => !r.choices.Malformed? && !r.minSelected.Malformed? && !r.maxSelected.Malformed?
    case Repeater =>
      && !r.minItems.Malformed? && !r.maxItems.Malformed?
      && (f.item.ItemSchema? ==> WellTyped(f.item.fields))
    case _ => true
  }

  lemma {:induction false} WellTypedIsJudgeable(schema: Schema, content: Dict)
    requires WellTyped(schema)
    ensures Judgeable(schema, content)
    decreases schema
  {
    forall f | f in schema ensures ValueJudgeable(f, Lookup(content, f.key).GetOr(Null)) {
      FieldWellTypedIsJudgeable(f, Lookup(content, f.key).GetOr(Null));
    }
  }

  lemma {:induction false} FieldWellTypedIsJudgeable(f: Field, v: Json)
    requires f.Field? && FieldWellTyped(f)
    ensures ValueJudgeable(f, v)
    decreases f
  {
    if f.kind == Repeater && v.Arr? && f.item.ItemSchema? {
      forall item | item in v.items && item.Obj? ensures Judgeable(f.item.fields, item.entries) {
        WellTypedIsJudgeable(f.item.fields, item.entries);
      }
    }
  }

  /** Content that makes an ill-typed schema raise. */
  lemma {:induction false} IllTypedRaises(schema: Schema) returns (content: Dict)
    requires !WellTyped(schema)
    ensures !Judgeable(schema, content)
    decreases schema
  {
    var f :| f in schema && !(f.Field? && FieldWellTyped(f));
    if f.Incomplete? {
      content := [];
    } else {
      var v := IllTypedFieldRaises(f);
      content := [Entry(f.key, v)];
      assert Lookup(content, f.key) == Some(v);
    }
  }

  lemma {:induction false} IllTypedFieldRaises(f: Field) returns (v: Json)
    requires f.Field? && !FieldWellTyped(f)
    ensures !ValueJudgeable(f, v)
    decreases f
  {
    match f.kind {
      case Number => v := Num(1.0);
      case MultiSelect => v := Arr([Null]);
      case Repeater =>
        v := Arr([Null]);
        if f.item.ItemSchema? && !WellTyped(f.item.fields) {
          var inner := IllTypedRaises(f.item.fields);
          v := Arr([Obj(inner)]);
          assert Obj(inner) in v.items;
        }
      case _ => v := Str("x");
    }
  }

  /**
   * Permissive validation raises on no content at all if and only if the schema is well
   * typed. The structural check promises that for the top level's keys, types and patterns
   * only.
   */
  lemma NeverRaisesIffWellTyped(lib: Library, media: Json -> MediaState, schema: Schema)
    ensures (forall content: Dict :: Validate(lib, media, schema, content, false).Ok?) <==> WellTyped(schema)
  {
    if WellTyped(schema) {
      forall content: Dict ensures Validate(lib, media, schema, content, false).Ok? {
        WellTypedIsJudgeable(schema, content);
        PermissiveRaisesIff(lib, media, schema, content);
      }
    } else {
      var content := IllTypedRaises(schema);
      PermissiveRaisesIff(lib, media, schema, content);
    }
  }

  /** An accepted schema, and content on which a draft save would raise. */
  lemma AcceptedSchemaRaises(lib: Library, media: Json -> MediaState, rules: Rules)
    requires rules.pattern.Absent? && rules.minItems.Absent? && rules.maxItems.Absent?
    ensures
      var schema := [Field("rows", Repeater, false, rules, Absent, ItemSchema([Incomplete]))];
      var content := [Entry("rows", Arr([Obj([])]))];
      && Accepted(lib, Fields(schema))
      && Validate(lib, media, schema, content, false) == Fail(MalformedSchema)
  {
    var schema := [Field("rows", Repeater, false, rules, Absent, ItemSchema([Incomplete]))];
    var content := [Entry("rows", Arr([Obj([])]))];
    assert Lookup(content, "rows") == Some(Arr([Obj([])]));
    assert Validate(lib, media, [Incomplete], [], false) == Fail(MalformedSchema);
    assert ItemVerdict(lib, media, "rows", [Incomplete], Obj([]), 0, false) == Fail(MalformedSchema);
    assert ItemsVerdict(lib, media, "rows", [Incomplete], [Obj([])], 0, false) == Fail(MalformedSchema);
    assert ValueVerdict(lib, media, schema[0], Arr([Obj([])]), false) == Fail(MalformedSchema);
    assert FieldVerdict(lib, media, schema[0], content, false) == Fail(MalformedSchema);
  }

  // ------------------------------------------------- what a publish guarantees

  /** Required fields are filled and media fields name live files, through repeaters. */
  predicate Ready(media: Json -> MediaState, schema: Schema, content: Dict)
    decreases schema
  {
    forall f <- schema :: f.Field? ==> FieldReady(media, f, Lookup(content, f.key).GetOr(Null))
  }

  predicate FieldReady(media: Json -> MediaState, f: Field, v: Json)
    requires f.Field?
    decreases f
  {
    && !RequiredButEmpty(f, v)
    && (f.kind == Media && IsMediaReference(v) ==> media(MediaIdOf(v)) == Live)
    && (f.kind == Repeater && v.Arr? && f.item.ItemSchema? ==>
          forall item <- v.items :: item.Obj? ==> Ready(media, f.item.fields, item.entries))
  }

  /** A block passes strict validation exactly when it passes permissive validation and is ready. */
  lemma {:induction false} StrictPassIffReady(lib: Library, media: Json -> MediaState, schema: Schema, content: Dict)
    ensures Validate(lib, media, schema, content, true) == Ok([])
            <==> Validate(lib, media, schema, content, false) == Ok([]) && Ready(media, schema, content)
    decreases schema, 0
  {
    PermissiveIsStrictFiltered(lib, media, schema, content);
    if schema != [] {
      var f, rest := schema[0], schema[1..];
      StrictPassIffReady(lib, media, rest, content);
      FieldPassIffReady(lib, media, f, content);
      assert f.Field? ==> (Ready(media, schema, content) <==>
             FieldReady(media, f, Lookup(content, f.key).GetOr(Null)) && Ready(media, rest, content)) by {
        assert schema == [f] + rest;
      }
      PermissiveIsStrictFiltered(lib, media, rest, content);
    }
  }

  lemma {:induction false} FieldPassIffReady(lib: Library, media: Json -> MediaState, f: Field, content: Dict)
    ensures FieldVerdict(lib, media, f, content, true) == Ok([])
            <==> FieldVerdict(lib, media, f, content, false) == Ok([])
                 && f.Field? && FieldReady(media, f, Lookup(content, f.key).GetOr(Null))
    decreases f, 1
  {
    if f.Field? {
      var v := Lookup(content, f.key).GetOr(Null);
      if f.kind == Repeater && v.Arr? && f.item.ItemSchema? {
        ItemsPassIffReady(lib, media, f.key, f.item.fields, v.items, 0);
      }
    }
  }

  lemma {:induction false} ItemsPassIffReady(lib: Library, media: Json -> MediaState, key: string, schema: Schema,
                                             items: seq<Json>, i: nat)
    ensures ItemsVerdict(lib, media, key, schema, items, i, true) == Ok([])
            <==> ItemsVerdict(lib, media, key, schema, items, i, false) == Ok([])
                 && forall item <- items :: item.Obj? ==> Ready(media, schema, item.entries)
    decreases schema, 1, |items|
  {
    if items != [] {
      ItemsPassIffReady(lib, media, key, schema, items[1..], i + 1);
      ItemsAgree(lib, media, key, schema, items[1..], i + 1);
      assert items == [items[0]] + items[1..];
      if items[0].Obj? {
        StrictPassIffReady(lib, media, schema, items[0].entries);
        PermissiveIsStrictFiltered(lib, media, schema, items[0].entries);
      }
    }
  }
}
