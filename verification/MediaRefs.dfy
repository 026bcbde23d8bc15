// References to media files inside a content tree: finding them
// (_extract_media_references) and clearing them (_null_media_id_in_content).

module MediaRefs {
  import opened Wrappers
  import opened JsonTree

  /** The 128-bit value of a UUID. */
  type Uuid = nat

  /**
   * UUID parsing and printing are library functions. The only law the CMS
   * relies on is that a printed id parses back to itself; a parser may accept
   * other spellings of the same id (upper case, braces, no hyphens).
   */
  datatype Codec = Codec(parse: string -> Option<Uuid>, text: Uuid -> string)

  ghost predicate Lawful(codec: Codec) {
    forall u: Uuid :: codec.parse(codec.text(u)) == Some(u)
  }

  /** A place the walk collects: the dotted field key and the raw `media_id`. */
  datatype Site = Site(path: string, value: Json)

  datatype Ref = Ref(path: string, id: Uuid)

  /**
   * Building a UUID raises ValueError or TypeError for a string that does not
   * parse and for None; both are caught and the site is skipped. Any other value
   * raises AttributeError, which nothing catches.
   */
  datatype Extraction = Refs(refs: seq<Ref>) | Crash

  // ---------------------------------------------------------------- walking

  function Decimal(n: nat): string {
    if n < 10 then [('0' as int + n) as char]
    else Decimal(n / 10) + [('0' as int + n % 10) as char]
  }

  function FullKey(prefix: string, key: string): string {
    if prefix == "" then key else prefix + "." + key
  }

  function ItemKey(full: string, i: nat): string {
    full + "[" + Decimal(i) + "]"
  }

  function Sites(d: Dict, prefix: string): seq<Site>
    decreases d
  {
    if d == [] then []
    else SitesOf(d[0].val, FullKey(prefix, d[0].key)) + Sites(d[1..], prefix)
  }

  function SitesOf(v: Json, full: string): seq<Site>
    decreases v
  {
    match v
    case Obj(es) =>
      var id := Lookup(es, "media_id");
      if id.Some? then [Site(full, id.value)] else []
    case Arr(items) => ItemSites(items, full, 0)
    case _ => []
  }

  function ItemSites(items: seq<Json>, full: string, i: nat): seq<Site>
    decreases items
  {
    if items == [] then []
    else SitesOfItem(items[0], full, i) + ItemSites(items[1..], full, i + 1)
  }

  function SitesOfItem(item: Json, full: string, i: nat): seq<Site>
    decreases item
  {
    if item.Obj? then Sites(item.entries, ItemKey(full, i)) else []
  }

  function ReadSite(codec: Codec, s: Site): Extraction {
    match s.value
    case Str(text) =>
      var u := codec.parse(text);
      Refs(if u.Some? then [Ref(s.path, u.value)] else [])
    case Null => Refs([])
    case _ => Crash
  }

  function Join(a: Extraction, b: Extraction): Extraction {
    if a.Crash? || b.Crash? then Crash else Refs(a.refs + b.refs)
  }

  function ReadSites(codec: Codec, sites: seq<Site>): Extraction {
    if sites == [] then Refs([])
    else Join(ReadSite(codec, sites[0]), ReadSites(codec, sites[1..]))
  }

  /** What `_extract_media_references(content=d)` yields. */
  function Extract(codec: Codec, d: Dict): Extraction {
    ReadSites(codec, Sites(d, ""))
  }

  lemma {:induction false} ReadSitesConcat(codec: Codec, a: seq<Site>, b: seq<Site>)
    ensures ReadSites(codec, a + b) == Join(ReadSites(codec, a), ReadSites(codec, b))
  {
    if a == [] {
      assert a + b == b;
    } else {
      assert (a + b)[1..] == a[1..] + b;
      ReadSitesConcat(codec, a[1..], b);
    }
  }

  /** One step of the walk over a dict, and one over a list. */
  lemma SitesStep(codec: Codec, d: Dict, prefix: string, i: nat)
    requires i < |d|
    ensures ReadSites(codec, Sites(d[i..], prefix))
            == Join(ReadSites(codec, SitesOf(d[i].val, FullKey(prefix, d[i].key))),
                    ReadSites(codec, Sites(d[i + 1..], prefix)))
  {
    assert d[i..][1..] == d[i + 1..];
    ReadSitesConcat(codec, SitesOf(d[i].val, FullKey(prefix, d[i].key)), Sites(d[i + 1..], prefix));
  }

  lemma ItemStep(codec: Codec, items: seq<Json>, full: string, i: nat)
    requires i < |items|
    ensures ReadSites(codec, ItemSites(items[i..], full, i))
            == Join(ReadSites(codec, SitesOfItem(items[i], full, i)),
                    ReadSites(codec, ItemSites(items[i + 1..], full, i + 1)))
  {
    assert items[i..][1..] == items[i + 1..];
    ReadSitesConcat(codec, SitesOfItem(items[i], full, i), ItemSites(items[i + 1..], full, i + 1));
  }

  lemma JoinAssociates(a: Extraction, b: Extraction, c: Extraction)
    ensures Join(Join(a, b), c) == Join(a, Join(b, c))
  {
    if !a.Crash? && !b.Crash? && !c.Crash? {
      assert (a.refs + b.refs) + c.refs == a.refs + (b.refs + c.refs);
    }
  }

  /** The walk: one list growing over nested loops. */
  method ExtractMediaReferences(codec: Codec, content: Dict, prefix: string) returns (r: Extraction)
    ensures r == ReadSites(codec, Sites(content, prefix))
    decreases content
  {
    var refs := [];
    assert content[0..] == content;
    for i := 0 to |content|
      invariant Join(Refs(refs), ReadSites(codec, Sites(content[i..], prefix)))
                == ReadSites(codec, Sites(content, prefix))
    {
      ghost var rest := ReadSites(codec, Sites(content[i + 1..], prefix));
      SitesStep(codec, content, prefix, i);
      var found := ExtractFromValue(codec, content[i].val, FullKey(prefix, content[i].key));
      JoinAssociates(Refs(refs), found, rest);
      if found.Crash? {
        return Crash;
      }
      refs := refs + found.refs;
    }
    assert content[|content|..] == [];
    return Refs(refs);
  }

  method ExtractFromValue(codec: Codec, v: Json, full: string) returns (r: Extraction)
    ensures r == ReadSites(codec, SitesOf(v, full))
    decreases v
  {
    r := Refs([]);
    match v {
      case Obj(es) =>
        var id := Lookup(es, "media_id");
        if id.Some? {
          r := ReadSite(codec, Site(full, id.value));
          assert r == ReadSites(codec, [Site(full, id.value)]);
        }
      case Arr(items) =>
        r := ExtractFromItems(codec, items, full);
      case _ =>
    }
  }

  method ExtractFromItems(codec: Codec, items: seq<Json>, full: string) returns (r: Extraction)
    ensures r == ReadSites(codec, ItemSites(items, full, 0))
    decreases items
  {
    var refs := [];
    assert items[0..] == items;
    for j := 0 to |items|
      invariant Join(Refs(refs), ReadSites(codec, ItemSites(items[j..], full, j)))
                == ReadSites(codec, ItemSites(items, full, 0))
    {
      ItemStep(codec, items, full, j);
      if items[j].Obj? {
        var sub := ExtractMediaReferences(codec, items[j].entries, ItemKey(full, j));
        JoinAssociates(Refs(refs), sub, ReadSites(codec, ItemSites(items[j + 1..], full, j + 1)));
        if sub.Crash? {
          return Crash;
        }
        refs := refs + sub.refs;
      }
    }
    assert items[|items|..] == [];
    return Refs(refs);
  }

  // ---------------------------------------------------------------- nulling

  function NullDict(d: Dict, target: string): (r: Dict)
    ensures |r| == |d|
    decreases d
  {
    seq(|d|, i requires 0 <= i < |d| => Entry(d[i].key, NullValue(d[i].val, target)))
  }

  function NullValue(v: Json, target: string): Json
    decreases v
  {
    match v
    case Obj(es) => if Lookup(es, "media_id") == Some(Str(target)) then Null else v
    case Arr(items) => Arr(NullItems(items, target))
    case _ => v
  }

  function NullItems(items: seq<Json>, target: string): (r: seq<Json>)
    ensures |r| == |items|
    decreases items
  {
    seq(|items|, i requires 0 <= i < |items| =>
      if items[i].Obj? then Obj(NullDict(items[i].entries, target)) else items[i])
  }

  /** The update, entry by entry and item by item. */
  method NullMediaIdInContent(content: Dict, target: string) returns (r: Dict)
    ensures r == NullDict(content, target)
    decreases content
  {
    r := content;
    for i := 0 to |content|
      invariant |r| == |content|
      invariant forall k :: 0 <= k < i ==> r[k] == NullDict(content, target)[k]
      invariant forall k :: i <= k < |r| ==> r[k] == content[k]
    {
      var key := content[i].key;
      match content[i].val {
      case Obj(es) =>
        if Lookup(es, "media_id") == Some(Str(target)) {
          r := r[i := Entry(key, Null)];
        }
      case Arr(items) =>
        var updated := items;
        for j := 0 to |items|
          invariant |updated| == |items|
          invariant forall k :: 0 <= k < j ==> updated[k] == NullItems(items, target)[k]
          invariant forall k :: j <= k < |items| ==> updated[k] == items[k]
        {
          if items[j].Obj? {
            var sub := NullMediaIdInContent(items[j].entries, target);
            updated := updated[j := Obj(sub)];
          }
        }
        assert updated == NullItems(items, target);
        r := r[i := Entry(key, Arr(updated))];
      case _ =>
      }
    }
  }

  // ------------------------------------------------- nulling meets walking

  /** The sites whose raw id is not the given text. */
  function OtherSites(sites: seq<Site>, target: string): seq<Site> {
    if sites == [] then []
    else (if sites[0].value == Str(target) then [] else [sites[0]]) + OtherSites(sites[1..], target)
  }

  function OtherRefs(refs: seq<Ref>, id: Uuid): seq<Ref> {
    if refs == [] then []
    else (if refs[0].id == id then [] else [refs[0]]) + OtherRefs(refs[1..], id)
  }

  lemma {:induction false} OtherSitesConcat(a: seq<Site>, b: seq<Site>, target: string)
    ensures OtherSites(a + b, target) == OtherSites(a, target) + OtherSites(b, target)
  {
    if a == [] {
      assert a + b == b;
    } else {
      assert (a + b)[1..] == a[1..] + b;
      OtherSitesConcat(a[1..], b, target);
    }
  }

  /**
   * Nulling removes exactly the sites carrying the target text: the others stay,
   * in order, with the same paths and raw values. No assumption on the content.
   */
  lemma {:induction false} NullingFiltersSites(d: Dict, prefix: string, target: string)
    ensures Sites(NullDict(d, target), prefix) == OtherSites(Sites(d, prefix), target)
    decreases d
  {
    if d != [] {
      var full := FullKey(prefix, d[0].key);
      assert NullDict(d, target)[1..] == NullDict(d[1..], target);
      NullingFiltersSites(d[1..], prefix, target);
      OtherSitesConcat(SitesOf(d[0].val, full), Sites(d[1..], prefix), target);
      NullingFiltersValue(d[0].val, full, target);
    }
  }

  lemma {:induction false} NullingFiltersValue(v: Json, full: string, target: string)
    ensures SitesOf(NullValue(v, target), full) == OtherSites(SitesOf(v, full), target)
    decreases v
  {
    if v.Arr? {
      NullingFiltersItems(v.items, full, 0, target);
    }
  }

  lemma {:induction false} NullingFiltersItems(items: seq<Json>, full: string, i: nat, target: string)
    ensures ItemSites(NullItems(items, target), full, i) == OtherSites(ItemSites(items, full, i), target)
    decreases items
  {
    if items != [] {
      assert NullItems(items, target)[1..] == NullItems(items[1..], target);
      NullingFiltersItems(items[1..], full, i + 1, target);
      var here := SitesOfItem(items[0], full, i);
      OtherSitesConcat(here, ItemSites(items[1..], full, i + 1), target);
      if items[0].Obj? {
        NullingFiltersSites(items[0].entries, ItemKey(full, i), target);
      }
    }
  }

  /** No site of the list carries the text. */
  predicate Free(sites: seq<Site>, target: string) {
    forall i :: 0 <= i < |sites| ==> sites[i].value != Str(target)
  }

  lemma {:induction false} OtherSitesAreFree(sites: seq<Site>, target: string)
    ensures Free(OtherSites(sites, target), target)
    ensures Free(sites, target) ==> OtherSites(sites, target) == sites
  {
    if sites != [] {
      OtherSitesAreFree(sites[1..], target);
      assert sites == [sites[0]] + sites[1..];
      if Free(sites, target) {
        assert forall i :: 0 <= i < |sites[1..]| ==> sites[1..][i] == sites[i + 1];
      }
    }
  }

  lemma FreeConcat(a: seq<Site>, b: seq<Site>, target: string)
    ensures Free(a + b, target) <==> Free(a, target) && Free(b, target)
  {
    assert forall i :: 0 <= i < |a| ==> a[i] == (a + b)[i];
    assert forall i :: 0 <= i < |b| ==> b[i] == (a + b)[|a| + i];
  }

  /** Nulling leaves a tree alone exactly when no site carries the target text. */
  lemma {:induction false} NullingUnchangedIffFree(d: Dict, prefix: string, target: string)
    ensures NullDict(d, target) == d <==> Free(Sites(d, prefix), target)
    decreases d
  {
    if NullDict(d, target) == d {
      NullingFiltersSites(d, prefix, target);
      OtherSitesAreFree(Sites(d, prefix), target);
    }
    if Free(Sites(d, prefix), target) && d != [] {
      var full := FullKey(prefix, d[0].key);
      var here, rest := SitesOf(d[0].val, full), Sites(d[1..], prefix);
      FreeConcat(here, rest, target);
      NullingUnchangedIffFree(d[1..], prefix, target);
      assert NullDict(d, target)[1..] == NullDict(d[1..], target);
      match d[0].val {
        case Arr(items) => FreeItemsUnchanged(items, full, 0, target);
        case Obj(es) =>
          if Lookup(es, "media_id").Some? {
            assert here[0].value != Str(target);
          }
        case _ =>
      }
      assert NullDict(d, target)[0] == d[0];
      assert NullDict(d, target) == [d[0]] + d[1..];
    }
  }

  lemma {:induction false} FreeItemsUnchanged(items: seq<Json>, full: string, i: nat, target: string)
    requires Free(ItemSites(items, full, i), target)
    ensures NullItems(items, target) == items
    decreases items
  {
    if items != [] {
      var here := SitesOfItem(items[0], full, i);
      var rest := ItemSites(items[1..], full, i + 1);
      FreeConcat(here, rest, target);
      FreeItemsUnchanged(items[1..], full, i + 1, target);
      assert NullItems(items, target)[1..] == NullItems(items[1..], target);
      if items[0].Obj? {
        NullingUnchangedIffFree(items[0].entries, ItemKey(full, i), target);
      }
      assert NullItems(items, target) == [items[0]] + items[1..];
    }
  }

  lemma NullingIsIdempotent(d: Dict, target: string)
    ensures NullDict(NullDict(d, target), target) == NullDict(d, target)
  {
    NullingFiltersSites(d, "", target);
    OtherSitesAreFree(Sites(d, ""), target);
    NullingUnchangedIffFree(NullDict(d, target), "", target);
  }

  /** Tombstoning two files clears the same content in either order. */
  lemma {:induction false} NullingCommutes(d: Dict, s: string, t: string)
    ensures NullDict(NullDict(d, s), t) == NullDict(NullDict(d, t), s)
    decreases d
  {
    forall i | 0 <= i < |d|
      ensures NullValue(NullValue(d[i].val, s), t) == NullValue(NullValue(d[i].val, t), s)
    {
      if d[i].val.Arr? {
        var items := d[i].val.items;
        forall j | 0 <= j < |items| && items[j].Obj?
          ensures NullDict(NullDict(items[j].entries, s), t) == NullDict(NullDict(items[j].entries, t), s)
        {
          NullingCommutes(items[j].entries, s, t);
        }
        assert NullItems(NullItems(items, s), t) == NullItems(NullItems(items, t), s);
      }
    }
  }

  // ---------------------------------------------- ids against their spelling

  /** Every site that denotes the file spells its id canonically. */
  predicate Canonical(codec: Codec, sites: seq<Site>, id: Uuid) {
    forall i :: 0 <= i < |sites| && sites[i].value.Str? && codec.parse(sites[i].value.s) == Some(id)
      ==> sites[i].value.s == codec.text(id)
  }

  /** `kept` is what is read after nulling, `wanted` the references other than those to the file. */
  predicate Filtered(codec: Codec, sites: seq<Site>, id: Uuid, kept: seq<Ref>, wanted: seq<Ref>) {
    && |wanted| <= |kept|
    && (Canonical(codec, sites, id) <==> kept == wanted)
  }

  lemma FilteredDrop(codec: Codec, head: Site, tail: seq<Site>, id: Uuid)
    requires codec.parse(codec.text(id)) == Some(id) && head.value == Str(codec.text(id))
    requires ReadSites(codec, [head] + tail).Refs?
    ensures ReadSites(codec, tail).Refs?
    ensures OtherSites([head] + tail, codec.text(id)) == OtherSites(tail, codec.text(id))
    ensures OtherRefs(ReadSites(codec, [head] + tail).refs, id) == OtherRefs(ReadSites(codec, tail).refs, id)
    ensures Canonical(codec, [head] + tail, id) <==> Canonical(codec, tail, id)
  {
    CanonicalConcat(codec, head, tail, id);
    OtherRefsConcat(ReadSite(codec, head).refs, ReadSites(codec, tail).refs, id);
    assert ([head] + tail)[1..] == tail;
    assert OtherRefs(ReadSite(codec, head).refs, id) == [];
  }

  lemma FilteredKeep(codec: Codec, head: Site, rest: seq<Site>, text: string)
    requires head.value != Str(text)
    requires ReadSite(codec, head).Refs? && ReadSites(codec, OtherSites(rest, text)).Refs?
    ensures ReadSites(codec, OtherSites([head] + rest, text))
            == Refs(ReadSite(codec, head).refs + ReadSites(codec, OtherSites(rest, text)).refs)
  {
    var kept := OtherSites(rest, text);
    assert ([head] + rest)[1..] == rest && ([head] + kept)[1..] == kept;
  }

  lemma FilteredOne(codec: Codec, head: Site, tail: seq<Site>, id: Uuid, kept: seq<Ref>, wanted: seq<Ref>)
    requires Filtered(codec, tail, id, kept, wanted)
    requires ReadSite(codec, head).Refs? && head.value != Str(codec.text(id))
    ensures Filtered(codec, [head] + tail, id, ReadSite(codec, head).refs + kept,
                     OtherRefs(ReadSite(codec, head).refs, id) + wanted)
  {
    var one := ReadSite(codec, head).refs;
    CanonicalConcat(codec, head, tail, id);
    if one == [] {
      assert one + kept == kept && OtherRefs(one, id) + wanted == wanted;
    } else if one[0].id == id {
      assert OtherRefs(one, id) + wanted == wanted;
      assert |one + kept| > |wanted|;
    } else {
      assert OtherRefs(one, id) == one;
      assert (one + kept)[1..] == kept && (one + wanted)[1..] == wanted;
    }
  }

  lemma {:induction false} FilteredReads(codec: Codec, sites: seq<Site>, id: Uuid)
    requires codec.parse(codec.text(id)) == Some(id)
    requires ReadSites(codec, sites).Refs?
    ensures ReadSites(codec, OtherSites(sites, codec.text(id))).Refs?
    ensures Filtered(codec, sites, id, ReadSites(codec, OtherSites(sites, codec.text(id))).refs,
                     OtherRefs(ReadSites(codec, sites).refs, id))
  {
    if sites != [] {
      var head, tail, text := sites[0], sites[1..], codec.text(id);
      assert sites == [head] + tail;
      FilteredReads(codec, tail, id);
      if head.value == Str(text) {
        FilteredDrop(codec, head, tail, id);
      } else {
        FilteredKeep(codec, head, tail, text);
        FilteredOne(codec, head, tail, id, ReadSites(codec, OtherSites(tail, text)).refs,
                    OtherRefs(ReadSites(codec, tail).refs, id));
        OtherRefsConcat(ReadSite(codec, head).refs, ReadSites(codec, tail).refs, id);
      }
    }
  }

  lemma CanonicalConcat(codec: Codec, head: Site, tail: seq<Site>, id: Uuid)
    ensures Canonical(codec, [head] + tail, id)
            <==> Canonical(codec, tail, id)
                 && (head.value.Str? && codec.parse(head.value.s) == Some(id) ==> head.value.s == codec.text(id))
  {
    var all := [head] + tail;
    assert all[0] == head;
    assert forall i :: 0 <= i < |tail| ==> tail[i] == all[i + 1];
    assert forall i :: 1 <= i < |all| ==> all[i] == tail[i - 1];
  }

  lemma {:induction false} OtherRefsConcat(a: seq<Ref>, b: seq<Ref>, id: Uuid)
    ensures OtherRefs(a + b, id) == OtherRefs(a, id) + OtherRefs(b, id)
  {
    if a == [] {
      assert a + b == b;
    } else {
      assert (a + b)[1..] == a[1..] + b;
      OtherRefsConcat(a[1..], b, id);
    }
  }

  /**
   * Nulling a file's printed id turns the extracted references into the old list
   * with that file filtered out if and only if the content spells the id
   * canonically wherever it means that file.
   */
  lemma NullingFiltersReferences(codec: Codec, d: Dict, id: Uuid)
    requires Lawful(codec)
    requires Extract(codec, d).Refs?
    ensures Extract(codec, NullDict(d, codec.text(id))).Refs?
    ensures Extract(codec, NullDict(d, codec.text(id))).refs == OtherRefs(Extract(codec, d).refs, id)
            <==> Canonical(codec, Sites(d, ""), id)
  {
    NullingFiltersSites(d, "", codec.text(id));
    FilteredReads(codec, Sites(d, ""), id);
  }

  /** Ids spelled in unary, read in either case: a lawful parser with a second spelling for id 0. */
  const UNARY_CODEC := Codec(
    s => if s == "A" then Some(0)
         else if |s| > 0 && (forall i :: 0 <= i < |s| ==> s[i] == 'a') then Some(|s| - 1)
         else None,
    (u: Uuid) => seq(u + 1, _ => 'a'))

  lemma UnaryIsLawful()
    ensures Lawful(UNARY_CODEC)
  {
    forall u: Uuid ensures UNARY_CODEC.parse(UNARY_CODEC.text(u)) == Some(u) {
      assert UNARY_CODEC.text(u)[0] == 'a' && "A"[0] == 'A';
    }
  }

  /** A second spelling of an id keeps a reference that nulling cannot see. */
  lemma OtherSpellingSurvives(codec: Codec, s: string, id: Uuid)
    requires codec.parse(s) == Some(id) && s != codec.text(id)
    ensures
      var d := [Entry("hero", Obj([Entry("media_id", Str(s))]))];
      Extract(codec, d) == Refs([Ref("hero", id)]) && NullDict(d, codec.text(id)) == d
  {
    var es := [Entry("media_id", Str(s))];
    var d := [Entry("hero", Obj(es))];
    var sites := [Site("hero", Str(s))];
    assert Lookup(es, "media_id") == Some(Str(s));
    assert Sites(d[1..], "") == [];
    assert Sites(d, "") == sites;
    assert ReadSites(codec, sites[1..]) == Refs([]);
    assert ReadSite(codec, sites[0]) == Refs([Ref("hero", id)]);
    assert Free(sites, codec.text(id));
    NullingUnchangedIffFree(d, "", codec.text(id));
  }

  lemma UnaryUppercase()
    ensures UNARY_CODEC.parse("A") == Some(0) && UNARY_CODEC.text(0) != "A"
  {
    assert UNARY_CODEC.text(0)[0] == 'a' && "A"[0] == 'A';
  }

  /** An upper-case reference outlives the tombstoning of its file. */
  lemma UppercaseReferenceSurvives()
    ensures Lawful(UNARY_CODEC)
    ensures
      var d := [Entry("hero", Obj([Entry("media_id", Str("A"))]))];
      && Extract(UNARY_CODEC, d) == Refs([Ref("hero", 0)])
      && NullDict(d, UNARY_CODEC.text(0)) == d
  {
    UnaryIsLawful();
    UnaryUppercase();
    OtherSpellingSurvives(UNARY_CODEC, "A", 0);
  }
}
