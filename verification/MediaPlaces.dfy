// The walk and the clearing of media references, told by following places into a tree:
// an entry of the document, or an entry of an object some list items down.

module MediaPlaces {
  import opened Wrappers
  import opened JsonTree
  import opened MediaRefs

  /** From a document into item `item` of the list at entry `entry`. */
  datatype Hop = Hop(entry: nat, item: nat)

  predicate CanHop(d: Dict, h: Hop) {
    && h.entry < |d| && d[h.entry].val.Arr?
    && h.item < |d[h.entry].val.items| && d[h.entry].val.items[h.item].Obj?
  }

  function HopInto(d: Dict, h: Hop): Dict
    requires CanHop(d, h)
  {
    d[h.entry].val.items[h.item].entries
  }

  function Dotted(prefix: string, key: string): string {
    if prefix == "" then key else prefix + "." + key
  }

  /** The dotted key under which the fields of a list item are reported: `list[2]`, or `outer[0].list[2]`. */
  function HopKey(d: Dict, prefix: string, h: Hop): string
    requires CanHop(d, h)
  {
    Dotted(prefix, d[h.entry].key) + "[" + Decimal(h.item) + "]"
  }

  /** The object some hops down, with its key. */
  function Descend(d: Dict, prefix: string, hops: seq<Hop>): Option<(Dict, string)> {
    if hops == [] then Some((d, prefix))
    else if CanHop(d, hops[0]) then Descend(HopInto(d, hops[0]), HopKey(d, prefix, hops[0]), hops[1..])
    else None
  }

  function EntryAt(d: Dict, hops: seq<Hop>, entry: nat): Option<Entry> {
    var o := Descend(d, "", hops);
    if o.Some? && entry < |o.value.0| then Some(o.value.0[entry]) else None
  }

  /** A place holds a site if there is an object with a media id. */
  function SiteAt(d: Dict, prefix: string, hops: seq<Hop>, entry: nat): Option<Site> {
    var o := Descend(d, prefix, hops);
    if o.None? || entry >= |o.value.0| then None
    else
      var (inner, key) := o.value;
      var e := inner[entry];
      if e.val.Obj? && Lookup(e.val.entries, "media_id").Some?
      then Some(Site(Dotted(key, e.key), Lookup(e.val.entries, "media_id").value))
      else None
  }

  lemma {:induction false} SitesByEntry(d: Dict, prefix: string, s: Site)
    ensures s in Sites(d, prefix)
            <==> exists i :: 0 <= i < |d| && s in SitesOf(d[i].val, FullKey(prefix, d[i].key))
  {
    if d != [] {
      SitesByEntry(d[1..], prefix, s);
      assert forall i :: 1 <= i < |d| ==> d[i] == d[1..][i - 1];
      if s in Sites(d[1..], prefix) {
        var i :| 0 <= i < |d[1..]| && s in SitesOf(d[1..][i].val, FullKey(prefix, d[1..][i].key));
        assert d[i + 1] == d[1..][i];
      }
    }
  }

  lemma {:induction false} SitesByItem(items: seq<Json>, full: string, n: nat, s: Site)
    ensures s in ItemSites(items, full, n)
            <==> exists j :: 0 <= j < |items| && s in SitesOfItem(items[j], full, n + j)
  {
    if items != [] {
      SitesByItem(items[1..], full, n + 1, s);
      assert forall j :: 1 <= j < |items| ==> items[j] == items[1..][j - 1];
      if s in ItemSites(items[1..], full, n + 1) {
        var j :| 0 <= j < |items[1..]| && s in SitesOfItem(items[1..][j], full, n + 1 + j);
        assert items[j + 1] == items[1..][j] && n + (j + 1) == n + 1 + j;
      }
    }
  }

  lemma DescendFirst(d: Dict, prefix: string, h: Hop, hops: seq<Hop>)
    requires CanHop(d, h)
    ensures Descend(d, prefix, [h] + hops) == Descend(HopInto(d, h), HopKey(d, prefix, h), hops)
  {
    assert ([h] + hops)[1..] == hops;
  }

  lemma HopKeyIs(d: Dict, prefix: string, h: Hop)
    requires CanHop(d, h)
    ensures HopKey(d, prefix, h) == ItemKey(FullKey(prefix, d[h.entry].key), h.item)
  {
  }

  lemma {:induction false} WalkedIsPlaced(d: Dict, prefix: string, s: Site) returns (hops: seq<Hop>, entry: nat)
    requires s in Sites(d, prefix)
    ensures SiteAt(d, prefix, hops, entry) == Some(s)
    decreases d
  {
    SitesByEntry(d, prefix, s);
    var i :| 0 <= i < |d| && s in SitesOf(d[i].val, FullKey(prefix, d[i].key));
    if d[i].val.Obj? {
      hops, entry := [], i;
    } else {
      var items, full := d[i].val.items, FullKey(prefix, d[i].key);
      SitesByItem(items, full, 0, s);
      var j :| 0 <= j < |items| && s in SitesOfItem(items[j], full, 0 + j);
      var deeper, last := WalkedIsPlaced(items[j].entries, ItemKey(full, j), s);
      HopKeyIs(d, prefix, Hop(i, j));
      DescendFirst(d, prefix, Hop(i, j), deeper);
      hops, entry := [Hop(i, j)] + deeper, last;
    }
  }

  lemma {:induction false} PlacedIsWalked(d: Dict, prefix: string, hops: seq<Hop>, entry: nat)
    requires SiteAt(d, prefix, hops, entry).Some?
    ensures SiteAt(d, prefix, hops, entry).value in Sites(d, prefix)
    decreases |hops|
  {
    var s := SiteAt(d, prefix, hops, entry).value;
    if hops == [] {
      assert s in SitesOf(d[entry].val, FullKey(prefix, d[entry].key));
    } else {
      var h := hops[0];
      var items, full := d[h.entry].val.items, FullKey(prefix, d[h.entry].key);
      HopKeyIs(d, prefix, h);
      assert hops == [h] + hops[1..];
      DescendFirst(d, prefix, h, hops[1..]);
      PlacedIsWalked(HopInto(d, h), HopKey(d, prefix, h), hops[1..], entry);
      assert s in SitesOfItem(items[h.item], full, 0 + h.item);
      SitesByItem(items, full, 0, s);
      assert s in SitesOf(d[h.entry].val, full);
    }
    SitesByEntry(d, prefix, s);
  }

  /**
   * The walk finds exactly the objects with a media id that are entries of the document or
   * of objects reached through lists, each under its dotted key. An object that is itself a
   * list item is not one of them.
   */
  lemma WalkFindsExactly(d: Dict, s: Site)
    ensures s in Sites(d, "") <==> exists hops, entry: nat :: SiteAt(d, "", hops, entry) == Some(s)
  {
    if s in Sites(d, "") {
      var hops, entry := WalkedIsPlaced(d, "", s);
    }
    if hops, entry: nat :| SiteAt(d, "", hops, entry) == Some(s) {
      PlacedIsWalked(d, "", hops, entry);
    }
  }

  /**
   * Reading sites fails exactly on a value that is neither a string nor null; else it gives
   * exactly the ids that the strings denote.
   */
  lemma {:induction false} ReadsExactly(codec: Codec, sites: seq<Site>, r: Ref)
    ensures ReadSites(codec, sites).Crash? <==> exists s <- sites :: !s.value.Str? && !s.value.Null?
    ensures ReadSites(codec, sites).Refs? ==>
      (r in ReadSites(codec, sites).refs
       <==> exists s <- sites :: s.value.Str? && codec.parse(s.value.s) == Some(r.id) && s.path == r.path)
  {
    if sites != [] {
      ReadsExactly(codec, sites[1..], r);
      assert sites == [sites[0]] + sites[1..];
    }
  }

  // ---------------------------------------------------------------- clearing

  lemma HopCleared(d: Dict, target: string, h: Hop)
    ensures CanHop(NullDict(d, target), h) <==> CanHop(d, h)
    ensures CanHop(d, h) ==> HopInto(NullDict(d, target), h) == NullDict(HopInto(d, h), target)
    ensures CanHop(d, h) ==> NullDict(d, target)[h.entry].key == d[h.entry].key
  {
    if h.entry < |d| {
      assert NullDict(d, target)[h.entry] == Entry(d[h.entry].key, NullValue(d[h.entry].val, target));
    }
  }

  lemma {:induction false} DescendCleared(d: Dict, prefix: string, target: string, hops: seq<Hop>)
    ensures Descend(NullDict(d, target), prefix, hops)
            == match Descend(d, prefix, hops)
               case None => None
               case Some((inner, key)) => Some((NullDict(inner, target), key))
    decreases |hops|
  {
    if hops != [] {
      HopCleared(d, target, hops[0]);
    }
    if hops != [] && CanHop(d, hops[0]) {
      DescendCleared(HopInto(d, hops[0]), HopKey(d, prefix, hops[0]), target, hops[1..]);
    }
  }

  /** What clearing makes of one value: null for an object naming the file, and nothing else new. */
  predicate ClearedValue(v: Json, w: Json, target: string) {
    match v
    case Obj(es) => w == if Lookup(es, "media_id") == Some(Str(target)) then Null else v
    case Arr(items) =>
      && w.Arr? && |w.items| == |items|
      && forall i :: 0 <= i < |items| ==> if items[i].Obj? then w.items[i].Obj? else w.items[i] == items[i]
    case _ => w == v
  }

  lemma ValueCleared(v: Json, target: string)
    ensures ClearedValue(v, NullValue(v, target), target)
  {
    if v.Arr? {
      assert NullValue(v, target).items == NullItems(v.items, target);
    }
  }

  /** At every place of the tree, clearing keeps the key and makes exactly that of the value. */
  lemma ClearedAtPlaces(d: Dict, target: string, hops: seq<Hop>, entry: nat)
    ensures EntryAt(NullDict(d, target), hops, entry).Some? <==> EntryAt(d, hops, entry).Some?
    ensures EntryAt(d, hops, entry).Some? ==>
      var e, c := EntryAt(d, hops, entry).value, EntryAt(NullDict(d, target), hops, entry).value;
      c.key == e.key && ClearedValue(e.val, c.val, target)
  {
    DescendCleared(d, "", target, hops);
    var o := Descend(d, "", hops);
    if o.Some? && entry < |o.value.0| {
      var e := o.value.0[entry];
      ValueCleared(e.val, target);
      assert NullDict(o.value.0, target)[entry] == Entry(e.key, NullValue(e.val, target));
    }
  }

  // ----------------------------------------------------------------- indices

  /** The number a string of digits denotes. */
  function Denoted(s: string): nat
    requires forall i :: 0 <= i < |s| ==> '0' <= s[i] <= '9'
  {
    if s == "" then 0 else 10 * Denoted(s[..|s| - 1]) + (s[|s| - 1] as nat - '0' as nat)
  }

  /** List positions are printed in decimal. */
  lemma {:induction false} DecimalDenotes(n: nat)
    ensures Decimal(n) != "" && forall i :: 0 <= i < |Decimal(n)| ==> '0' <= Decimal(n)[i] <= '9'
    ensures Denoted(Decimal(n)) == n
  {
    if n >= 10 {
      DecimalDenotes(n / 10);
      var s := Decimal(n);
      assert s[..|s| - 1] == Decimal(n / 10);
    } else {
      assert Decimal(n)[..0] == "";
    }
  }

  /** Looking a key up finds its first entry. */
  lemma {:induction false} LookupFindsFirst(d: Dict, k: string)
    ensures Lookup(d, k).None? <==> forall i :: 0 <= i < |d| ==> d[i].key != k
    ensures Lookup(d, k).Some? ==>
      exists i :: 0 <= i < |d| && d[i] == Entry(k, Lookup(d, k).value) && forall j :: 0 <= j < i ==> d[j].key != k
  {
    if d != [] && d[0].key != k {
      LookupFindsFirst(d[1..], k);
      assert forall i :: 1 <= i < |d| ==> d[i] == d[1..][i - 1];
      if Lookup(d, k).Some? {
        var i :| 0 <= i < |d[1..]| && d[1..][i] == Entry(k, Lookup(d, k).value)
                 && forall j :: 0 <= j < i ==> d[1..][j].key != k;
        assert d[i + 1] == d[1..][i];
      }
    }
  }
}
