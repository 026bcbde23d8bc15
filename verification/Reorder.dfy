// Reordering pages, sections and blocks: two passes of single-row updates under a
// unique constraint on (parent, order). The three reorder functions of the CMS are
// the same algorithm on three tables.

module Reorder {
  import opened Wrappers

  type Id = nat

  datatype Row = Row(parent: Id, order: nat)

  type Table = map<Id, Row>

  datatype ReorderError = IdsMustMatch | UniqueViolation

  const OFFSET := 100000

  predicate Unique(rows: Table) {
    forall a, b :: a in rows && b in rows && a != b && rows[a].parent == rows[b].parent
      ==> rows[a].order != rows[b].order
  }

  function Members(rows: Table, parent: Id): set<Id> {
    set x | x in rows && rows[x].parent == parent
  }

  function Elements(ids: seq<Id>): set<Id> {
    set x | x in ids
  }

  function Write(rows: Table, id: Id, order: nat): Table {
    if id in rows then rows[id := rows[id].(order := order)] else rows
  }

  /** The table after the first `n` updates of a pass that writes base, base+1, ... */
  function Pass(rows: Table, ids: seq<Id>, base: nat, n: nat): Table
    requires n <= |ids|
  {
    if n == 0 then rows
    else Write(Pass(rows, ids, base, n - 1), ids[n - 1], base + n - 1)
  }

  /** The table after the first `n` of the 2 * |ids| updates. */
  function After(rows: Table, ids: seq<Id>, n: nat): Table
    requires n <= 2 * |ids|
  {
    if n <= |ids| then Pass(rows, ids, OFFSET, n)
    else Pass(Pass(rows, ids, OFFSET, |ids|), ids, 0, n - |ids|)
  }

  /** The last position of `x` among the first `n` ids. */
  function LastIndex(ids: seq<Id>, x: Id, n: nat): (i: nat)
    requires n <= |ids| && x in ids[..n]
    ensures i < n && ids[i] == x
    ensures forall j :: i < j < n ==> ids[j] != x
  {
    if ids[n - 1] == x then n - 1 else LastIndex(ids, x, n - 1)
  }

  /**
   * Some row still waiting for its first update already holds the order a first-pass
   * update writes.
   */
  ghost predicate Collision(rows: Table, ids: seq<Id>) {
    exists i, x :: Collides(rows, ids, i, x)
  }

  ghost predicate Collides(rows: Table, ids: seq<Id>, i: int, x: Id) {
    0 <= i < |ids| && x in ids && x in rows && x !in ids[..i + 1] && rows[x].order == OFFSET + i
  }

  lemma {:induction false} PassOrders(rows: Table, ids: seq<Id>, base: nat, n: nat, x: Id)
    requires n <= |ids| && x in rows
    ensures Pass(rows, ids, base, n).Keys == rows.Keys
    ensures Pass(rows, ids, base, n)[x]
            == Row(rows[x].parent, if x in ids[..n] then base + LastIndex(ids, x, n) else rows[x].order)
  {
    if n > 0 {
      PassOrders(rows, ids, base, n - 1, x);
      assert ids[..n] == ids[..n - 1] + [ids[n - 1]];
    }
  }

  lemma {:induction false} PassKeys(rows: Table, ids: seq<Id>, base: nat, n: nat)
    requires n <= |ids|
    ensures Pass(rows, ids, base, n).Keys == rows.Keys
  {
    if n > 0 {
      PassKeys(rows, ids, base, n - 1);
    }
  }

  ghost predicate Sound(rows: Table, parent: Id, ids: seq<Id>) {
    Unique(rows) && Members(rows, parent) == Elements(ids)
  }

  lemma OutsideIsUntouched(rows: Table, parent: Id, ids: seq<Id>, x: Id)
    requires Sound(rows, parent, ids) && x in rows
    ensures x in ids <==> rows[x].parent == parent
  {
    assert x in Members(rows, parent) <==> x in Elements(ids);
  }

  lemma FirstPassUnique(rows: Table, parent: Id, ids: seq<Id>, n: nat)
    requires Sound(rows, parent, ids) && n <= |ids| && !Collision(rows, ids)
    ensures Unique(Pass(rows, ids, OFFSET, n))
  {
    var now := Pass(rows, ids, OFFSET, n);
    PassKeys(rows, ids, OFFSET, n);
    forall a, b | a in now && b in now && a != b && now[a].parent == now[b].parent
      ensures now[a].order != now[b].order
    {
      PassOrders(rows, ids, OFFSET, n, a);
      PassOrders(rows, ids, OFFSET, n, b);
      OutsideIsUntouched(rows, parent, ids, a);
      OutsideIsUntouched(rows, parent, ids, b);
      if a in ids[..n] && b !in ids[..n] {
        assert !Collides(rows, ids, LastIndex(ids, a, n), b);
      }
      if b in ids[..n] && a !in ids[..n] {
        assert !Collides(rows, ids, LastIndex(ids, b, n), a);
      }
    }
  }

  lemma SecondPassUnique(rows: Table, parent: Id, ids: seq<Id>, n: nat)
    requires Sound(rows, parent, ids) && n <= |ids|
    ensures Unique(Pass(Pass(rows, ids, OFFSET, |ids|), ids, 0, n))
  {
    var mid := Pass(rows, ids, OFFSET, |ids|);
    var now := Pass(mid, ids, 0, n);
    assert ids[..|ids|] == ids;
    PassKeys(rows, ids, OFFSET, |ids|);
    PassKeys(mid, ids, 0, n);
    forall a, b | a in now && b in now && a != b && now[a].parent == now[b].parent
      ensures now[a].order != now[b].order
    {
      forall x | x == a || x == b
        ensures now[x] == Row(rows[x].parent, if x in ids[..n] then LastIndex(ids, x, n)
                                              else if x in ids then OFFSET + LastIndex(ids, x, |ids|)
                                              else rows[x].order)
        ensures x in ids <==> rows[x].parent == parent
      {
        PassOrders(rows, ids, OFFSET, |ids|, x);
        PassOrders(mid, ids, 0, n, x);
        OutsideIsUntouched(rows, parent, ids, x);
      }
    }
  }

  lemma NoCollisionUnique(rows: Table, parent: Id, ids: seq<Id>, n: nat)
    requires Sound(rows, parent, ids) && n <= 2 * |ids| && !Collision(rows, ids)
    ensures Unique(After(rows, ids, n))
  {
    if n <= |ids| {
      FirstPassUnique(rows, parent, ids, n);
    } else {
      SecondPassUnique(rows, parent, ids, n - |ids|);
    }
  }

  lemma CollisionBreaks(rows: Table, parent: Id, ids: seq<Id>) returns (n: nat)
    requires Sound(rows, parent, ids) && Collision(rows, ids)
    ensures 0 < n <= |ids| && !Unique(After(rows, ids, n))
  {
    var i, x :| Collides(rows, ids, i, x);
    n := i + 1;
    assert ids[i] in Elements(ids) && x in Elements(ids);
    var now := Pass(rows, ids, OFFSET, n);
    PassOrders(rows, ids, OFFSET, n, x);
    PassOrders(rows, ids, OFFSET, n, ids[i]);
    assert ids[i] == ids[..n][i];
    assert now[x].order == now[ids[i]].order && now[x].parent == now[ids[i]].parent;
  }

  /**
   * The constraint holds after every single update of both passes if and only if no
   * waiting row holds an order the first pass is about to write. The id list may
   * repeat ids and may be of any length.
   */
  lemma EveryUpdateUniqueIffNoCollision(rows: Table, parent: Id, ids: seq<Id>)
    requires Sound(rows, parent, ids)
    ensures (forall n: nat :: n <= 2 * |ids| ==> Unique(After(rows, ids, n))) <==> !Collision(rows, ids)
  {
    if Collision(rows, ids) {
      var n := CollisionBreaks(rows, parent, ids);
    } else {
      forall n: nat | n <= 2 * |ids| ensures Unique(After(rows, ids, n)) {
        NoCollisionUnique(rows, parent, ids, n);
      }
    }
  }

  /** Orders below the offset, as any reorder leaves them, cannot collide. */
  lemma SmallOrdersNeverCollide(rows: Table, ids: seq<Id>)
    requires forall x :: x in rows && x in ids ==> rows[x].order < OFFSET
    ensures !Collision(rows, ids)
  {
  }

  /** Two rows of one parent, one of them already at the offset: the first update is refused. */
  lemma OffsetOrderCollides()
    ensures
      var rows: Table := map[0 := Row(7, 1), 1 := Row(7, OFFSET)];
      && Sound(rows, 7, [0, 1]) && Collision(rows, [0, 1]) && !Unique(After(rows, [0, 1], 1))
  {
    var rows: Table := map[0 := Row(7, 1), 1 := Row(7, OFFSET)];
    var ids := [0, 1];
    assert ids[..1] == [0];
    assert 0 in Elements(ids) && 1 in Elements(ids) by {
      assert ids[0] == 0 && ids[1] == 1;
    }
    assert Collides(rows, ids, 0, 1);
    assert Pass(rows, ids, OFFSET, 0) == rows;
    assert After(rows, ids, 1)[0].order == OFFSET == After(rows, ids, 1)[1].order;
  }

  /** After a completed reorder each listed row holds its last position, and other rows are untouched. */
  predicate Reordered(before: Table, after: Table, ids: seq<Id>) {
    && after.Keys == before.Keys
    && forall x :: x in before ==>
         after[x] == if x in ids then Row(before[x].parent, LastIndex(ids, x, |ids|)) else before[x]
  }

  lemma CompletedReorder(rows: Table, ids: seq<Id>)
    ensures Reordered(rows, After(rows, ids, 2 * |ids|), ids)
  {
    var mid := Pass(rows, ids, OFFSET, |ids|);
    assert ids[..|ids|] == ids;
    if ids == [] {
      assert After(rows, ids, 0) == rows;
    } else {
      PassKeys(rows, ids, OFFSET, |ids|);
      PassKeys(mid, ids, 0, |ids|);
      forall x | x in rows
        ensures After(rows, ids, 2 * |ids|)[x]
                == if x in ids then Row(rows[x].parent, LastIndex(ids, x, |ids|)) else rows[x]
      {
        PassOrders(rows, ids, OFFSET, |ids|, x);
        PassOrders(mid, ids, 0, |ids|, x);
      }
    }
  }

  predicate NoRepeats(ids: seq<Id>) {
    forall i, j :: 0 <= i < j < |ids| ==> ids[i] != ids[j]
  }

  /** `listing` is the parent's rows in ascending order: what `order_by("order")` returns. */
  predicate Listing(rows: Table, parent: Id, listing: seq<Id>) {
    && Elements(listing) == Members(rows, parent)
    && (forall i :: 0 <= i < |listing| ==> listing[i] in rows)
    && forall i, j :: 0 <= i < j < |listing| ==> rows[listing[i]].order < rows[listing[j]].order
  }

  lemma {:induction false} ElementCount(ids: seq<Id>)
    requires NoRepeats(ids)
    ensures |Elements(ids)| == |ids|
  {
    if ids != [] {
      var init, last := ids[..|ids| - 1], ids[|ids| - 1];
      ElementCount(init);
      assert Elements(ids) == Elements(init) + {last};
      assert last !in Elements(init);
    }
  }

  lemma {:induction false} RisingFrom(rows: Table, listing: seq<Id>, k: nat, j: nat)
    requires k <= j < |listing|
    requires forall i :: 0 <= i < |listing| ==> listing[i] in rows
    requires forall a, b :: 0 <= a < b < |listing| ==> rows[listing[a]].order < rows[listing[b]].order
    ensures rows[listing[k]].order + (j - k) <= rows[listing[j]].order
    decreases j - k
  {
    if k < j {
      RisingFrom(rows, listing, k, j - 1);
    }
  }

  /** For a repeat-free list, sorting by the new orders gives back exactly the list. */
  lemma ListingIsTheGivenList(before: Table, after: Table, parent: Id, ids: seq<Id>, listing: seq<Id>)
    requires Sound(before, parent, ids) && NoRepeats(ids) && Reordered(before, after, ids)
    requires Listing(after, parent, listing)
    ensures listing == ids
  {
    assert Members(after, parent) == Members(before, parent);
    assert NoRepeats(listing);
    ElementCount(ids);
    ElementCount(listing);
    forall k | 0 <= k < |ids| ensures listing[k] == ids[k] {
      forall j | 0 <= j < |ids|
        ensures listing[j] in ids && after[listing[j]].order == LastIndex(ids, listing[j], |ids|)
      {
        assert listing[j] in Elements(listing);
      }
      RisingFrom(after, listing, 0, k);
      RisingFrom(after, listing, k, |ids| - 1);
      var at := LastIndex(ids, listing[k], |ids|);
    }
  }

  /** Every one of the first `n` updates of a pass leaves the constraint intact. */
  predicate PassHolds(rows: Table, ids: seq<Id>, base: nat, n: nat)
    requires n <= |ids|
  {
    n == 0 || (PassHolds(rows, ids, base, n - 1) && Unique(Pass(rows, ids, base, n)))
  }

  lemma {:induction false} FirstPassHolds(rows: Table, parent: Id, ids: seq<Id>, n: nat)
    requires Sound(rows, parent, ids) && n <= |ids| && !Collision(rows, ids)
    ensures PassHolds(rows, ids, OFFSET, n)
  {
    if n > 0 {
      FirstPassHolds(rows, parent, ids, n - 1);
      FirstPassUnique(rows, parent, ids, n);
    }
  }

  lemma {:induction false} SecondPassHolds(rows: Table, parent: Id, ids: seq<Id>, n: nat)
    requires Sound(rows, parent, ids) && n <= |ids|
    ensures PassHolds(Pass(rows, ids, OFFSET, |ids|), ids, 0, n)
  {
    if n > 0 {
      SecondPassHolds(rows, parent, ids, n - 1);
      SecondPassUnique(rows, parent, ids, n);
    }
  }

  lemma {:induction false} HoldsEarlier(rows: Table, ids: seq<Id>, base: nat, m: nat, n: nat)
    requires 0 < m <= n <= |ids| && PassHolds(rows, ids, base, n)
    ensures Unique(Pass(rows, ids, base, m))
  {
    if m < n {
      HoldsEarlier(rows, ids, base, m, n - 1);
    }
  }

  lemma FirstPassHoldsIff(rows: Table, parent: Id, ids: seq<Id>)
    requires Sound(rows, parent, ids)
    ensures PassHolds(rows, ids, OFFSET, |ids|) <==> !Collision(rows, ids)
  {
    if Collision(rows, ids) {
      var n := CollisionBreaks(rows, parent, ids);
      if PassHolds(rows, ids, OFFSET, |ids|) {
        HoldsEarlier(rows, ids, OFFSET, n, |ids|);
      }
    } else {
      FirstPassHolds(rows, parent, ids, |ids|);
    }
  }

  // ------------------------------------------------------------------ table

  class OrderTable {
    var rows: Table

    constructor (rows: Table)
      ensures this.rows == rows
    {
      this.rows := rows;
    }

    /** One `UPDATE ... SET order = v WHERE id = i`, refused when it breaks the constraint. */
    method Update(id: Id, order: nat) returns (ok: bool)
      modifies this
      ensures ok <==> Unique(Write(old(rows), id, order))
      ensures rows == if ok then Write(old(rows), id, order) else old(rows)
    {
      var next := rows;
      if id in next {
        next := next[id := next[id].(order := order)];
      }
      ok := Unique(next);
      if ok {
        rows := next;
      }
    }

    /** One pass of updates, stopping at the first refusal. */
    method WritePass(ids: seq<Id>, base: nat) returns (ok: bool)
      modifies this
      ensures ok <==> PassHolds(old(rows), ids, base, |ids|)
      ensures ok ==> rows == Pass(old(rows), ids, base, |ids|)
    {
      ghost var start := rows;
      ok := true;
      for index := 0 to |ids|
        invariant rows == Pass(start, ids, base, index) && PassHolds(start, ids, base, index)
      {
        ok := Update(ids[index], base + index);
        if !ok {
          if PassHolds(start, ids, base, |ids|) {
            HoldsEarlier(start, ids, base, index + 1, |ids|);
          }
          return;
        }
      }
      ok := true;
    }

    /** The transaction: both passes, or nothing. */
    method ReorderChildren(parent: Id, ids: seq<Id>) returns (err: Option<ReorderError>)
      requires Unique(rows)
      modifies this
      ensures Unique(rows)
      ensures err == Some(IdsMustMatch) <==> Members(old(rows), parent) != Elements(ids)
      ensures err == Some(UniqueViolation) <==>
        Members(old(rows), parent) == Elements(ids) && Collision(old(rows), ids)
      ensures err.Some? ==> rows == old(rows)
      ensures err.None? ==> Reordered(old(rows), rows, ids)
    {
      if Members(rows, parent) != Elements(ids) {
        return Some(IdsMustMatch);
      }
      var saved := rows;
      FirstPassHoldsIff(saved, parent, ids);
      var ok := WritePass(ids, OFFSET);
      if ok {
        SecondPassHolds(saved, parent, ids, |ids|);
        ok := WritePass(ids, 0);
      }
      if !ok {
        rows := saved;
        return Some(UniqueViolation);
      }
      CompletedReorder(saved, ids);
      SecondPassUnique(saved, parent, ids, |ids|);
      return None;
    }
  }
}
