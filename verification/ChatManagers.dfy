// Who can manage a group: the guard of the membership calls accepts only a user who is an
// active admin, so an admin that is a business or the platform does not count.

module ChatManagers {
  import opened Wrappers
  import opened Chat
  import opened ChatInvariants
  import opened ChatShapes
  import opened ChatTheorems
  import opened Messenger

  function Manages(): Row -> bool {
    (r: Row) => r.active && r.role == Admin && r.who.kind == User
  }

  function ManagerCount(rows: seq<Row>): nat {
    CountRows(rows, Manages())
  }

  predicate Managed(c: Conversation) {
    exists r <- c.rows :: r.active && r.role == Admin && r.who.kind == User
  }

  /** Exactly then the guard lets some user through. */
  lemma ManagedIffSomeoneCan(c: Conversation)
    requires c.kind == Group
    ensures Managed(c) <==> exists user: Id :: CanManage(c, user)
  {
    if r :| r in c.rows && r.active && r.role == Admin && r.who.kind == User {
      assert CanManage(c, r.who.id);
    }
  }

  lemma ManagedIffCount(c: Conversation)
    ensures Managed(c) <==> ManagerCount(c.rows) > 0
  {
    CountPositive(c.rows, Manages());
    if r :| r in c.rows && Manages()(r) {
      var i :| 0 <= i < |c.rows| && c.rows[i] == r;
      assert Manages()(c.rows[i]);
    }
    if i :| 0 <= i < |c.rows| && Manages()(c.rows[i]) {
      assert c.rows[i] in c.rows;
    }
  }

  lemma ManagedAfterUpdate(c: Conversation, k: nat, row: Row)
    requires k < |c.rows|
    ensures
      var n := ManagerCount(c.rows) - (if Manages()(c.rows[k]) then 1 else 0) + (if Manages()(row) then 1 else 0);
      Managed(c.(rows := c.rows[k := row])) <==> n > 0
  {
    ManagedIffCount(c.(rows := c.rows[k := row]));
    CountUpdate(c.rows, k, row, Manages());
  }

  // ------------------------------------------------------------- call by call

  /** The rows once a user's row is inactive. */
  function RowsLeft(rows: seq<Row>, k: nat): seq<Row>
    requires k < |rows|
  {
    rows[k := rows[k].(active := false)]
  }

  /**
   * The call takes the last manager away: it removes or demotes the only one, or the only
   * one leaves while an admin that is no user remains, or an heir that is no user succeeds.
   */
  predicate Orphans(c: Conversation, call: Call) {
    match call
    case RemoveCall(pk, _, _) =>
      ManagerCount(c.rows) == 1 && exists r <- c.rows :: Manages()(r) && r.pk == pk
    case DemoteCall(target, _, _) =>
      var k := NewestWithId(c.rows, target, |c.rows|);
      ManagerCount(c.rows) == 1 && k.Some? && Manages()(c.rows[k.value])
    case LeaveCall(user, _) =>
      var k := FindRow(c.rows, ActiveAs(Identity(User, user)));
      && k.Some?
      && var left := RowsLeft(c.rows, k.value);
         var heir := Oldest(left, |left|);
         && ManagerCount(left) == 0 && heir.Some?
         && (AdminCount(left) > 0 || left[heir.value].who.kind != User)
    case _ => false
  }

  lemma RemoveKeepsManagedIff(cfg: Config, c: Conversation, id: Id, pk: Id, actor: Id, now: int)
    requires OneRowEach(c.rows, id) && Managed(c) && Remove(cfg, c, id, pk, actor, now).Ok?
    ensures Managed(Remove(cfg, c, id, pk, actor, now).value) <==> !Orphans(c, RemoveCall(pk, actor, now))
  {
    var k := FindRow(c.rows, (r: Row) => r.active && r.pk == pk).value;
    ManagedIffCount(c);
    ManagedAfterUpdate(c, k, c.rows[k].(active := false));
    assert c.rows[k] in c.rows;
    if r :| r in c.rows && Manages()(r) && r.pk == pk {
      var i :| 0 <= i < |c.rows| && c.rows[i] == r;
      assert i == k;
    }
  }

  lemma DemoteKeepsManagedIff(cfg: Config, c: Conversation, id: Id, target: Id, actor: Id, now: int)
    requires Managed(c) && Demote(cfg, c, id, target, actor, now).Ok?
    ensures Managed(Demote(cfg, c, id, target, actor, now).value) <==> !Orphans(c, DemoteCall(target, actor, now))
  {
    var k := NewestWithId(c.rows, target, |c.rows|).value;
    ManagedIffCount(c);
    ManagedAfterUpdate(c, k, c.rows[k].(role := Member));
  }

  lemma SucceedManagedIff(cfg: Config, c: Conversation, id: Id, now: int)
    requires Oldest(c.rows, |c.rows|).Some?
    ensures
      var heir := c.rows[Oldest(c.rows, |c.rows|).value];
      Managed(Succeed(cfg, c, id, now))
      <==> ManagerCount(c.rows) > 0 || (AdminCount(c.rows) == 0 && heir.who.kind == User)
  {
    var k := Oldest(c.rows, |c.rows|).value;
    var found := FindRow(c.rows, IsActiveAdmin());
    ManagedIffCount(c);
    HasAdminIffCount(c);
    CountPositive(c.rows, IsActiveAdmin());
    if found.None? {
      ManagedAfterUpdate(c, k, c.rows[k].(role := Admin));
    }
  }

  /** After a leave that does not close the group. */
  lemma LeaveManagedIff(cfg: Config, c: Conversation, id: Id, user: Id, now: int)
    requires Leave(cfg, c, id, user, now).Ok? && Leave(cfg, c, id, user, now).value.active
    ensures Managed(Leave(cfg, c, id, user, now).value) <==> !Orphans(c, LeaveCall(user, now))
  {
    var k := FindRow(c.rows, ActiveAs(Identity(User, user))).value;
    var left := c.(rows := RowsLeft(c.rows, k));
    assert Oldest(left.rows, |left.rows|).Some?;
    SucceedManagedIff(cfg, left, id, now);
    assert Leave(cfg, c, id, user, now).value.rows == Succeed(cfg, left, id, now).rows;
  }

  /** A manager's row stays a manager's through the other calls. */
  lemma AddKeepsManaged(cfg: Config, c: Conversation, id: Id, who: Identity, actor: Id, now: int)
    requires Managed(c) && Add(cfg, c, id, id, who, actor, now).Ok?
    ensures Managed(Add(cfg, c, id, id, who, actor, now).value)
  {
    var r :| r in c.rows && r.active && r.role == Admin && r.who.kind == User;
    var i :| 0 <= i < |c.rows| && c.rows[i] == r;
    var d := Add(cfg, c, id, id, who, actor, now).value;
    assert d.rows[i] == c.rows[i] && d.rows[i] in d.rows;
  }

  lemma PromoteKeepsManaged(cfg: Config, c: Conversation, id: Id, target: Id, actor: Id, now: int)
    requires Managed(c) && Promote(cfg, c, id, target, actor, now).Ok?
    ensures Managed(Promote(cfg, c, id, target, actor, now).value)
  {
    var k := NewestWithId(c.rows, target, |c.rows|).value;
    ManagedIffCount(c);
    ManagedAfterUpdate(c, k, c.rows[k].(role := Admin));
  }

  lemma MarksKeepManaged(cfg: Config, c: Conversation, nextId: Id, call: Call)
    requires Managed(c) && Attempt(cfg, c, nextId, call).Ok?
    requires call.SeenCall? || call.AcceptCall? || call.IgnoreCall? || call.ExpireCall?
    ensures Managed(Attempt(cfg, c, nextId, call).value)
  {
    var d := Attempt(cfg, c, nextId, call).value;
    var r :| r in c.rows && r.active && r.role == Admin && r.who.kind == User;
    var i :| 0 <= i < |c.rows| && c.rows[i] == r;
    assert d.rows[i].active && d.rows[i].role == Admin && d.rows[i].who == r.who && d.rows[i] in d.rows;
  }

  /**
   * A successful call on a group that someone can manage leaves a group that someone can
   * manage, unless it closes the group, if and only if it does not orphan it.
   */
  lemma CallKeepsManagedIff(cfg: Config, c: Conversation, nextId: Id, call: Call)
    requires OneRowEach(c.rows, nextId) && Managed(c) && Attempt(cfg, c, nextId, call).Ok?
    requires Attempt(cfg, c, nextId, call).value.active
    ensures Managed(Attempt(cfg, c, nextId, call).value) <==> !Orphans(c, call)
  {
    match call
    case RemoveCall(pk, actor, now) => RemoveKeepsManagedIff(cfg, c, nextId, pk, actor, now);
    case DemoteCall(target, actor, now) => DemoteKeepsManagedIff(cfg, c, nextId, target, actor, now);
    case LeaveCall(user, now) => LeaveManagedIff(cfg, c, nextId, user, now);
    case AddCall(who, actor, now) => AddKeepsManaged(cfg, c, nextId, who, actor, now);
    case PromoteCall(target, actor, now) => PromoteKeepsManaged(cfg, c, nextId, target, actor, now);
    case SendCall(_, _, _, _, _) =>
    case EditCall(_, _, _, _) =>
    case DeleteCall(_, _, _) =>
    case _ => MarksKeepManaged(cfg, c, nextId, call);
  }

  /** A closed group stays closed, and an orphaning leave does not close the group. */
  lemma ClosedStaysClosed(cfg: Config, c: Conversation, nextId: Id, call: Call)
    requires !c.active
    ensures !Chat.After(cfg, c, nextId, call).active
  {
  }

  lemma OrphaningKeepsOpen(cfg: Config, c: Conversation, nextId: Id, call: Call)
    requires c.active && Orphans(c, call)
    ensures Chat.After(cfg, c, nextId, call).active
  {
  }

  // ------------------------------------------------------------------- runs

  /** A new group is managed exactly if its creator is a user. */
  lemma CreatedManagedIff(cfg: Config, db: Db, n: NewChat)
    requires n.kind == Group && Create(cfg, db, n).Ok?
    ensures |Create(cfg, db, n).value.0.chats| == |db.chats| + 1
    ensures Managed(Create(cfg, db, n).value.0.chats[|db.chats|]) <==> n.creator.kind == User
  {
    FirstRowsAre(n, db.nextId);
    OtherRowsAre(n, n.others, db.nextId);
    var rows, rest := FirstRows(n, db.nextId), OtherRows(n, n.others, db.nextId);
    assert rows[0] in rows;
    forall i | 0 < i < |rows| ensures rows[i].role == Member {
      assert rows[i] == rest[i - 1];
    }
  }

  predicate ManagedIfOpen(c: Conversation) {
    c.kind == Group && c.active ==> Managed(c)
  }

  predicate AllManaged(db: Db) {
    forall c <- db.chats :: ManagedIfOpen(c)
  }

  /** A group is created by someone other than a user, or a successful call orphans an open one. */
  predicate OrphaningEvent(cfg: Config, db: Db, ev: Event) {
    match ev
    case CreateEvent(n) => n.kind == Group && Create(cfg, db, n).Ok? && n.creator.kind != User
    case CallEvent(k, call) =>
      && k < |db.chats| && db.chats[k].kind == Group && db.chats[k].active
      && Attempt(cfg, db.chats[k], db.nextId, call).Ok? && Orphans(db.chats[k], call)
  }

  lemma CallOrphansIff(cfg: Config, db: Db, k: nat, call: Call)
    requires DbInv(cfg, db) && k < |db.chats| && ManagedIfOpen(db.chats[k])
    ensures ManagedIfOpen(Chat.After(cfg, db.chats[k], db.nextId, call))
            <==> !OrphaningEvent(cfg, db, CallEvent(k, call))
  {
    var c := db.chats[k];
    assert Inv(cfg, c, db.nextId);
    CallKeepsKind(cfg, c, db.nextId, call);
    if c.kind == Group {
      if !c.active {
        ClosedStaysClosed(cfg, c, db.nextId, call);
      } else if Attempt(cfg, c, db.nextId, call).Ok? {
        OpenGroupOrphansIff(cfg, c, db.nextId, call);
      }
    }
  }

  lemma OpenGroupOrphansIff(cfg: Config, c: Conversation, nextId: Id, call: Call)
    requires OneRowEach(c.rows, nextId) && Managed(c) && c.active && Attempt(cfg, c, nextId, call).Ok?
    ensures !Attempt(cfg, c, nextId, call).value.active || Managed(Attempt(cfg, c, nextId, call).value)
            <==> !Orphans(c, call)
  {
    if Orphans(c, call) {
      OrphaningKeepsOpen(cfg, c, nextId, call);
    }
    if Attempt(cfg, c, nextId, call).value.active {
      CallKeepsManagedIff(cfg, c, nextId, call);
    }
  }

  lemma OneMoreManaged(chats: seq<Conversation>, c: Conversation)
    requires forall d <- chats :: ManagedIfOpen(d)
    ensures (forall d <- chats + [c] :: ManagedIfOpen(d)) <==> ManagedIfOpen(c)
  {
    assert c in chats + [c];
  }

  lemma OneChangedManaged(chats: seq<Conversation>, k: nat, c: Conversation)
    requires k < |chats| && forall d <- chats :: ManagedIfOpen(d)
    ensures (forall d <- chats[k := c] :: ManagedIfOpen(d)) <==> ManagedIfOpen(c)
  {
    assert chats[k := c][k] == c;
  }

  lemma CreationOrphansIff(cfg: Config, db: Db, n: NewChat)
    requires AllManaged(db) && Create(cfg, db, n).Ok?
    ensures AllManaged(Create(cfg, db, n).value.0) <==> n.kind != Group || n.creator.kind == User
  {
    CreateAppends(cfg, db, n);
    var (d, k) := Create(cfg, db, n).value;
    if k == |db.chats| {
      OneMoreManaged(db.chats, d.chats[k]);
    }
    if n.kind == Group {
      CreatedManagedIff(cfg, db, n);
    }
  }

  lemma EventManagedIff(cfg: Config, db: Db, ev: Event)
    requires DbInv(cfg, db) && AllManaged(db)
    ensures AllManaged(Next(cfg, db, ev)) <==> !OrphaningEvent(cfg, db, ev)
  {
    match ev
    case CreateEvent(n) =>
      if Create(cfg, db, n).Ok? {
        CreationOrphansIff(cfg, db, n);
      }
    case CallEvent(k, call) =>
      if k < |db.chats| {
        CallOrphansIff(cfg, db, k, call);
        OneChangedManaged(db.chats, k, Chat.After(cfg, db.chats[k], db.nextId, call));
      }
  }

  /** In every state of the run someone can manage each open group. */
  predicate AlwaysManaged(cfg: Config, evs: seq<Event>) {
    AllManaged(Run(cfg, evs)) && (evs == [] || AlwaysManaged(cfg, evs[..|evs| - 1]))
  }

  predicate NeverOrphans(cfg: Config, evs: seq<Event>) {
    evs == []
    || (NeverOrphans(cfg, evs[..|evs| - 1]) && !OrphaningEvent(cfg, Run(cfg, evs[..|evs| - 1]), evs[|evs| - 1]))
  }

  /** Someone can manage every open group all along a run if and only if no call of it orphans one. */
  lemma {:induction false} ManagedOverRuns(cfg: Config, evs: seq<Event>)
    ensures AlwaysManaged(cfg, evs) <==> NeverOrphans(cfg, evs)
  {
    if evs != [] {
      var init := evs[..|evs| - 1];
      ManagedOverRuns(cfg, init);
      if AlwaysManaged(cfg, init) {
        RunKeepsInv(cfg, init);
        EventManagedIff(cfg, Run(cfg, init), evs[|evs| - 1]);
      }
    }
  }
}
