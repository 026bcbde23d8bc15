// What creations, watermarks and inbox queries do across conversations, told on rows.

module MessengerContracts {
  import opened Wrappers
  import opened Chat
  import opened ChatInvariants
  import opened ChatTheorems
  import opened ChatContracts
  import opened Messenger
  import opened Inbox

  // --------------------------------------------------------------- creation

  /** A stored active DM in the scope with active rows of both; global conversations carry no scope id. */
  ghost predicate StoredDm(chats: seq<Conversation>, n: NewChat, other: Identity, k: nat) {
    && k < |chats| && chats[k].kind == Direct && chats[k].active && chats[k].scope == n.scope
    && chats[k].scopeId == (if n.scope == Global then None else n.scopeId)
    && ActiveRow(chats[k], n.creator) && ActiveRow(chats[k], other)
  }

  /** The request status of a participant: pending for a stranger in a user's global DM. */
  ghost predicate Stranger(n: NewChat, other: Identity) {
    n.kind == Direct && n.scope == Global && n.creator.kind == User && other.kind == User && !n.connected
  }

  /** The creator's row and one for each other, with consecutive keys; the creator of a group is its admin. */
  ghost predicate NewRows(n: NewChat, rows: seq<Row>, pk: Id) {
    && |rows| == |n.others| + 1
    && rows[0] == Row(pk, n.creator, if n.kind == Group then Admin else Member, NoRequest, true, n.now, None)
    && forall i :: 0 <= i < |n.others| ==>
      rows[i + 1] == Row(pk + i + 1, n.others[i], Member, if Stranger(n, n.others[i]) then Pending else NoRequest,
                         true, n.now, None)
  }

  /** A new, empty conversation after the stored ones, which stay. */
  ghost predicate Added(db: Db, n: NewChat, d: Db, k: nat) {
    && k == |db.chats| && |d.chats| == k + 1 && d.chats[..k] == db.chats && d.nextId == db.nextId + |n.others| + 1
    && var c := d.chats[k];
       c == Conversation(n.scope, n.scopeId, n.kind, n.creator, true, c.rows, [], None)
       && NewRows(n, c.rows, db.nextId)
  }

  /** Two of the people are the same. */
  ghost predicate Repeated(n: NewChat) {
    n.creator in n.others || exists i, j :: 0 <= i < j < |n.others| && n.others[i] == n.others[j]
  }

  /** The checks of a creation in order, each with its own error. */
  ghost predicate Creation(cfg: Config, db: Db, n: NewChat, r: Result<(Db, nat), Error>) {
    if n.refusal.Some? then r == Fail(n.refusal.value)
    else if n.kind == Direct && |n.others| != 1 then r == Fail(Invalid)
    else if n.kind == Direct && exists k: nat :: StoredDm(db.chats, n, n.others[0], k) then
      exists k: nat :: StoredDm(db.chats, n, n.others[0], k) && r == Ok((db, k))
    else if n.kind == Direct && n.blocks then r == Fail(Rule)
    else if n.kind == Direct && n.blocked then r == Fail(Denied)
    else if n.kind == Group && n.groupRefusal.Some? then r == Fail(n.groupRefusal.value)
    else if n.kind == Group && cfg.blank(n.name) then r == Fail(Invalid)
    else if n.kind == Group && |n.others| + 1 > cfg.maxParticipants then r == Fail(Rule)
    else if Repeated(n) then r == Fail(Integrity)
    else r.Ok? && Added(db, n, r.value.0, r.value.1)
  }

  lemma TakesIff(c: Conversation, who: Identity)
    ensures Takes(c, who) <==> ActiveRow(c, who)
  {
    if i :| 0 <= i < |c.rows| && c.rows[i].active && c.rows[i].who == who {
      assert c.rows[i] in c.rows;
    }
  }

  lemma StoredDmIff(chats: seq<Conversation>, n: NewChat, other: Identity)
    ensures
      var found := FindDm(chats, n.scope, n.scopeId, n.creator, other);
      && (found.Some? ==> StoredDm(chats, n, other, found.value))
      && (found.Some? <==> exists k: nat :: StoredDm(chats, n, other, k))
  {
    forall k | 0 <= k < |chats|
      ensures IsDm(chats[k], n.scope, n.scopeId, n.creator, other) <==> StoredDm(chats, n, other, k)
    {
      TakesIff(chats[k], n.creator);
      TakesIff(chats[k], other);
    }
  }

  lemma FirstRowsAreNew(n: NewChat, pk: Id)
    ensures NewRows(n, FirstRows(n, pk), pk)
  {
    OtherRowsAre(n, n.others, pk);
    assert forall i :: 0 <= i < |n.others| ==> FirstRows(n, pk)[i + 1] == OtherRows(n, n.others, pk)[i];
  }

  /** Every creation ends in the first error that applies, the stored DM, or the new conversation. */
  lemma CreateOutcome(cfg: Config, db: Db, n: NewChat)
    ensures Creation(cfg, db, n, Create(cfg, db, n))
  {
    if n.kind == Direct && |n.others| == 1 {
      StoredDmIff(db.chats, n, n.others[0]);
    }
    FirstRowsAreNew(n, db.nextId);
    RepeatedIff(n);
  }

  lemma RepeatedIff(n: NewChat)
    ensures Repeated(n) <==> !DistinctPeople(n)
  {
  }

  // ------------------------------------------------------------- watermarks

  lemma FindRowAside(rows: seq<Row>, k: nat, row: Row, p: Row -> bool)
    requires k < |rows| && !p(rows[k]) && !p(row)
    ensures FindRow(rows[k := row], p) == FindRow(rows, p)
  {
    assert forall i :: 0 <= i < |rows| ==> (p(rows[k := row][i]) <==> p(rows[i]));
  }

  lemma {:induction false} NumbersStay(chats: seq<Conversation>, k: nat, d: Conversation, id: Id)
    requires k < |chats| && d.messages == chats[k].messages
    ensures NumberOf(chats[k := d], id) == NumberOf(chats, id)
  {
    NumberOfUpdate(chats, k, d, id);
  }

  /** One identity's watermark and count in every conversation. */
  ghost predicate ReadsAlike(before: seq<Conversation>, after: seq<Conversation>, j: nat, who: Identity) {
    && j < |before| == |after|
    && SeenBy(after[j], who) == SeenBy(before[j], who)
    && UnreadCount(after, j, who) == UnreadCount(before, j, who)
  }

  lemma OwnRowAside(chats: seq<Conversation>, k: nat, d: Conversation, who: Identity, at: nat, message: Id,
                    other: Identity)
    requires k < |chats| && other != who
    requires at < |chats[k].rows| && OwnRowSet(chats[k], d, who, at, chats[k].rows[at].(seen := Some(message)))
    ensures ReadsAlike(chats, chats[k := d], k, other)
  {
    var row := FindRow(chats[k].rows, ActiveAs(other));
    FindRowAside(chats[k].rows, at, d.rows[at], ActiveAs(other));
    if row.Some? && chats[k].rows[row.value].seen.Some? {
      NumbersStay(chats, k, d, chats[k].rows[row.value].seen.value);
    }
  }

  lemma OtherChatAside(chats: seq<Conversation>, k: nat, d: Conversation, j: nat, who: Identity)
    requires k < |chats| && j < |chats| && j != k && d.messages == chats[k].messages
    ensures ReadsAlike(chats, chats[k := d], j, who)
  {
    var row := FindRow(chats[j].rows, ActiveAs(who));
    if row.Some? && chats[j].rows[row.value].seen.Some? {
      NumbersStay(chats, k, d, chats[j].rows[row.value].seen.value);
    }
  }

  /** Only this identity's reading of this conversation may have changed. */
  ghost predicate OthersReadAlike(before: seq<Conversation>, after: seq<Conversation>, k: nat, who: Identity) {
    |after| == |before|
    && forall j: nat, other :: j < |before| && (j != k || other != who) ==> ReadsAlike(before, after, j, other)
  }

  /** Marking a message seen leaves everybody else's watermark and count alone, and everyone's elsewhere. */
  lemma SeenLeavesOthers(chats: seq<Conversation>, k: nat, who: Identity, message: Id)
    requires k < |chats| && MarkSeen(chats[k], who, message).Ok?
    ensures OthersReadAlike(chats, chats[k := MarkSeen(chats[k], who, message).value], k, who)
  {
    var d := MarkSeen(chats[k], who, message).value;
    SeenOutcome(chats[k], who, message);
    var at: nat :| at < |chats[k].rows|
                   && OwnRowSet(chats[k], d, who, at, chats[k].rows[at].(seen := Some(message)));
    var after := chats[k := d];
    forall j: nat, other | j < |chats| && (j != k || other != who) ensures ReadsAlike(chats, after, j, other) {
      if j == k {
        OwnRowAside(chats, k, d, who, at, message, other);
      } else {
        OtherChatAside(chats, k, d, j, other);
      }
    }
  }

  // ----------------------------------------------------------------- counts

  /** The positions of the messages an identity has not read above a number. */
  ghost function UnreadAt(messages: seq<Message>, who: Identity, floor: nat): set<nat> {
    set i: nat | i < |messages| && messages[i].status != Deleted && messages[i].sender != who
                 && messages[i].number > floor
  }

  lemma {:induction false} UnreadIs(messages: seq<Message>, who: Identity, floor: nat)
    ensures Unread(messages, who, floor) == |UnreadAt(messages, who, floor)|
  {
    if messages != [] {
      var n := |messages| - 1;
      UnreadIs(messages[..n], who, floor);
      assert UnreadAt(messages, who, floor)
          == UnreadAt(messages[..n], who, floor) + if Counts(messages[n], who, floor) then {n} else {};
    }
  }

  ghost predicate Stored(chats: seq<Conversation>, m: Message) {
    exists j: nat :: j < |chats| && m in chats[j].messages
  }

  lemma {:induction false} NumberIsStored(chats: seq<Conversation>, id: Id)
    ensures NumberOf(chats, id).Some? ==>
      exists m: Message :: Stored(chats, m) && m.id == id && m.number == NumberOf(chats, id).value
    ensures NumberOf(chats, id).None? ==> forall m: Message :: Stored(chats, m) ==> m.id != id
  {
    if chats != [] {
      var n := |chats| - 1;
      NumberIsStored(chats[..n], id);
      var k := FindMessage(chats[n].messages, id);
      if k.Some? {
        assert Stored(chats, chats[n].messages[k.value]);
      } else {
        StoredInOne(chats, id);
      }
    }
  }

  lemma StoredInOne(chats: seq<Conversation>, id: Id)
    requires chats != [] && FindMessage(chats[|chats| - 1].messages, id).None?
    ensures forall m: Message :: m.id == id ==> (Stored(chats, m) <==> Stored(chats[..|chats| - 1], m))
  {
    var n := |chats| - 1;
    forall m: Message | m.id == id ensures Stored(chats, m) <==> Stored(chats[..n], m) {
      assert m !in chats[n].messages;
      assert forall j :: 0 <= j < n ==> chats[..n][j] == chats[j];
    }
  }

  /**
   * An unread count is the number of others' visible messages above the number of the
   * message the watermark names, or of all of them if it names no stored message; without an
   * active row it is 0.
   */
  lemma UnreadCountMeans(cfg: Config, db: Db, k: nat, who: Identity, i: nat)
    requires DbInv(cfg, db) && k < |db.chats|
    ensures !ActiveRow(db.chats[k], who) ==> UnreadCount(db.chats, k, who) == 0
    ensures i < |db.chats[k].rows| && db.chats[k].rows[i].active && db.chats[k].rows[i].who == who ==>
      var seen := db.chats[k].rows[i].seen;
      UnreadCount(db.chats, k, who) == |UnreadAt(db.chats[k].messages, who, Floor(db.chats, seen))|
  {
    assert Inv(cfg, db.chats[k], db.nextId);
    FoundIffActive(db.chats[k], who);
    var row := FindRow(db.chats[k].rows, ActiveAs(who));
    if row.Some? {
      UnreadIs(db.chats[k].messages, who, Floor(db.chats, db.chats[k].rows[row.value].seen));
    }
    if i < |db.chats[k].rows| && db.chats[k].rows[i].active && db.chats[k].rows[i].who == who {
      assert ActiveAs(who)(db.chats[k].rows[i]);
    }
  }

  lemma FloorMeans(chats: seq<Conversation>, seen: Option<Id>)
    ensures
      var floor := Floor(chats, seen);
      if seen.Some? && exists m: Message :: Stored(chats, m) && m.id == seen.value
      then exists m: Message :: Stored(chats, m) && m.id == seen.value && floor == m.number
      else floor == 0
  {
    if seen.Some? {
      NumberIsStored(chats, seen.value);
    }
  }

  // ---------------------------------------------------------------- records

  ghost predicate RowAccepted(c: Conversation, rows: seq<Row>, p: (Conversation, Row) -> bool, who: Identity) {
    exists i :: 0 <= i < |rows| && rows[i].who == who && p(c, rows[i])
  }

  lemma {:induction false} RowRecordsAre(c: Conversation, rows: seq<Row>, k: nat, p: (Conversation, Row) -> bool,
                                         r: Record)
    ensures r in RowRecords(c, rows, k, p) <==> r.chat == k && RowAccepted(c, rows, p, r.who)
  {
    if rows != [] {
      var n := |rows| - 1;
      RowRecordsAre(c, rows[..n], k, p, r);
      assert RowAccepted(c, rows, p, r.who)
        <==> RowAccepted(c, rows[..n], p, r.who) || (rows[n].who == r.who && p(c, rows[n]));
    }
  }

  /** A query lists exactly the conversations and identities with a row it accepts. */
  lemma {:induction false} RecordsAre(chats: seq<Conversation>, p: (Conversation, Row) -> bool, r: Record)
    ensures r in Records(chats, p)
            <==> r.chat < |chats| && RowAccepted(chats[r.chat], chats[r.chat].rows, p, r.who)
  {
    if chats != [] {
      var n := |chats| - 1;
      RecordsAre(chats[..n], p, r);
      RowRecordsAre(chats[n], chats[n].rows, n, p, r);
    }
  }

  /** And each of them once. */
  ghost predicate NoRepeats(records: seq<Record>) {
    forall i, j :: 0 <= i < j < |records| ==> records[i] != records[j]
  }

  lemma NoRepeatsConcat(a: seq<Record>, b: seq<Record>)
    requires NoRepeats(a) && NoRepeats(b) && forall r <- b :: r !in a
    ensures NoRepeats(a + b)
  {
    forall i, j | 0 <= i < |a| <= j < |a + b| ensures (a + b)[i] != (a + b)[j] {
      assert b[j - |a|] in b && a[i] in a;
    }
  }

  lemma {:induction false} RowRecordsOnce(c: Conversation, rows: seq<Row>, k: nat, p: (Conversation, Row) -> bool)
    requires forall i, j :: 0 <= i < j < |rows| ==> rows[i].who != rows[j].who
    ensures NoRepeats(RowRecords(c, rows, k, p))
  {
    if rows != [] {
      var n := |rows| - 1;
      RowRecordsOnce(c, rows[..n], k, p);
      RowRecordsAre(c, rows[..n], k, p, Record(k, rows[n].who));
      NoRepeatsConcat(RowRecords(c, rows[..n], k, p), if p(c, rows[n]) then [Record(k, rows[n].who)] else []);
    }
  }

  lemma {:induction false} RecordsOnce(cfg: Config, db: Db, p: (Conversation, Row) -> bool)
    requires DbInv(cfg, db)
    ensures NoRepeats(Records(db.chats, p))
    decreases |db.chats|
  {
    if db.chats != [] {
      var n := |db.chats| - 1;
      var c := db.chats[n];
      assert Inv(cfg, c, db.nextId);
      assert DbInv(cfg, Db(db.chats[..n], db.nextId));
      RecordsOnce(cfg, Db(db.chats[..n], db.nextId), p);
      RowRecordsOnce(c, c.rows, n, p);
      RecordsInRange(db.chats[..n], p);
      RowRecordsOf(c, c.rows, n, p);
      NoRepeatsConcat(Records(db.chats[..n], p), RowRecords(c, c.rows, n, p));
    }
  }

  /** A user's own inbox: the conversations with an active row of theirs that is not pending, each once. */
  lemma PersonalInbox(cfg: Config, db: Db, user: Id, r: Record)
    requires DbInv(cfg, db)
    ensures NoRepeats(Records(db.chats, Personal(user)))
    ensures r in Records(db.chats, Personal(user))
            <==> && r.chat < |db.chats| && r.who == Identity(User, user)
                 && exists i :: 0 <= i < |db.chats[r.chat].rows| && db.chats[r.chat].rows[i].active
                      && db.chats[r.chat].rows[i].who == r.who && db.chats[r.chat].rows[i].request != Pending
  {
    RecordsOnce(cfg, db, Personal(user));
    RecordsAre(db.chats, Personal(user), r);
  }

  /** The entities' inboxes: the global conversations with an active row of a business or platform, each once. */
  lemma EntityInboxes(cfg: Config, db: Db, r: Record)
    requires DbInv(cfg, db)
    ensures NoRepeats(Records(db.chats, EntityInbox()))
    ensures r in Records(db.chats, EntityInbox())
            <==> && r.chat < |db.chats| && r.who.kind != User && db.chats[r.chat].scope == Global
                 && ActiveRow(db.chats[r.chat], r.who)
  {
    RecordsOnce(cfg, db, EntityInbox());
    RecordsAre(db.chats, EntityInbox(), r);
    if r.chat < |db.chats| {
      var c := db.chats[r.chat];
      assert forall i :: 0 <= i < |c.rows| ==>
        (EntityInbox()(c, c.rows[i]) <==> c.rows[i].active && c.rows[i].who.kind != User && c.scope == Global);
    }
  }
}
