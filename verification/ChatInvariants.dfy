// What every call on a conversation keeps.

module ChatInvariants {
  import opened Wrappers
  import opened Chat

  // --------------------------------------------------------------- the log

  /** Sequence numbers are exactly 1..n, in insertion order. */
  ghost predicate Numbered(messages: seq<Message>) {
    forall i :: 0 <= i < |messages| ==> messages[i].number == i + 1
  }

  ghost predicate DistinctIds(messages: seq<Message>, nextId: Id) {
    && (forall i :: 0 <= i < |messages| ==> messages[i].id < nextId)
    && forall i, j :: 0 <= i < j < |messages| ==> messages[i].id != messages[j].id
  }

  /** The cached fields describe the message with the greatest number, preview included. */
  ghost predicate Cached(cfg: Config, messages: seq<Message>, last: Option<Last>) {
    if messages == [] then last == None
    else last == Some(LastOf(cfg, messages[|messages| - 1]))
  }

  ghost predicate LogSound(cfg: Config, c: Conversation, nextId: Id) {
    Numbered(c.messages) && DistinctIds(c.messages, nextId) && Cached(cfg, c.messages, c.last)
  }

  lemma {:induction false} MaxNumberIsLength(messages: seq<Message>)
    requires Numbered(messages)
    ensures MaxNumber(messages) == |messages|
  {
    if messages != [] {
      MaxNumberIsLength(messages[..|messages| - 1]);
    }
  }

  lemma PostKeepsLog(cfg: Config, c: Conversation, id: Id, sender: Identity, acting: Option<Id>, content: string,
                     now: int)
    requires LogSound(cfg, c, id)
    ensures LogSound(cfg, Post(cfg, c, id, sender, acting, content, now), id + 1)
    ensures Post(cfg, c, id, sender, acting, content, now).messages[|c.messages|].number == |c.messages| + 1
  {
    MaxNumberIsLength(c.messages);
  }

  lemma RewriteKeepsLog(cfg: Config, c: Conversation, k: nat, m: Message, nextId: Id)
    requires LogSound(cfg, c, nextId) && k < |c.messages|
    requires m.id == c.messages[k].id && m.number == c.messages[k].number
    requires m.at == c.messages[k].at && m.sender == c.messages[k].sender
    ensures
      var d := c.(messages := c.messages[k := m], last := Recache(c, m.id, Cut(m.content, cfg.preview)));
      LogSound(cfg, d, nextId)
  {
    var n := |c.messages| - 1;
    assert c.last == Some(LastOf(cfg, c.messages[n]));
    assert c.messages[n].id == m.id <==> k == n;
  }

  // ------------------------------------------------------------ the members

  ghost predicate OneRowEach(rows: seq<Row>, nextId: Id) {
    && (forall i :: 0 <= i < |rows| ==> rows[i].pk < nextId)
    && forall i, j :: 0 <= i < j < |rows| ==> rows[i].who != rows[j].who && rows[i].pk != rows[j].pk
  }

  ghost predicate MembersSound(cfg: Config, c: Conversation, nextId: Id) {
    && OneRowEach(c.rows, nextId)
    && (c.kind == Group ==> ActiveCount(c.rows) <= cfg.maxParticipants && forall r <- c.rows :: r.request != Pending)
    && (c.kind == Direct ==> c.active && |c.rows| == 2 && forall r <- c.rows :: r.active)
    && (!c.active ==> forall r <- c.rows :: !r.active)
  }

  /** While one side of a DM is pending, the other has sent at most the allowed number. */
  ghost predicate WithinQuota(cfg: Config, c: Conversation) {
    c.kind == Direct ==>
      forall r, s :: r in c.rows && s in c.rows && r.who != s.who && r.request == Pending
        ==> SentBy(c.messages, s.who) <= cfg.maxRequestMessages
  }

  ghost predicate Inv(cfg: Config, c: Conversation, nextId: Id) {
    LogSound(cfg, c, nextId) && MembersSound(cfg, c, nextId) && WithinQuota(cfg, c)
  }

  lemma {:induction false} CountUpdate(rows: seq<Row>, k: nat, row: Row, p: Row -> bool)
    requires k < |rows|
    ensures CountRows(rows[k := row], p)
            == CountRows(rows, p) - (if p(rows[k]) then 1 else 0) + (if p(row) then 1 else 0)
  {
    var n := |rows| - 1;
    if k == n {
      assert rows[k := row][..n] == rows[..n];
    } else {
      assert rows[k := row][..n] == rows[..n][k := row];
      CountUpdate(rows[..n], k, row, p);
    }
  }

  lemma {:induction false} CountPositive(rows: seq<Row>, p: Row -> bool)
    ensures CountRows(rows, p) > 0 <==> exists i :: 0 <= i < |rows| && p(rows[i])
  {
    if rows != [] {
      var n := |rows| - 1;
      CountPositive(rows[..n], p);
      if i :| 0 <= i < |rows| && p(rows[i]) {
        if i < n {
          assert p(rows[..n][i]);
        }
      }
    }
  }

  /** Replacing a row by one with the same key and identity. */
  lemma RowUpdateKeepsMembers(cfg: Config, c: Conversation, k: nat, row: Row, nextId: Id)
    requires MembersSound(cfg, c, nextId) && k < |c.rows|
    requires row.pk == c.rows[k].pk && row.who == c.rows[k].who
    requires row.active ==> c.rows[k].active
    requires c.kind == Direct ==> row.active
    requires c.kind == Group ==> row.request != Pending
    ensures MembersSound(cfg, c.(rows := c.rows[k := row]), nextId)
  {
    CountUpdate(c.rows, k, row, IsActive());
  }

  lemma PostKeepsMembers(cfg: Config, c: Conversation, id: Id, sender: Identity, acting: Option<Id>, content: string,
                         now: int, nextId: Id, later: Id)
    requires MembersSound(cfg, c, nextId) && nextId <= later
    ensures MembersSound(cfg, Post(cfg, c, id, sender, acting, content, now), later)
  {
  }

  lemma SentByPost(cfg: Config, c: Conversation, id: Id, sender: Identity, acting: Option<Id>, content: string,
                   now: int, who: Identity)
    ensures SentBy(Post(cfg, c, id, sender, acting, content, now).messages, who)
            == SentBy(c.messages, who) + if sender == who then 1 else 0
  {
    var d := Post(cfg, c, id, sender, acting, content, now);
    assert d.messages[..|d.messages| - 1] == c.messages;
  }

  lemma {:induction false} SentByUpdate(messages: seq<Message>, k: nat, m: Message, who: Identity)
    requires k < |messages| && m.sender == messages[k].sender
    ensures SentBy(messages[k := m], who) == SentBy(messages, who)
  {
    var n := |messages| - 1;
    if k == n {
      assert messages[k := m][..n] == messages[..n];
    } else {
      assert messages[k := m][..n] == messages[..n][k := m];
      SentByUpdate(messages[..n], k, m, who);
    }
  }

  // ------------------------------------------------------- call by call

  lemma SendKeepsInv(cfg: Config, c: Conversation, id: Id, sender: Identity, user: Id, content: string,
                     attachments: Attachments, now: int)
    requires Inv(cfg, c, id) && Send(cfg, c, id, sender, user, content, attachments, now).Ok?
    ensures Inv(cfg, Send(cfg, c, id, sender, user, content, attachments, now).value, id + 1)
  {
    var acting := if sender.kind == User then None else Some(user);
    var d := Post(cfg, c, id, sender, acting, content, now);
    PostKeepsLog(cfg, c, id, sender, acting, content, now);
    PostKeepsMembers(cfg, c, id, sender, acting, content, now, id, id + 1);
    if c.kind == Direct {
      forall r, s | r in d.rows && s in d.rows && r.who != s.who && r.request == Pending
        ensures SentBy(d.messages, s.who) <= cfg.maxRequestMessages
      {
        SentByPost(cfg, c, id, sender, acting, content, now, s.who);
      }
    }
  }

  lemma RewriteKeepsInv(cfg: Config, c: Conversation, k: nat, m: Message, nextId: Id)
    requires Inv(cfg, c, nextId) && k < |c.messages|
    requires m.id == c.messages[k].id && m.number == c.messages[k].number
    requires m.at == c.messages[k].at && m.sender == c.messages[k].sender
    ensures
      var d := c.(messages := c.messages[k := m], last := Recache(c, m.id, Cut(m.content, cfg.preview)));
      Inv(cfg, d, nextId)
  {
    RewriteKeepsLog(cfg, c, k, m, nextId);
    forall who: Identity ensures SentBy(c.messages[k := m], who) == SentBy(c.messages, who) {
      SentByUpdate(c.messages, k, m, who);
    }
  }

  lemma EditKeepsInv(cfg: Config, c: Conversation, id: Id, content: string, user: Id, now: int, nextId: Id)
    requires Inv(cfg, c, nextId) && Edit(cfg, c, id, content, user, now).Ok?
    ensures Inv(cfg, Edit(cfg, c, id, content, user, now).value, nextId)
  {
    var k := FindMessage(c.messages, id).value;
    var m := c.messages[k];
    RewriteKeepsInv(cfg, c, k, m.(content := content, status := Edited,
                                  original := if m.original == "" then m.content else m.original), nextId);
  }

  lemma DeleteKeepsInv(cfg: Config, c: Conversation, id: Id, user: Id, staff: bool, nextId: Id)
    requires Inv(cfg, c, nextId) && Delete(c, id, user, staff).Ok?
    ensures Inv(cfg, Delete(c, id, user, staff).value, nextId)
  {
    var k := FindMessage(c.messages, id).value;
    var m := c.messages[k];
    RewriteKeepsInv(cfg, c, k, m.(content := "", original := m.content, status := Deleted), nextId);
  }

  /** Some row of the same identity is at least as pending. */
  ghost predicate Covered(rows: seq<Row>, row: Row) {
    exists r :: r in rows && r.who == row.who && (row.request == Pending ==> r.request == Pending)
  }

  lemma QuotaTransfers(cfg: Config, c: Conversation, rows: seq<Row>)
    requires WithinQuota(cfg, c) && forall r <- rows :: Covered(c.rows, r)
    ensures WithinQuota(cfg, c.(rows := rows))
  {
    forall r, s | c.kind == Direct && r in rows && s in rows && r.who != s.who && r.request == Pending
      ensures SentBy(c.messages, s.who) <= cfg.maxRequestMessages
    {
      var r' :| r' in c.rows && r'.who == r.who && r'.request == Pending;
      var s' :| s' in c.rows && s'.who == s.who;
    }
  }

  /** A row update outside membership: the request status may not become pending. */
  lemma RowUpdateKeepsInv(cfg: Config, c: Conversation, k: nat, row: Row, nextId: Id)
    requires Inv(cfg, c, nextId) && k < |c.rows|
    requires row.pk == c.rows[k].pk && row.who == c.rows[k].who
    requires row.active ==> c.rows[k].active
    requires c.kind == Direct ==> row.active
    requires row.request == Pending ==> c.rows[k].request == Pending
    ensures Inv(cfg, c.(rows := c.rows[k := row]), nextId)
  {
    RowUpdateKeepsMembers(cfg, c, k, row, nextId);
    forall r | r in c.rows[k := row] ensures Covered(c.rows, r) {
      assert c.rows[k] in c.rows;
    }
    QuotaTransfers(cfg, c, c.rows[k := row]);
  }

  lemma {:induction false} ExpireKeepsCount(rows: seq<Row>, cutoff: int)
    ensures CountRows(Expired(rows, cutoff), IsActive()) == CountRows(rows, IsActive())
  {
    if rows != [] {
      var n := |rows| - 1;
      ExpireKeepsCount(rows[..n], cutoff);
      assert Expired(rows, cutoff)[..n] == Expired(rows[..n], cutoff);
    }
  }

  lemma ExpireKeepsMembers(cfg: Config, c: Conversation, cutoff: int, nextId: Id)
    requires MembersSound(cfg, c, nextId)
    ensures MembersSound(cfg, Expire(c, cutoff), nextId)
  {
    ExpireKeepsCount(c.rows, cutoff);
    var d := Expire(c, cutoff);
    forall i | 0 <= i < |c.rows|
      ensures d.rows[i].who == c.rows[i].who && d.rows[i].pk == c.rows[i].pk && d.rows[i].active == c.rows[i].active
      ensures d.rows[i].request == Pending ==> c.rows[i].request == Pending
      ensures c.rows[i] in c.rows
    {
    }
  }

  lemma ExpireKeepsInv(cfg: Config, c: Conversation, cutoff: int, nextId: Id)
    requires Inv(cfg, c, nextId)
    ensures Inv(cfg, Expire(c, cutoff), nextId)
  {
    ExpireKeepsMembers(cfg, c, cutoff, nextId);
    forall r | r in Expire(c, cutoff).rows ensures Covered(c.rows, r) {
      var i :| 0 <= i < |c.rows| && Expire(c, cutoff).rows[i] == r;
      assert c.rows[i] in c.rows;
    }
    QuotaTransfers(cfg, c, Expire(c, cutoff).rows);
  }

  /** Posting in a group: the quota does not apply there. */
  lemma PostKeepsInvInGroup(cfg: Config, c: Conversation, id: Id, content: string, now: int, nextId: Id)
    requires c.kind == Group && LogSound(cfg, c, id) && MembersSound(cfg, c, nextId) && nextId <= id + 1
    ensures Inv(cfg, PostSystem(cfg, c, id, content, now), id + 1)
  {
    var sender := Identity(User, c.creator.id);
    PostKeepsLog(cfg, c, id, sender, None, content, now);
    PostKeepsMembers(cfg, c, id, sender, None, content, now, nextId, id + 1);
  }

  lemma RejoinKeepsMembers(cfg: Config, c: Conversation, k: nat, nextId: Id)
    requires c.kind == Group && c.active && MembersSound(cfg, c, nextId) && k < |c.rows| && !c.rows[k].active
    requires ActiveCount(c.rows) < cfg.maxParticipants
    ensures MembersSound(cfg, c.(rows := c.rows[k := c.rows[k].(active := true, role := Member)]), nextId)
  {
    CountUpdate(c.rows, k, c.rows[k].(active := true, role := Member), IsActive());
  }

  lemma JoinKeepsMembers(cfg: Config, c: Conversation, row: Row, nextId: Id)
    requires c.kind == Group && c.active && MembersSound(cfg, c, nextId)
    requires ActiveCount(c.rows) < cfg.maxParticipants
    requires row.pk == nextId && row.request != Pending && forall r <- c.rows :: r.who != row.who
    ensures MembersSound(cfg, c.(rows := c.rows + [row]), nextId + 1)
  {
    var rows := c.rows + [row];
    assert rows[..|rows| - 1] == c.rows;
    assert forall i :: 0 <= i < |c.rows| ==> c.rows[i] in c.rows;
  }

  lemma AddKeepsInv(cfg: Config, c: Conversation, id: Id, who: Identity, actor: Id, now: int)
    requires Inv(cfg, c, id) && Add(cfg, c, id, id, who, actor, now).Ok?
    ensures Inv(cfg, Add(cfg, c, id, id, who, actor, now).value, id + 1)
  {
    var content := cfg.printed(who) + " was added to the group";
    var inactive := FindRow(c.rows, (r: Row) => !r.active && r.who == who);
    if inactive.Some? {
      RejoinKeepsMembers(cfg, c, inactive.value, id);
      var k := inactive.value;
      PostKeepsInvInGroup(cfg, c.(rows := c.rows[k := c.rows[k].(active := true, role := Member)]), id, content, now,
                          id);
    } else {
      var row := Row(id, who, Member, NoRequest, true, now, None);
      JoinKeepsMembers(cfg, c, row, id);
      PostKeepsInvInGroup(cfg, c.(rows := c.rows + [row]), id, content, now, id + 1);
    }
  }

  /** Changing one row of a group and posting a system message about it. */
  lemma RowAndPostKeepInv(cfg: Config, c: Conversation, k: nat, row: Row, id: Id, content: string, now: int)
    requires c.kind == Group && LogSound(cfg, c, id) && MembersSound(cfg, c, id) && k < |c.rows|
    requires row.pk == c.rows[k].pk && row.who == c.rows[k].who && row.request == c.rows[k].request
    requires row.active ==> c.rows[k].active
    ensures MembersSound(cfg, c.(rows := c.rows[k := row]), id)
    ensures Inv(cfg, PostSystem(cfg, c.(rows := c.rows[k := row]), id, content, now), id + 1)
  {
    RowUpdateKeepsMembers(cfg, c, k, row, id);
    PostKeepsInvInGroup(cfg, c.(rows := c.rows[k := row]), id, content, now, id);
  }

  lemma RemoveKeepsInv(cfg: Config, c: Conversation, id: Id, pk: Id, actor: Id, now: int)
    requires Inv(cfg, c, id) && Remove(cfg, c, id, pk, actor, now).Ok?
    ensures Inv(cfg, Remove(cfg, c, id, pk, actor, now).value, id + 1)
  {
    var k := FindRow(c.rows, (r: Row) => r.active && r.pk == pk).value;
    var row := c.rows[k];
    RowAndPostKeepInv(cfg, c, k, row.(active := false), id, cfg.printed(row.who) + " was removed from the group", now);
  }

  lemma PromoteKeepsInv(cfg: Config, c: Conversation, id: Id, target: Id, actor: Id, now: int)
    requires Inv(cfg, c, id) && Promote(cfg, c, id, target, actor, now).Ok?
    ensures Inv(cfg, Promote(cfg, c, id, target, actor, now).value, id + 1)
  {
    var k := NewestWithId(c.rows, target, |c.rows|).value;
    var row := c.rows[k];
    if row.role != Admin {
      RowAndPostKeepInv(cfg, c, k, row.(role := Admin), id, cfg.printed(row.who) + " was promoted to admin", now);
    }
  }

  lemma DemoteKeepsInv(cfg: Config, c: Conversation, id: Id, target: Id, actor: Id, now: int)
    requires Inv(cfg, c, id) && Demote(cfg, c, id, target, actor, now).Ok?
    ensures Inv(cfg, Demote(cfg, c, id, target, actor, now).value, id + 1)
  {
    var k := NewestWithId(c.rows, target, |c.rows|).value;
    var row := c.rows[k];
    if row.role != Member {
      RowAndPostKeepInv(cfg, c, k, row.(role := Member), id, cfg.printed(row.who) + " was demoted from admin", now);
    }
  }

  lemma SucceedKeepsInv(cfg: Config, c: Conversation, id: Id, now: int)
    requires c.kind == Group && LogSound(cfg, c, id) && MembersSound(cfg, c, id)
    ensures Inv(cfg, Succeed(cfg, c, id, now), id + 1)
    ensures Succeed(cfg, c, id, now).kind == Group
  {
    var heir := Oldest(c.rows, |c.rows|);
    if heir.Some? && FindRow(c.rows, IsActiveAdmin()).None? {
      var row := c.rows[heir.value];
      RowAndPostKeepInv(cfg, c, heir.value, row.(role := Admin), id, cfg.printed(row.who) + " was promoted to admin",
                        now);
    }
  }

  lemma LeaveKeepsInv(cfg: Config, c: Conversation, id: Id, user: Id, now: int)
    requires Inv(cfg, c, id) && Leave(cfg, c, id, user, now).Ok?
    ensures Inv(cfg, Leave(cfg, c, id, user, now).value, id + 2)
  {
    var k := FindRow(c.rows, ActiveAs(Identity(User, user))).value;
    var left := c.(rows := c.rows[k := c.rows[k].(active := false)]);
    RowUpdateKeepsMembers(cfg, c, k, c.rows[k].(active := false), id);
    SucceedKeepsInv(cfg, left, id, now);
    PostKeepsInvInGroup(cfg, Succeed(cfg, left, id, now), id + 1,
                        cfg.printed(Identity(User, user)) + " left the group", now, id + 1);
  }

  lemma LaterIdsKeepInv(cfg: Config, c: Conversation, nextId: Id, later: Id)
    requires Inv(cfg, c, nextId) && nextId <= later
    ensures Inv(cfg, c, later)
  {
  }

  /** Every call on a conversation keeps its invariant. */
  lemma CallKeepsInv(cfg: Config, c: Conversation, nextId: Id, call: Call)
    requires Inv(cfg, c, nextId)
    ensures Inv(cfg, After(cfg, c, nextId, call), nextId + 2)
  {
    if !Attempt(cfg, c, nextId, call).Ok? {
      LaterIdsKeepInv(cfg, c, nextId, nextId + 2);
    } else if call.EditCall? || call.DeleteCall? || call.SeenCall? || call.AcceptCall? || call.IgnoreCall?
      || call.ExpireCall? {
      MarkingCallKeepsInv(cfg, c, nextId, call);
      LaterIdsKeepInv(cfg, After(cfg, c, nextId, call), nextId, nextId + 2);
    } else if call.LeaveCall? {
      LeaveKeepsInv(cfg, c, nextId, call.user, call.now);
    } else {
      PostingCallKeepsInv(cfg, c, nextId, call);
      LaterIdsKeepInv(cfg, After(cfg, c, nextId, call), nextId + 1, nextId + 2);
    }
  }

  lemma MarkingCallKeepsInv(cfg: Config, c: Conversation, nextId: Id, call: Call)
    requires Inv(cfg, c, nextId) && Attempt(cfg, c, nextId, call).Ok?
    requires call.EditCall? || call.DeleteCall? || call.SeenCall? || call.AcceptCall? || call.IgnoreCall?
             || call.ExpireCall?
    ensures Inv(cfg, Attempt(cfg, c, nextId, call).value, nextId)
  {
    match call
    case EditCall(message, content, user, now) => EditKeepsInv(cfg, c, message, content, user, now, nextId);
    case DeleteCall(message, user, staff) => DeleteKeepsInv(cfg, c, message, user, staff, nextId);
    case SeenCall(who, message) =>
      var k := FindRow(c.rows, ActiveAs(who)).value;
      RowUpdateKeepsInv(cfg, c, k, c.rows[k].(seen := Some(message)), nextId);
    case AcceptCall(user) => AnswerKeepsInv(cfg, c, user, Accepted, nextId);
    case IgnoreCall(user) => AnswerKeepsInv(cfg, c, user, Ignored, nextId);
    case ExpireCall(cutoff) => ExpireKeepsInv(cfg, c, cutoff, nextId);
  }

  lemma PostingCallKeepsInv(cfg: Config, c: Conversation, nextId: Id, call: Call)
    requires Inv(cfg, c, nextId) && Attempt(cfg, c, nextId, call).Ok?
    requires call.SendCall? || call.AddCall? || call.RemoveCall? || call.PromoteCall? || call.DemoteCall?
    ensures Inv(cfg, Attempt(cfg, c, nextId, call).value, nextId + 1)
  {
    match call
    case SendCall(sender, user, content, attachments, now) =>
      SendKeepsInv(cfg, c, nextId, sender, user, content, attachments, now);
    case AddCall(who, actor, now) => AddKeepsInv(cfg, c, nextId, who, actor, now);
    case RemoveCall(pk, actor, now) => RemoveKeepsInv(cfg, c, nextId, pk, actor, now);
    case PromoteCall(target, actor, now) => PromoteKeepsInv(cfg, c, nextId, target, actor, now);
    case DemoteCall(target, actor, now) => DemoteKeepsInv(cfg, c, nextId, target, actor, now);
  }

  lemma AnswerKeepsInv(cfg: Config, c: Conversation, user: Id, answer: Request, nextId: Id)
    requires Inv(cfg, c, nextId) && answer != Pending && Answer(c, user, answer).Ok?
    ensures Inv(cfg, Answer(c, user, answer).value, nextId)
  {
    var k := FindRow(c.rows, (r: Row) => r.active && r.who == Identity(User, user) && r.request == Pending).value;
    RowUpdateKeepsInv(cfg, c, k, c.rows[k].(request := answer), nextId);
  }
}
