// Promises about one conversation over single calls: admins, chat requests, the log
// as it grows, and unread counts.

module ChatTheorems {
  import opened Wrappers
  import opened Chat
  import opened ChatInvariants
  import opened ChatShapes

  /** The identity is an active participant. */
  predicate Takes(c: Conversation, who: Identity) {
    exists r <- c.rows :: r.active && r.who == who
  }

  // ----------------------------------------------------------------- admins

  predicate HasAdmin(c: Conversation) {
    exists r <- c.rows :: r.active && r.role == Admin
  }

  ghost predicate Led(c: Conversation) {
    c.kind == Group && c.active ==> HasAdmin(c)
  }

  lemma HasAdminIffCount(c: Conversation)
    ensures HasAdmin(c) <==> AdminCount(c.rows) > 0
  {
    CountPositive(c.rows, IsActiveAdmin());
    if HasAdmin(c) {
      var r :| r in c.rows && r.active && r.role == Admin;
      var i :| 0 <= i < |c.rows| && c.rows[i] == r;
      assert IsActiveAdmin()(c.rows[i]);
    }
    if i :| 0 <= i < |c.rows| && IsActiveAdmin()(c.rows[i]) {
      assert c.rows[i] in c.rows;
    }
  }

  lemma HasAdminAfterUpdate(c: Conversation, k: nat, row: Row)
    requires k < |c.rows|
    ensures HasAdmin(c.(rows := c.rows[k := row]))
            <==> AdminCount(c.rows) - (if IsActiveAdmin()(c.rows[k]) then 1 else 0)
                 + (if IsActiveAdmin()(row) then 1 else 0) > 0
  {
    HasAdminIffCount(c.(rows := c.rows[k := row]));
    CountUpdate(c.rows, k, row, IsActiveAdmin());
  }

  /** In an active group, the acting admin removes their own row while being the only active admin. */
  predicate Abdicates(c: Conversation, call: Call) {
    && call.RemoveCall? && c.kind == Group && c.active
    && AdminCount(c.rows) == 1
    && exists r <- c.rows :: r.active && r.role == Admin && r.pk == call.pk && r.who == Identity(User, call.actor)
  }

  /** A removal leaves the group without an admin exactly when the only admin removes themselves. */
  lemma RemoveKeepsAdminIff(cfg: Config, c: Conversation, id: Id, pk: Id, actor: Id, now: int)
    requires Inv(cfg, c, id) && Remove(cfg, c, id, pk, actor, now).Ok?
    ensures HasAdmin(Remove(cfg, c, id, pk, actor, now).value) <==> !Abdicates(c, RemoveCall(pk, actor, now))
  {
    var k := FindRow(c.rows, (r: Row) => r.active && r.pk == pk).value;
    var row := c.rows[k];
    HasAdminAfterUpdate(c, k, row.(active := false));
    HasAdminIffCount(c);
    var a :| a in c.rows && a.active && a.role == Admin && a.who == Identity(User, actor);
    var j :| 0 <= j < |c.rows| && c.rows[j] == a;
    if k != j && row.role == Admin {
      TwoAdmins(c.rows, k, j);
    }
    if r :| r in c.rows && r.active && r.pk == pk && r.who == Identity(User, actor) {
      var i :| 0 <= i < |c.rows| && c.rows[i] == r;
      assert i == k == j;
    }
  }

  lemma {:induction false} TwoAdmins(rows: seq<Row>, i: nat, j: nat)
    requires i < |rows| && j < |rows| && i != j && IsActiveAdmin()(rows[i]) && IsActiveAdmin()(rows[j])
    ensures AdminCount(rows) >= 2
  {
    var off := rows[i].(active := false);
    CountUpdate(rows, i, off, IsActiveAdmin());
    CountPositive(rows[i := off], IsActiveAdmin());
    assert IsActiveAdmin()(rows[i := off][j]);
  }

  /** After anyone leaves, a group that is still active has an admin, whatever it had before. */
  lemma LeaveLeavesAnAdmin(cfg: Config, c: Conversation, id: Id, user: Id, now: int)
    requires Leave(cfg, c, id, user, now).Ok?
    ensures Led(Leave(cfg, c, id, user, now).value)
  {
    var k := FindRow(c.rows, ActiveAs(Identity(User, user))).value;
    var left := c.(rows := c.rows[k := c.rows[k].(active := false)]);
    var heir := Oldest(left.rows, |left.rows|);
    var after := Succeed(cfg, left, id, now);
    if heir.Some? {
      var found := FindRow(left.rows, IsActiveAdmin());
      if found.Some? {
        assert after.rows[found.value] in after.rows;
      } else {
        assert after.rows[heir.value].active && after.rows[heir.value].role == Admin;
        assert after.rows[heir.value] in after.rows;
      }
    }
  }

  /** The successor is an active participant none of the others joined before, and the only admin. */
  lemma SuccessorIsOldest(cfg: Config, c: Conversation, id: Id, now: int)
    requires !HasAdmin(c) && exists r <- c.rows :: r.active
    ensures
      var d := Succeed(cfg, c, id, now);
      && AdminCount(d.rows) == 1
      && exists r <- d.rows :: r.active && r.role == Admin && forall s <- d.rows :: s.active ==> r.created <= s.created
  {
    var r0 :| r0 in c.rows && r0.active;
    var i0 :| 0 <= i0 < |c.rows| && c.rows[i0] == r0;
    var heir := Oldest(c.rows, |c.rows|);
    var d := Succeed(cfg, c, id, now);
    HasAdminIffCount(c);
    CountUpdate(c.rows, heir.value, c.rows[heir.value].(role := Admin), IsActiveAdmin());
    assert d.rows[heir.value] in d.rows;
  }

  lemma AddKeepsLed(cfg: Config, c: Conversation, id: Id, who: Identity, actor: Id, now: int)
    requires HasAdmin(c) && Add(cfg, c, id, id, who, actor, now).Ok?
    ensures HasAdmin(Add(cfg, c, id, id, who, actor, now).value)
  {
    var r :| r in c.rows && r.active && r.role == Admin;
    var i :| 0 <= i < |c.rows| && c.rows[i] == r;
    var d := Add(cfg, c, id, id, who, actor, now).value;
    assert d.rows[i] == c.rows[i] && d.rows[i] in d.rows;
  }

  lemma PromoteKeepsLed(cfg: Config, c: Conversation, id: Id, target: Id, actor: Id, now: int)
    requires HasAdmin(c) && Promote(cfg, c, id, target, actor, now).Ok?
    ensures HasAdmin(Promote(cfg, c, id, target, actor, now).value)
  {
    HasAdminIffCount(c);
    var k := NewestWithId(c.rows, target, |c.rows|).value;
    HasAdminAfterUpdate(c, k, c.rows[k].(role := Admin));
  }

  /** The guard against demoting the last admin is enough. */
  lemma DemoteKeepsLed(cfg: Config, c: Conversation, id: Id, target: Id, actor: Id, now: int)
    requires HasAdmin(c) && Demote(cfg, c, id, target, actor, now).Ok?
    ensures HasAdmin(Demote(cfg, c, id, target, actor, now).value)
  {
    var k := NewestWithId(c.rows, target, |c.rows|).value;
    HasAdminAfterUpdate(c, k, c.rows[k].(role := Member));
  }

  lemma MarksKeepLed(cfg: Config, c: Conversation, nextId: Id, call: Call)
    requires Led(c) && Attempt(cfg, c, nextId, call).Ok?
    requires call.SeenCall? || call.AcceptCall? || call.IgnoreCall? || call.ExpireCall?
    ensures Led(Attempt(cfg, c, nextId, call).value)
  {
    if c.kind == Group && c.active {
      var d := Attempt(cfg, c, nextId, call).value;
      var r :| r in c.rows && r.active && r.role == Admin;
      var i :| 0 <= i < |c.rows| && c.rows[i] == r;
      assert d.rows[i].active && d.rows[i].role == Admin && d.rows[i] in d.rows;
    }
  }

  /** Every call but an abdication keeps an active group with an active admin. */
  lemma OthersKeepLed(cfg: Config, c: Conversation, nextId: Id, call: Call)
    requires Inv(cfg, c, nextId) && Led(c) && !Abdicates(c, call)
    ensures Led(After(cfg, c, nextId, call))
  {
    if Attempt(cfg, c, nextId, call).Ok? {
      match call
      case RemoveCall(pk, actor, now) => RemoveKeepsAdminIff(cfg, c, nextId, pk, actor, now);
      case LeaveCall(user, now) => LeaveLeavesAnAdmin(cfg, c, nextId, user, now);
      case AddCall(who, actor, now) => AddKeepsLed(cfg, c, nextId, who, actor, now);
      case PromoteCall(target, actor, now) => PromoteKeepsLed(cfg, c, nextId, target, actor, now);
      case DemoteCall(target, actor, now) => DemoteKeepsLed(cfg, c, nextId, target, actor, now);
      case SendCall(_, _, _, _, _) =>
      case EditCall(_, _, _, _) =>
      case DeleteCall(_, _, _) =>
      case _ => MarksKeepLed(cfg, c, nextId, call);
    }
  }

  /** An abdication is never refused. */
  lemma AbdicationSucceeds(cfg: Config, c: Conversation, nextId: Id, call: Call)
    requires Abdicates(c, call)
    ensures Remove(cfg, c, nextId, call.pk, call.actor, call.now).Ok?
  {
    var r :| r in c.rows && r.active && r.role == Admin && r.pk == call.pk && r.who == Identity(User, call.actor);
    var i :| 0 <= i < |c.rows| && c.rows[i] == r;
    assert CanManage(c, call.actor);
  }

  /** A call keeps an active group led if and only if it is no abdication. */
  lemma CallKeepsLed(cfg: Config, c: Conversation, nextId: Id, call: Call)
    requires Inv(cfg, c, nextId) && Led(c)
    ensures Led(After(cfg, c, nextId, call)) <==> !Abdicates(c, call)
  {
    if Abdicates(c, call) {
      AbdicationSucceeds(cfg, c, nextId, call);
      RemoveKeepsAdminIff(cfg, c, nextId, call.pk, call.actor, call.now);
    } else {
      OthersKeepLed(cfg, c, nextId, call);
    }
  }

  // -------------------------------------------------------- who is a member

  /** One more active row, a plain member of that identity; every other identity's row is untouched. */
  ghost predicate Joined(before: seq<Row>, after: seq<Row>, who: Identity) {
    && ActiveCount(after) == ActiveCount(before) + 1
    && AdminCount(after) == AdminCount(before)
    && (exists r <- after :: r.active && r.who == who && r.role == Member)
    && |before| <= |after|
    && forall i :: 0 <= i < |before| && before[i].who != who ==> after[i] == before[i]
  }

  lemma RejoinJoins(rows: seq<Row>, k: nat)
    requires k < |rows| && !rows[k].active
    ensures Joined(rows, rows[k := rows[k].(active := true, role := Member)], rows[k].who)
  {
    var row := rows[k].(active := true, role := Member);
    CountUpdate(rows, k, row, IsActive());
    CountUpdate(rows, k, row, IsActiveAdmin());
    assert rows[k := row][k] == row;
  }

  lemma AppendJoins(rows: seq<Row>, row: Row)
    requires row.active && row.role == Member
    ensures Joined(rows, rows + [row], row.who)
  {
    var after := rows + [row];
    assert after[..|after| - 1] == rows && after[|after| - 1] == row;
  }

  /** Adding makes exactly one more active row: a plain member of that identity. */
  lemma AddedIsPlainMember(cfg: Config, c: Conversation, id: Id, who: Identity, actor: Id, now: int)
    requires Add(cfg, c, id, id, who, actor, now).Ok?
    ensures Joined(c.rows, Add(cfg, c, id, id, who, actor, now).value.rows, who)
  {
    var inactive := FindRow(c.rows, (r: Row) => !r.active && r.who == who);
    if inactive.Some? {
      RejoinJoins(c.rows, inactive.value);
    } else {
      AppendJoins(c.rows, Row(id, who, Member, NoRequest, true, now, None));
    }
  }

  /** Removing deactivates exactly the named row. */
  lemma RemovedRowIsInactive(cfg: Config, c: Conversation, id: Id, pk: Id, actor: Id, now: int)
    requires Remove(cfg, c, id, pk, actor, now).Ok?
    ensures
      var d := Remove(cfg, c, id, pk, actor, now).value;
      && ActiveCount(d.rows) == ActiveCount(c.rows) - 1 && |d.rows| == |c.rows|
      && exists k :: 0 <= k < |c.rows| && c.rows[k].pk == pk && c.rows[k].active
           && d.rows == c.rows[k := c.rows[k].(active := false)]
  {
    var k := FindRow(c.rows, (r: Row) => r.active && r.pk == pk).value;
    CountUpdate(c.rows, k, c.rows[k].(active := false), IsActive());
  }

  /** Whoever left or was removed comes back on their old row, with its watermark, as a plain member. */
  lemma RejoiningReusesTheRow(cfg: Config, c: Conversation, id: Id, k: nat, actor: Id, now: int)
    requires Inv(cfg, c, id) && k < |c.rows| && !c.rows[k].active
    requires Add(cfg, c, id, id, c.rows[k].who, actor, now).Ok?
    ensures Add(cfg, c, id, id, c.rows[k].who, actor, now).value.rows
            == c.rows[k := c.rows[k].(active := true, role := Member)]
  {
    var who := c.rows[k].who;
    var inactive := FindRow(c.rows, (r: Row) => !r.active && r.who == who);
    assert inactive == Some(k);
  }

  // --------------------------------------------------------------- requests

  lemma PendingIsNeverReentered(cfg: Config, c: Conversation, nextId: Id, call: Call)
    ensures RowsAge(c.rows, After(cfg, c, nextId, call).rows)
  {
    if call.EditCall? || call.DeleteCall? || call.SeenCall? {
      OtherCallsShape(cfg, c, nextId, call);
    } else {
      CallShape(cfg, c, nextId, call);
    }
  }

  // --------------------------------------------------------- the growing log

  /** Messages are only appended; a stored one keeps its key, sender, number and time. */
  ghost predicate LogGrows(before: seq<Message>, after: seq<Message>) {
    && |before| <= |after|
    && forall i :: 0 <= i < |before| ==>
         && after[i].id == before[i].id && after[i].sender == before[i].sender
         && after[i].number == before[i].number && after[i].at == before[i].at
  }

  lemma AppendingGrows(before: seq<Message>, after: seq<Message>, sender: Identity, nextId: Id)
    requires Appends(before, after, sender, nextId)
    ensures LogGrows(before, after)
  {
    forall i | 0 <= i < |before| ensures after[i] == before[i] {
      assert after[i] == after[..|before|][i];
    }
  }

  lemma MessagesAreNeverDropped(cfg: Config, c: Conversation, nextId: Id, call: Call)
    ensures LogGrows(c.messages, After(cfg, c, nextId, call).messages)
  {
    if call.EditCall? || call.DeleteCall? || call.SeenCall? {
      OtherCallsShape(cfg, c, nextId, call);
    } else {
      CallShape(cfg, c, nextId, call);
      AppendingGrows(c.messages, After(cfg, c, nextId, call).messages, PosterOf(c, call), nextId);
    }
  }

  /** A call leaves a stored message alone unless it edits or deletes exactly that one. */
  lemma MessageAfterCall(cfg: Config, c: Conversation, nextId: Id, call: Call, i: nat)
    requires i < |c.messages|
    ensures i < |After(cfg, c, nextId, call).messages|
    ensures
      var m, m' := c.messages[i], After(cfg, c, nextId, call).messages[i];
      if Edits(cfg, c, nextId, call, i) then
        && m.status != Deleted
        && m' == m.(content := call.content, status := Edited,
                    original := if m.original == "" then m.content else m.original)
      else if Deletes(cfg, c, nextId, call, i) then m' == m.(content := "", original := m.content, status := Deleted)
      else m' == m
  {
    if !call.EditCall? && !call.DeleteCall? && !call.SeenCall? {
      CallShape(cfg, c, nextId, call);
      assert After(cfg, c, nextId, call).messages[i] == After(cfg, c, nextId, call).messages[..|c.messages|][i];
    }
  }

  /** The call successfully edits message `i`. */
  predicate Edits(cfg: Config, c: Conversation, nextId: Id, call: Call, i: nat) {
    call.EditCall? && FindMessage(c.messages, call.message) == Some(i) && Attempt(cfg, c, nextId, call).Ok?
  }

  /** The call successfully deletes message `i`, which was not deleted before. */
  predicate Deletes(cfg: Config, c: Conversation, nextId: Id, call: Call, i: nat) {
    && call.DeleteCall? && FindMessage(c.messages, call.message) == Some(i) && Attempt(cfg, c, nextId, call).Ok?
    && i < |c.messages| && c.messages[i].status != Deleted
  }

  lemma {:induction false} FindAfterUpdate(messages: seq<Message>, k: nat, m: Message, id: Id)
    requires k < |messages| && m.id == messages[k].id
    ensures FindMessage(messages[k := m], id) == FindMessage(messages, id)
  {
    var n := |messages| - 1;
    if k == n {
      assert messages[k := m][..n] == messages[..n];
    } else {
      assert messages[k := m][..n] == messages[..n][k := m];
      FindAfterUpdate(messages[..n], k, m, id);
    }
  }

  // ------------------------------------------- what a successful call has done

  /** The log grew by one message, numbered next, and the cache describes it. */
  ghost predicate Sent(cfg: Config, c: Conversation, d: Conversation, sender: Identity, content: string) {
    var n := |c.messages|;
    && |d.messages| == n + 1 && d.messages[..n] == c.messages
    && d.messages[n].number == n + 1 && d.messages[n].sender == sender && d.messages[n].content == content
    && d.last == Some(LastOf(cfg, d.messages[n]))
  }

  lemma SendSends(cfg: Config, c: Conversation, id: Id, sender: Identity, user: Id, content: string,
                  attachments: Attachments, now: int)
    requires Numbered(c.messages) && Send(cfg, c, id, sender, user, content, attachments, now).Ok?
    ensures Sent(cfg, c, Send(cfg, c, id, sender, user, content, attachments, now).value, sender, content)
    ensures Takes(c, sender) && |content| <= cfg.maxLength
  {
    MaxNumberIsLength(c.messages);
    var k := FindRow(c.rows, ActiveAs(sender));
    assert c.rows[k.value] in c.rows;
  }

  /** Exactly one message, the named one, has this content and status now. */
  ghost predicate Shows(c: Conversation, d: Conversation, id: Id, content: string, status: Status) {
    var k := FindMessage(c.messages, id);
    && k.Some? && |d.messages| == |c.messages|
    && d.messages[k.value].content == content && d.messages[k.value].status == status
    && forall j :: 0 <= j < |c.messages| && j != k.value ==> d.messages[j] == c.messages[j]
  }

  lemma EditShows(cfg: Config, c: Conversation, id: Id, content: string, user: Id, now: int)
    requires Edit(cfg, c, id, content, user, now).Ok?
    ensures Shows(c, Edit(cfg, c, id, content, user, now).value, id, content, Edited)
  {
  }

  /** What a deletion leaves visible: nothing, unless the message was deleted before. */
  function Remainder(c: Conversation, id: Id): string {
    var k := FindMessage(c.messages, id);
    if k.Some? && c.messages[k.value].status == Deleted then c.messages[k.value].content else ""
  }

  lemma DeleteHides(cfg: Config, c: Conversation, id: Id, user: Id, staff: bool)
    requires Delete(c, id, user, staff).Ok?
    ensures Shows(c, Delete(c, id, user, staff).value, id, Remainder(c, id), Deleted)
  {
  }

  /** Nobody is active under that row any more. */
  predicate Gone(rows: seq<Row>, pk: Id) {
    forall r <- rows :: r.pk == pk ==> !r.active
  }

  lemma RemovedIsGone(cfg: Config, c: Conversation, id: Id, pk: Id, actor: Id, now: int)
    requires OneRowEach(c.rows, id) && Remove(cfg, c, id, pk, actor, now).Ok?
    ensures Gone(Remove(cfg, c, id, pk, actor, now).value.rows, pk)
  {
    var k := FindRow(c.rows, (r: Row) => r.active && r.pk == pk).value;
    var d := Remove(cfg, c, id, pk, actor, now).value;
    forall r | r in d.rows && r.pk == pk ensures !r.active {
      var i :| 0 <= i < |d.rows| && d.rows[i] == r;
      assert i == k;
    }
  }

  lemma LeaverIsGone(cfg: Config, c: Conversation, id: Id, user: Id, now: int)
    requires OneRowEach(c.rows, id) && Leave(cfg, c, id, user, now).Ok?
    ensures !Takes(Leave(cfg, c, id, user, now).value, Identity(User, user))
  {
    var k := FindRow(c.rows, ActiveAs(Identity(User, user))).value;
    var left := c.(rows := c.rows[k := c.rows[k].(active := false)]);
    var d := Leave(cfg, c, id, user, now).value;
    assert d.rows == Succeed(cfg, left, id, now).rows;
    forall r | r in d.rows && r.who == Identity(User, user) ensures !r.active {
      var i :| 0 <= i < |d.rows| && d.rows[i] == r;
      assert left.rows[i].who == r.who && left.rows[k].who == r.who;
      assert i == k;
    }
  }

  /** Some active participant with that id has the role. */
  predicate Holds(rows: seq<Row>, id: Id, role: Role) {
    exists r <- rows :: r.active && r.who.id == id && r.role == role
  }

  lemma PromotedHoldsAdmin(cfg: Config, c: Conversation, id: Id, target: Id, actor: Id, now: int)
    requires Promote(cfg, c, id, target, actor, now).Ok?
    ensures Holds(Promote(cfg, c, id, target, actor, now).value.rows, target, Admin)
  {
    var k := NewestWithId(c.rows, target, |c.rows|).value;
    var d := Promote(cfg, c, id, target, actor, now).value;
    assert d.rows[k] in d.rows;
  }

  /** A demotion leaves a member and an admin; one refused by the rule was aimed at the only admin. */
  lemma DemotionOutcome(cfg: Config, c: Conversation, id: Id, target: Id, actor: Id, now: int)
    ensures
      match Demote(cfg, c, id, target, actor, now)
      case Ok(d) => Holds(d.rows, target, Member) && HasAdmin(d)
      case Fail(Rule) => AdminCount(c.rows) == 1 && Holds(c.rows, target, Admin)
      case Fail(_) => true
  {
    if c.active && CanManage(c, actor) {
      HasAdminIffCount(c);
      var k := NewestWithId(c.rows, target, |c.rows|);
      if k.Some? {
        assert c.rows[k.value] in c.rows;
        var r := Demote(cfg, c, id, target, actor, now);
        if r.Ok? {
          DemoteKeepsLed(cfg, c, id, target, actor, now);
          assert r.value.rows[k.value] in r.value.rows;
        }
      }
    }
  }

  /** Exactly one row changed, from pending to the answer. */
  ghost predicate Answered(before: seq<Row>, after: seq<Row>, who: Identity, answer: Request) {
    exists k :: 0 <= k < |before| && before[k].active && before[k].who == who && before[k].request == Pending
      && after == before[k := before[k].(request := answer)]
  }

  lemma AnswerAnswers(c: Conversation, user: Id, answer: Request)
    requires Answer(c, user, answer).Ok?
    ensures Answered(c.rows, Answer(c, user, answer).value.rows, Identity(User, user), answer)
  {
  }

  /** An answer is refused exactly when no active row of the user is pending. */
  lemma AnswerRefusedIff(c: Conversation, user: Id, answer: Request)
    ensures Answer(c, user, answer).Fail?
            <==> !exists r <- c.rows :: r.active && r.who == Identity(User, user) && r.request == Pending
  {
    var p := (r: Row) => r.active && r.who == Identity(User, user) && r.request == Pending;
    var k := FindRow(c.rows, p);
    if k.Some? {
      assert c.rows[k.value] in c.rows;
    }
    if r :| r in c.rows && p(r) {
      var i :| 0 <= i < |c.rows| && c.rows[i] == r;
    }
  }

  // ------------------------------------------------------------ unread counts

  predicate Counts(m: Message, who: Identity, floor: nat) {
    m.status != Deleted && m.sender != who && m.number > floor
  }

  /** Visible messages of others with a number above the watermark. */
  function Unread(messages: seq<Message>, who: Identity, floor: nat): nat {
    if messages == [] then 0
    else Unread(messages[..|messages| - 1], who, floor) + if Counts(messages[|messages| - 1], who, floor) then 1 else 0
  }

  lemma {:induction false} NothingAbove(messages: seq<Message>, who: Identity, floor: nat)
    requires forall m <- messages :: m.number <= floor
    ensures Unread(messages, who, floor) == 0
  {
    if messages != [] {
      assert messages[|messages| - 1] in messages;
      NothingAbove(messages[..|messages| - 1], who, floor);
    }
  }

  lemma {:induction false} UnreadUpdate(messages: seq<Message>, k: nat, m: Message, who: Identity, floor: nat)
    requires k < |messages|
    ensures Unread(messages[k := m], who, floor)
            == Unread(messages, who, floor) - (if Counts(messages[k], who, floor) then 1 else 0)
               + (if Counts(m, who, floor) then 1 else 0)
  {
    var n := |messages| - 1;
    if k == n {
      assert messages[k := m][..n] == messages[..n];
    } else {
      assert messages[k := m][..n] == messages[..n][k := m];
      UnreadUpdate(messages[..n], k, m, who, floor);
    }
  }

  /** Deleting subtracts one exactly where the message was counted; deleting again changes nothing. */
  lemma DeleteSubtractsCounted(c: Conversation, id: Id, user: Id, staff: bool, who: Identity, floor: nat)
    requires Delete(c, id, user, staff).Ok?
    ensures FindMessage(c.messages, id).Some?
    ensures Unread(Delete(c, id, user, staff).value.messages, who, floor)
            == Unread(c.messages, who, floor)
               - if Counts(c.messages[FindMessage(c.messages, id).value], who, floor) then 1 else 0
  {
    var k := FindMessage(c.messages, id).value;
    var m := c.messages[k];
    UnreadUpdate(c.messages, k, m.(content := "", original := m.content, status := Deleted), who, floor);
  }

  /** Editing never changes an unread count. */
  lemma EditKeepsUnread(cfg: Config, c: Conversation, id: Id, content: string, user: Id, now: int, who: Identity,
                        floor: nat)
    requires Edit(cfg, c, id, content, user, now).Ok?
    ensures Unread(Edit(cfg, c, id, content, user, now).value.messages, who, floor) == Unread(c.messages, who, floor)
  {
    var k := FindMessage(c.messages, id).value;
    UnreadUpdate(c.messages, k, Edit(cfg, c, id, content, user, now).value.messages[k], who, floor);
  }
}
