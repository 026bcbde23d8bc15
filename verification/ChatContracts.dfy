// What every call on a conversation does and when it is refused, told on rows and messages.

module ChatContracts {
  import opened Wrappers
  import opened Chat
  import opened ChatInvariants
  import opened ChatTheorems

  // ------------------------------------------------------------------- rows

  /** The positions of the active rows, and of those with the admin role. */
  ghost function Actives(rows: seq<Row>): set<nat> {
    set i: nat | i < |rows| && rows[i].active
  }

  ghost function Admins(rows: seq<Row>): set<nat> {
    set i: nat | i < |rows| && rows[i].active && rows[i].role == Admin
  }

  ghost predicate ActiveRow(c: Conversation, who: Identity) {
    exists i :: 0 <= i < |c.rows| && c.rows[i].active && c.rows[i].who == who
  }

  /** In a group, an active row with the admin role that is this user's. */
  ghost predicate AdminRow(c: Conversation, user: Id) {
    c.kind == Group
    && exists i :: 0 <= i < |c.rows| && c.rows[i].active && c.rows[i].role == Admin
                   && c.rows[i].who == Identity(User, user)
  }

  /** The positions a filter accepts. */
  ghost function Positions<T>(s: seq<T>, p: T -> bool): set<nat> {
    set i: nat | i < |s| && p(s[i])
  }

  lemma PositionsGrow<T>(s: seq<T>, p: T -> bool)
    requires s != []
    ensures
      var n := |s| - 1;
      Positions(s, p) == Positions(s[..n], p) + (if p(s[n]) then {n} else {}) && n !in Positions(s[..n], p)
  {
  }

  lemma {:induction false} CountIsPositions(rows: seq<Row>, p: Row -> bool)
    ensures CountRows(rows, p) == |Positions(rows, p)|
  {
    if rows != [] {
      PositionsGrow(rows, p);
      CountIsPositions(rows[..|rows| - 1], p);
    }
  }

  lemma CountsAre(rows: seq<Row>)
    ensures ActiveCount(rows) == |Actives(rows)| && AdminCount(rows) == |Admins(rows)|
  {
    CountIsPositions(rows, IsActive());
    CountIsPositions(rows, IsActiveAdmin());
    assert Positions(rows, IsActive()) == Actives(rows);
    assert Positions(rows, IsActiveAdmin()) == Admins(rows);
  }

  lemma ManagersAre(c: Conversation, user: Id)
    ensures CanManage(c, user) <==> AdminRow(c, user)
  {
    if i :| 0 <= i < |c.rows| && c.rows[i].active && c.rows[i].role == Admin && c.rows[i].who == Identity(User, user) {
      assert c.rows[i] in c.rows;
    }
  }

  lemma FoundIffActive(c: Conversation, who: Identity)
    ensures FindRow(c.rows, ActiveAs(who)).Some? <==> ActiveRow(c, who)
  {
    if i :| 0 <= i < |c.rows| && c.rows[i].active && c.rows[i].who == who {
      assert ActiveAs(who)(c.rows[i]);
    }
  }

  // --------------------------------------------------------------- messages

  /** The positions of a sender's messages. */
  ghost function SentAt(messages: seq<Message>, who: Identity): set<nat> {
    set i: nat | i < |messages| && messages[i].sender == who
  }

  lemma {:induction false} SentByIs(messages: seq<Message>, who: Identity)
    ensures SentBy(messages, who) == |SentAt(messages, who)|
  {
    if messages != [] {
      var n := |messages| - 1;
      SentByIs(messages[..n], who);
      assert SentAt(messages, who) == SentAt(messages[..n], who) + if messages[n].sender == who then {n} else {};
    }
  }

  /** A text's first `n` characters, or all of a shorter one. */
  ghost predicate IsPreview(p: string, text: string, n: nat) {
    p <= text && |p| == if |text| < n then |text| else n
  }

  /** The message is at the end of the log, and the cached fields are its own. */
  ghost predicate Appended(cfg: Config, c: Conversation, d: Conversation, m: Message) {
    && d.messages == c.messages + [m]
    && d.last.Some? && d.last.value.id == m.id && d.last.value.at == m.at && d.last.value.sender == m.sender
    && IsPreview(d.last.value.preview, m.content, cfg.preview)
  }

  /** A message in the creator's name as a user, numbered next, and no other change but in the rows and the status. */
  ghost predicate Announced(cfg: Config, c: Conversation, d: Conversation, id: Id, text: string, now: int) {
    && d == c.(rows := d.rows, active := d.active, messages := d.messages, last := d.last)
    && Appended(cfg, c, d,
                Message(id, Identity(User, c.creator.id), None, text, "", |c.messages| + 1, Active, now))
  }

  lemma PostAppends(cfg: Config, c: Conversation, id: Id, sender: Identity, acting: Option<Id>, content: string,
                    now: int)
    requires Numbered(c.messages)
    ensures
      var d := Post(cfg, c, id, sender, acting, content, now);
      && d == c.(messages := d.messages, last := d.last)
      && Appended(cfg, c, d, Message(id, sender, acting, content, "", |c.messages| + 1, Active, now))
  {
    MaxNumberIsLength(c.messages);
  }

  lemma SystemAnnounces(cfg: Config, c: Conversation, d: Conversation, id: Id, text: string, now: int)
    requires Numbered(c.messages) && d == c.(rows := d.rows, active := d.active)
    ensures Announced(cfg, c, PostSystem(cfg, d, id, text, now), id, text, now)
    ensures PostSystem(cfg, d, id, text, now).rows == d.rows && PostSystem(cfg, d, id, text, now).active == d.active
  {
    PostAppends(cfg, d, id, Identity(User, c.creator.id), None, text, now);
  }

  // ---------------------------------------------------------------- sending

  /** Nothing to send, or too much. */
  ghost predicate Unsendable(cfg: Config, content: string, attachments: Attachments) {
    (cfg.blank(content) && attachments == NoAttachments) || |content| > cfg.maxLength
  }

  /** In a DM whose other side has not accepted yet, the sender has sent as much as is allowed. */
  ghost predicate Capped(cfg: Config, c: Conversation, sender: Identity) {
    && c.kind == Direct
    && (exists i :: 0 <= i < |c.rows| && c.rows[i].active && c.rows[i].request == Pending && c.rows[i].who != sender)
    && |SentAt(c.messages, sender)| >= cfg.maxRequestMessages
  }

  lemma CappedIff(cfg: Config, c: Conversation, sender: Identity)
    ensures OverLimit(cfg, c, sender) <==> Capped(cfg, c, sender)
  {
    SentByIs(c.messages, sender);
    if i :| 0 <= i < |c.rows| && c.rows[i].active && c.rows[i].request == Pending && c.rows[i].who != sender {
      assert c.rows[i] in c.rows;
    }
  }

  /** Which check refuses a message, in order; whatever passes all of them is sent. */
  lemma SendRefusedIff(cfg: Config, c: Conversation, id: Id, sender: Identity, user: Id, content: string,
                       attachments: Attachments, now: int)
    ensures
      var r := Send(cfg, c, id, sender, user, content, attachments, now);
      var unsendable := Unsendable(cfg, content, attachments);
      var allowed := c.active && ActiveRow(c, sender);
      && (r == Fail(NotFound) <==> !unsendable && !c.active)
      && (r == Fail(Denied) <==> !unsendable && c.active && !ActiveRow(c, sender))
      && (r == Fail(Rule) <==> !unsendable && allowed && Capped(cfg, c, sender))
      && (r == Fail(Invalid)
          <==> unsendable || (allowed && !Capped(cfg, c, sender) && attachments == Unlinkable))
      && (r.Ok? <==> !unsendable && allowed && !Capped(cfg, c, sender) && attachments != Unlinkable)
  {
    FoundIffActive(c, sender);
    CappedIff(cfg, c, sender);
  }

  /** The message as it is stored; an entity's message names the user acting for it. */
  lemma SentMessage(cfg: Config, c: Conversation, id: Id, sender: Identity, user: Id, content: string,
                    attachments: Attachments, now: int)
    requires Numbered(c.messages) && Send(cfg, c, id, sender, user, content, attachments, now).Ok?
    ensures
      var d := Send(cfg, c, id, sender, user, content, attachments, now).value;
      && d == c.(messages := d.messages, last := d.last)
      && Appended(cfg, c, d, Message(id, sender, if sender.kind == User then None else Some(user), content, "",
                                     |c.messages| + 1, Active, now))
  {
    PostAppends(cfg, c, id, sender, if sender.kind == User then None else Some(user), content, now);
  }

  // ------------------------------------------------------- edits, deletions

  /** The user wrote the message, or acted for the entity that did. */
  ghost predicate Wrote(m: Message, user: Id) {
    m.sender == Identity(User, user) || m.acting == Some(user)
  }

  /** Message `k` alone became `m`, and the cached preview follows if it is the cached one. */
  ghost predicate Rewritten(c: Conversation, d: Conversation, k: nat, m: Message, n: nat) {
    && k < |c.messages|
    && d == c.(messages := c.messages[k := m], last := d.last)
    && if c.last.Some? && c.last.value.id == m.id
       then d.last.Some? && d.last.value == c.last.value.(preview := d.last.value.preview)
            && IsPreview(d.last.value.preview, m.content, n)
       else d.last == c.last
  }

  lemma UnknownMessage(cfg: Config, c: Conversation, id: Id, content: string, user: Id, staff: bool, now: int)
    requires forall m <- c.messages :: m.id != id
    ensures Edit(cfg, c, id, content, user, now) == Fail(NotFound) && Delete(c, id, user, staff) == Fail(NotFound)
  {
    assert forall k :: 0 <= k < |c.messages| ==> c.messages[k] in c.messages;
  }

  lemma MessageFound(c: Conversation, nextId: Id, k: nat)
    requires DistinctIds(c.messages, nextId) && k < |c.messages|
    ensures FindMessage(c.messages, c.messages[k].id) == Some(k)
  {
  }

  /**
   * An edit: denied to everyone but the author, refused by the rule for a deleted message
   * or after the window, invalid when blank or too long; else the message shows the text
   * as edited and keeps the first one it had.
   */
  lemma EditOutcome(cfg: Config, c: Conversation, nextId: Id, k: nat, content: string, user: Id, now: int)
    requires DistinctIds(c.messages, nextId) && k < |c.messages|
    ensures
      var m := c.messages[k];
      var r := Edit(cfg, c, m.id, content, user, now);
      var late := m.status == Deleted || now - m.at > 60 * cfg.editWindow;
      var unfit := cfg.blank(content) || |content| > cfg.maxLength;
      && (r == Fail(Denied) <==> !Wrote(m, user))
      && (r == Fail(Rule) <==> Wrote(m, user) && late)
      && (r == Fail(Invalid) <==> Wrote(m, user) && !late && unfit)
      && (r.Ok? <==> Wrote(m, user) && !late && !unfit)
      && (r.Ok? ==>
            Rewritten(c, r.value, k,
                      m.(content := content, status := Edited,
                         original := if m.original == "" then m.content else m.original), cfg.preview))
  {
    MessageFound(c, nextId, k);
  }

  /**
   * A deletion: denied to everyone but the author, the group's admins and staff; else the
   * message shows nothing and keeps its text aside. Deleting again changes nothing.
   */
  lemma DeleteOutcome(c: Conversation, nextId: Id, k: nat, user: Id, staff: bool)
    requires DistinctIds(c.messages, nextId) && k < |c.messages|
    ensures
      var m := c.messages[k];
      var r := Delete(c, m.id, user, staff);
      && (r == Fail(Denied) <==> !Wrote(m, user) && !AdminRow(c, user) && !staff)
      && (r.Fail? ==> r.error == Denied)
      && (r.Ok? && m.status == Deleted ==> r.value == c)
      && (r.Ok? && m.status != Deleted ==>
            Rewritten(c, r.value, k, m.(content := "", original := m.content, status := Deleted), 0))
  {
    MessageFound(c, nextId, k);
    ManagersAre(c, user);
  }

  // -------------------------------------------------------------- own rows

  /** Row `k`, an active one of this identity, alone became `row`; nothing else changed. */
  ghost predicate OwnRowSet(c: Conversation, d: Conversation, who: Identity, k: nat, row: Row) {
    k < |c.rows| && c.rows[k].active && c.rows[k].who == who && d == c.(rows := c.rows[k := row])
  }

  /** Marking seen: not found exactly without an active row; else the watermark of one such row alone is set. */
  lemma SeenOutcome(c: Conversation, who: Identity, message: Id)
    ensures
      var r := MarkSeen(c, who, message);
      && (r.Ok? <==> ActiveRow(c, who))
      && (r.Fail? ==> r.error == NotFound)
      && (r.Ok? ==> exists k: nat :: k < |c.rows| && OwnRowSet(c, r.value, who, k, c.rows[k].(seen := Some(message))))
  {
    FoundIffActive(c, who);
  }

  ghost predicate PendingRow(c: Conversation, user: Id, k: nat) {
    k < |c.rows| && c.rows[k].active && c.rows[k].who == Identity(User, user) && c.rows[k].request == Pending
  }

  /** Answering a request: not found exactly without a pending row; else one such row alone has the answer. */
  lemma AnswerOutcome(c: Conversation, user: Id, answer: Request)
    ensures
      var r := Answer(c, user, answer);
      && (r.Ok? <==> exists k: nat :: PendingRow(c, user, k))
      && (r.Fail? ==> r.error == NotFound)
      && (r.Ok? ==> exists k: nat :: PendingRow(c, user, k)
                                && r.value == c.(rows := c.rows[k := c.rows[k].(request := answer)]))
  {
    var p := (r: Row) => r.active && r.who == Identity(User, user) && r.request == Pending;
    var k := FindRow(c.rows, p);
    if k.Some? {
      assert PendingRow(c, user, k.value);
    }
    if k: nat :| PendingRow(c, user, k) {
      assert p(c.rows[k]);
    }
  }

  /** Expiry: pending rows created before the cutoff lose their request; nothing else changes. */
  ghost predicate StaleExpired(c: Conversation, d: Conversation, cutoff: int) {
    && d == c.(rows := d.rows) && |d.rows| == |c.rows|
    && forall i :: 0 <= i < |c.rows| ==>
      d.rows[i] == if c.rows[i].request == Pending && c.rows[i].created < cutoff
                   then c.rows[i].(request := NoRequest) else c.rows[i]
  }

  // ------------------------------------------------------------- membership

  /** Some active row has this id, whatever its type. */
  ghost predicate Named(c: Conversation, id: Id) {
    exists i :: 0 <= i < |c.rows| && c.rows[i].active && c.rows[i].who.id == id
  }

  /** Row `k` is the active one with this id that was created last. */
  ghost predicate NewestNamed(c: Conversation, id: Id, k: nat) {
    && k < |c.rows| && c.rows[k].active && c.rows[k].who.id == id
    && forall i :: 0 <= i < |c.rows| && c.rows[i].active && c.rows[i].who.id == id ==>
      c.rows[i].created < c.rows[k].created || (c.rows[i].created == c.rows[k].created && i <= k)
  }

  /** Row `k` has the role, announced unless it had it before; no other row changed. */
  ghost predicate RoleSet(cfg: Config, c: Conversation, d: Conversation, k: nat, role: Role, id: Id, text: string,
                          now: int)
  {
    && k < |c.rows|
    && if c.rows[k].role == role then d == c
       else
         && d.active == c.active && d.rows == c.rows[k := c.rows[k].(role := role)]
         && Announced(cfg, c, d, id, cfg.printed(c.rows[k].who) + text, now)
  }

  /** A promotion: the newest active row with the id, and no other row, is an admin's now. */
  ghost predicate Promoted(cfg: Config, c: Conversation, d: Conversation, id: Id, target: Id, now: int) {
    exists k: nat :: NewestNamed(c, target, k) && RoleSet(cfg, c, d, k, Admin, id, " was promoted to admin", now)
  }

  ghost predicate Demoted(cfg: Config, c: Conversation, d: Conversation, id: Id, target: Id, now: int) {
    exists k: nat :: NewestNamed(c, target, k) && RoleSet(cfg, c, d, k, Member, id, " was demoted from admin", now)
  }

  lemma TargetIs(c: Conversation, target: Id)
    ensures
      var k := NewestWithId(c.rows, target, |c.rows|);
      && (k.Some? <==> Named(c, target))
      && (k.Some? ==> NewestNamed(c, target, k.value))
  {
  }

  lemma RoleIsSet(cfg: Config, c: Conversation, k: nat, role: Role, id: Id, text: string, now: int)
    requires Numbered(c.messages) && k < |c.rows| && c.rows[k].role != role
    ensures
      var d := c.(rows := c.rows[k := c.rows[k].(role := role)]);
      RoleSet(cfg, c, PostSystem(cfg, d, id, cfg.printed(c.rows[k].who) + text, now), k, role, id, text, now)
  {
    var d := c.(rows := c.rows[k := c.rows[k].(role := role)]);
    SystemAnnounces(cfg, c, d, id, cfg.printed(c.rows[k].who) + text, now);
  }

  /** Only an admin of the active group promotes, and exactly the target's row changes. */
  lemma PromoteOutcome(cfg: Config, c: Conversation, id: Id, target: Id, actor: Id, now: int)
    requires Numbered(c.messages)
    ensures
      var r := Promote(cfg, c, id, target, actor, now);
      && (r == Fail(Denied) <==> c.active && !AdminRow(c, actor))
      && (r == Fail(NotFound) <==> !c.active || (AdminRow(c, actor) && !Named(c, target)))
      && (r.Ok? <==> c.active && AdminRow(c, actor) && Named(c, target))
      && (r.Ok? ==> Promoted(cfg, c, r.value, id, target, now))
  {
    ManagersAre(c, actor);
    TargetIs(c, target);
    var k := NewestWithId(c.rows, target, |c.rows|);
    if k.Some? && c.rows[k.value].role != Admin {
      RoleIsSet(cfg, c, k.value, Admin, id, " was promoted to admin", now);
    }
    if k.Some? && c.active && AdminRow(c, actor) {
      assert RoleSet(cfg, c, Promote(cfg, c, id, target, actor, now).value, k.value, Admin, id,
                     " was promoted to admin", now);
    }
  }

  /** The target is an admin, and there is no other. */
  ghost predicate LastAdminNamed(c: Conversation, target: Id) {
    |Admins(c.rows)| <= 1 && exists k: nat :: NewestNamed(c, target, k) && c.rows[k].role == Admin
  }

  /** Only an admin demotes, the last admin is not demoted, and exactly the target's row changes. */
  lemma DemoteOutcome(cfg: Config, c: Conversation, id: Id, target: Id, actor: Id, now: int)
    requires Numbered(c.messages)
    ensures
      var r := Demote(cfg, c, id, target, actor, now);
      && (r == Fail(Denied) <==> c.active && !AdminRow(c, actor))
      && (r == Fail(NotFound) <==> !c.active || (AdminRow(c, actor) && !Named(c, target)))
      && (r == Fail(Rule) <==> c.active && AdminRow(c, actor) && LastAdminNamed(c, target))
      && (r.Ok? <==> c.active && AdminRow(c, actor) && Named(c, target) && !LastAdminNamed(c, target))
      && (r.Ok? ==> Demoted(cfg, c, r.value, id, target, now))
  {
    ManagersAre(c, actor);
    TargetIs(c, target);
    CountsAre(c.rows);
    var k := NewestWithId(c.rows, target, |c.rows|);
    if k.Some? {
      OneTarget(c, target, k.value);
      if c.rows[k.value].role != Member {
        RoleIsSet(cfg, c, k.value, Member, id, " was demoted from admin", now);
      }
    }
    if Demote(cfg, c, id, target, actor, now).Ok? {
      assert RoleSet(cfg, c, Demote(cfg, c, id, target, actor, now).value, k.value, Member, id,
                     " was demoted from admin", now);
    }
  }

  lemma OneTarget(c: Conversation, target: Id, k: nat)
    requires NewestNamed(c, target, k)
    ensures forall i: nat :: NewestNamed(c, target, i) ==> i == k
    ensures LastAdminNamed(c, target) <==> |Admins(c.rows)| <= 1 && c.rows[k].role == Admin
  {
  }

  ghost predicate InactiveRow(c: Conversation, who: Identity, k: nat) {
    k < |c.rows| && !c.rows[k].active && c.rows[k].who == who
  }

  /** The identity is in: on its first inactive row, as a plain member, or on a new row. */
  ghost predicate AddedRow(c: Conversation, rows: seq<Row>, pk: Id, who: Identity, now: int) {
    if exists k: nat :: InactiveRow(c, who, k) then
      exists k: nat :: InactiveRow(c, who, k) && (forall i: nat :: i < k ==> !InactiveRow(c, who, i))
                  && rows == c.rows[k := c.rows[k].(active := true, role := Member)]
    else rows == c.rows + [Row(pk, who, Member, NoRequest, true, now, None)]
  }

  ghost predicate AddedAnnounced(cfg: Config, c: Conversation, d: Conversation, id: Id, who: Identity, now: int) {
    && d.active && AddedRow(c, d.rows, id, who, now)
    && Announced(cfg, c, d, id, cfg.printed(who) + " was added to the group", now)
  }

  /** Only an admin of an active group that is not full adds somebody who is not in it. */
  lemma AddOutcome(cfg: Config, c: Conversation, id: Id, who: Identity, actor: Id, now: int)
    requires Numbered(c.messages)
    ensures
      var r := Add(cfg, c, id, id, who, actor, now);
      var full := |Actives(c.rows)| >= cfg.maxParticipants;
      && (r == Fail(NotFound) <==> !c.active)
      && (r == Fail(Denied) <==> c.active && c.kind == Group && !AdminRow(c, actor))
      && (r == Fail(Rule) <==> c.active && (c.kind != Group || (AdminRow(c, actor) && full)))
      && (r == Fail(Conflict) <==> c.active && AdminRow(c, actor) && !full && ActiveRow(c, who))
      && (r.Ok? <==> c.active && AdminRow(c, actor) && !full && !ActiveRow(c, who))
      && (r.Ok? ==> AddedAnnounced(cfg, c, r.value, id, who, now))
  {
    ManagersAre(c, actor);
    CountsAre(c.rows);
    FoundIffActive(c, who);
    if Add(cfg, c, id, id, who, actor, now).Ok? {
      AddedRows(cfg, c, id, who, actor, now);
    }
  }

  lemma AddedRows(cfg: Config, c: Conversation, id: Id, who: Identity, actor: Id, now: int)
    requires Numbered(c.messages) && Add(cfg, c, id, id, who, actor, now).Ok?
    ensures AddedAnnounced(cfg, c, Add(cfg, c, id, id, who, actor, now).value, id, who, now)
  {
    var out := (r: Row) => !r.active && r.who == who;
    var k := FindRow(c.rows, out);
    var rows := if k.Some? then c.rows[k.value := c.rows[k.value].(active := true, role := Member)]
                else c.rows + [Row(id, who, Member, NoRequest, true, now, None)];
    assert forall i: nat :: i < |c.rows| ==> (out(c.rows[i]) <==> InactiveRow(c, who, i));
    if k.Some? {
      assert InactiveRow(c, who, k.value);
    }
    assert AddedRow(c, rows, id, who, now);
    SystemAnnounces(cfg, c, c.(rows := rows), id, cfg.printed(who) + " was added to the group", now);
  }

  /** Row `k` alone went inactive, and that is announced. */
  ghost predicate RemovedAnnounced(cfg: Config, c: Conversation, d: Conversation, id: Id, k: nat, now: int) {
    && k < |c.rows| && d.active == c.active
    && d.rows == c.rows[k := c.rows[k].(active := false)]
    && Announced(cfg, c, d, id, cfg.printed(c.rows[k].who) + " was removed from the group", now)
  }

  /** Only an admin of an active group removes, and exactly the active row with the key. */
  lemma RemoveOutcome(cfg: Config, c: Conversation, id: Id, pk: Id, actor: Id, now: int)
    requires Numbered(c.messages)
    ensures
      var r := Remove(cfg, c, id, pk, actor, now);
      var there := exists k: nat :: k < |c.rows| && c.rows[k].active && c.rows[k].pk == pk;
      && (r == Fail(NotFound) <==> !c.active || (AdminRow(c, actor) && !there))
      && (r == Fail(Rule) <==> c.active && c.kind != Group)
      && (r == Fail(Denied) <==> c.active && c.kind == Group && !AdminRow(c, actor))
      && (r.Ok? <==> c.active && AdminRow(c, actor) && there)
      && (r.Ok? ==> exists k: nat :: k < |c.rows| && c.rows[k].active && c.rows[k].pk == pk
                                && RemovedAnnounced(cfg, c, r.value, id, k, now))
  {
    ManagersAre(c, actor);
    var p := (r: Row) => r.active && r.pk == pk;
    var k := FindRow(c.rows, p);
    assert forall i :: 0 <= i < |c.rows| ==> (p(c.rows[i]) <==> c.rows[i].active && c.rows[i].pk == pk);
    if k.Some? {
      var d := c.(rows := c.rows[k.value := c.rows[k.value].(active := false)]);
      var text := cfg.printed(c.rows[k.value].who) + " was removed from the group";
      SystemAnnounces(cfg, c, d, id, text, now);
      assert RemovedAnnounced(cfg, c, PostSystem(cfg, d, id, text, now), id, k.value, now);
    }
  }

  // --------------------------------------------------------------- leaving

  /** Nobody active joined before row `h`. */
  ghost predicate EarliestRow(rows: seq<Row>, h: nat) {
    h < |rows| && rows[h].active
    && forall i :: 0 <= i < |rows| && rows[i].active ==> rows[h].created <= rows[i].created
  }

  /** With members and no admin left, one who joined first is promoted, and that is announced. */
  ghost predicate Succeeded(cfg: Config, c: Conversation, rows: seq<Row>, d: Conversation, id: Id, now: int) {
    exists h: nat ::
      && EarliestRow(rows, h)
      && d.active == c.active && d.rows == rows[h := rows[h].(role := Admin)]
      && Announced(cfg, c, d, id, cfg.printed(rows[h].who) + " was promoted to admin", now)
  }

  /** What follows row `k` going inactive: the group closes, has an admin still, or gets one. */
  ghost predicate Passed(cfg: Config, c: Conversation, rows: seq<Row>, d: Conversation, id: Id, now: int) {
    if Actives(rows) == {} then d == c.(rows := rows, active := false)
    else if Admins(rows) != {} then d == c.(rows := rows)
    else Succeeded(cfg, c, rows, d, id, now)
  }

  /** The user's row `k` went inactive, the group passed on, and the leave is announced last. */
  ghost predicate Departed(cfg: Config, c: Conversation, d: Conversation, id: Id, k: nat, now: int) {
    && k < |c.rows|
    && exists mid ::
      && Passed(cfg, c, c.rows[k := c.rows[k].(active := false)], mid, id, now)
      && d.rows == mid.rows && d.active == mid.active
      && Announced(cfg, mid, d, id + 1, cfg.printed(c.rows[k].who) + " left the group", now)
  }

  lemma SucceedPasses(cfg: Config, c: Conversation, rows: seq<Row>, id: Id, now: int)
    requires Numbered(c.messages)
    ensures Passed(cfg, c, rows, Succeed(cfg, c.(rows := rows), id, now), id, now)
    ensures Numbered(Succeed(cfg, c.(rows := rows), id, now).messages)
    ensures Succeed(cfg, c.(rows := rows), id, now).creator == c.creator
  {
    var heir, admin := Oldest(rows, |rows|), FindRow(rows, IsActiveAdmin());
    MaxNumberIsLength(c.messages);
    if heir.Some? {
      assert heir.value in Actives(rows);
    } else {
      assert Actives(rows) == {};
    }
    if admin.Some? {
      assert admin.value in Admins(rows);
    } else {
      assert forall i :: 0 <= i < |rows| ==> !IsActiveAdmin()(rows[i]);
      assert Admins(rows) == {};
      if heir.Some? {
        HeirSucceeds(cfg, c, rows, heir.value, id, now);
      }
    }
  }

  lemma HeirSucceeds(cfg: Config, c: Conversation, rows: seq<Row>, h: nat, id: Id, now: int)
    requires Numbered(c.messages) && EarliestRow(rows, h)
    ensures
      var d := c.(rows := rows[h := rows[h].(role := Admin)]);
      Succeeded(cfg, c, rows, PostSystem(cfg, d, id, cfg.printed(rows[h].who) + " was promoted to admin", now), id,
                now)
  {
    var d := c.(rows := rows[h := rows[h].(role := Admin)]);
    SystemAnnounces(cfg, c, d, id, cfg.printed(rows[h].who) + " was promoted to admin", now);
  }

  /**
   * Anyone active in an active group can leave. The group closes when nobody is left; when
   * members but no admin are left, one who joined first becomes admin.
   */
  lemma LeaveOutcome(cfg: Config, c: Conversation, id: Id, user: Id, now: int)
    requires Numbered(c.messages)
    ensures
      var who := Identity(User, user);
      var r := Leave(cfg, c, id, user, now);
      && (r == Fail(NotFound) <==> !c.active || (c.kind == Group && !ActiveRow(c, who)))
      && (r == Fail(Rule) <==> c.active && c.kind != Group)
      && (r.Ok? <==> c.active && c.kind == Group && ActiveRow(c, who))
      && (r.Ok? ==> exists k: nat :: k < |c.rows| && c.rows[k].active && c.rows[k].who == who
                                     && Departed(cfg, c, r.value, id, k, now))
  {
    FoundIffActive(c, Identity(User, user));
    if Leave(cfg, c, id, user, now).Ok? {
      var k := FindRow(c.rows, ActiveAs(Identity(User, user))).value;
      LeaverDeparts(cfg, c, id, k, now);
      assert Departed(cfg, c, Leave(cfg, c, id, user, now).value, id, k, now);
    }
  }

  lemma LeaverDeparts(cfg: Config, c: Conversation, id: Id, k: nat, now: int)
    requires Numbered(c.messages) && k < |c.rows|
    ensures
      var rows, text := c.rows[k := c.rows[k].(active := false)], cfg.printed(c.rows[k].who) + " left the group";
      Departed(cfg, c, PostSystem(cfg, Succeed(cfg, c.(rows := rows), id, now), id + 1, text, now), id, k, now)
  {
    var rows, text := c.rows[k := c.rows[k].(active := false)], cfg.printed(c.rows[k].who) + " left the group";
    SucceedPasses(cfg, c, rows, id, now);
    var mid := Succeed(cfg, c.(rows := rows), id, now);
    SystemAnnounces(cfg, mid, mid, id + 1, text, now);
  }
}
