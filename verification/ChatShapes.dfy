// The shape of what calls on a conversation change: which rows, which messages.

module ChatShapes {
  import opened Wrappers
  import opened Chat
  import opened ChatInvariants

  /**
   * Only new messages of one sender are appended, with unused keys, shown and never
   * edited; they carry on the numbering.
   */
  ghost predicate Appends(before: seq<Message>, after: seq<Message>, sender: Identity, nextId: Id) {
    && |before| <= |after| && after[..|before|] == before
    && (forall i :: |before| <= i < |after| ==>
          after[i].id >= nextId && after[i].sender == sender && after[i].status == Active && after[i].original == "")
    && (Numbered(before) ==> Numbered(after))
  }

  /** Rows are never removed or re-identified, no row becomes pending, and no new row is pending. */
  ghost predicate RowsAge(before: seq<Row>, after: seq<Row>) {
    && |before| <= |after|
    && (forall i :: 0 <= i < |before| ==>
          && after[i].pk == before[i].pk && after[i].who == before[i].who
          && (after[i].request == Pending ==> before[i].request == Pending))
    && forall i :: |before| <= i < |after| ==> after[i].request != Pending
  }

  /** And every row keeps its watermark. */
  ghost predicate RowsKept(before: seq<Row>, after: seq<Row>) {
    RowsAge(before, after) && forall i :: 0 <= i < |before| ==> after[i].seen == before[i].seen
  }

  ghost predicate SameHead(c: Conversation, d: Conversation) {
    d.kind == c.kind && d.scope == c.scope && d.scopeId == c.scopeId && d.creator == c.creator
  }

  ghost predicate Shape(c: Conversation, d: Conversation, sender: Identity, nextId: Id) {
    SameHead(c, d) && Appends(c.messages, d.messages, sender, nextId) && RowsKept(c.rows, d.rows)
  }

  lemma AppendOne(before: seq<Message>, mid: seq<Message>, m: Message, sender: Identity, nextId: Id)
    requires Appends(before, mid, sender, nextId)
    requires m.id >= nextId && m.sender == sender && m.status == Active && m.original == ""
             && m.number == MaxNumber(mid) + 1
    ensures Appends(before, mid + [m], sender, nextId)
  {
    assert (mid + [m])[..|before|] == mid[..|before|];
    if Numbered(before) {
      MaxNumberIsLength(mid);
    }
  }

  lemma PostShape(cfg: Config, c: Conversation, mid: Conversation, id: Id, sender: Identity, acting: Option<Id>,
                  content: string, now: int, nextId: Id)
    requires Shape(c, mid, sender, nextId) && nextId <= id
    ensures Shape(c, Post(cfg, mid, id, sender, acting, content, now), sender, nextId)
  {
    var m := Message(id, sender, acting, content, "", MaxNumber(mid.messages) + 1, Active, now);
    AppendOne(c.messages, mid.messages, m, sender, nextId);
  }

  lemma SameShape(c: Conversation, sender: Identity, nextId: Id)
    ensures Shape(c, c, sender, nextId)
  {
    assert c.messages[..|c.messages|] == c.messages;
  }

  lemma RowShape(c: Conversation, k: nat, row: Row, sender: Identity, nextId: Id)
    requires k < |c.rows| && row.pk == c.rows[k].pk && row.who == c.rows[k].who && row.seen == c.rows[k].seen
    requires row.request == Pending ==> c.rows[k].request == Pending
    ensures Shape(c, c.(rows := c.rows[k := row]), sender, nextId)
  {
    SameShape(c, sender, nextId);
  }

  lemma NewRowShape(c: Conversation, row: Row, sender: Identity, nextId: Id)
    requires row.request != Pending
    ensures Shape(c, c.(rows := c.rows + [row]), sender, nextId)
  {
    SameShape(c, sender, nextId);
  }

  lemma ShapeTransitive(c: Conversation, d: Conversation, e: Conversation, sender: Identity, nextId: Id)
    requires Shape(c, d, sender, nextId) && Shape(d, e, sender, nextId)
    ensures Shape(c, e, sender, nextId)
  {
    assert e.messages[..|c.messages|] == e.messages[..|d.messages|][..|c.messages|];
    forall i | |c.messages| <= i < |d.messages| ensures e.messages[i] == d.messages[i] {
      assert e.messages[i] == e.messages[..|d.messages|][i];
    }
  }

  // -------------------------------------------------------------- by call

  /** In whose name system messages are posted. */
  function SystemOf(c: Conversation): Identity {
    Identity(User, c.creator.id)
  }

  lemma SendShape(cfg: Config, c: Conversation, id: Id, sender: Identity, user: Id, content: string,
                  attachments: Attachments, now: int)
    requires Send(cfg, c, id, sender, user, content, attachments, now).Ok?
    ensures Shape(c, Send(cfg, c, id, sender, user, content, attachments, now).value, sender, id)
  {
    SameShape(c, sender, id);
    PostShape(cfg, c, c, id, sender, if sender.kind == User then None else Some(user), content, now, id);
  }

  /** One row changed, and a system message about it. */
  lemma RowAndPostShape(cfg: Config, c: Conversation, k: nat, row: Row, id: Id, content: string, now: int)
    requires k < |c.rows| && row.pk == c.rows[k].pk && row.who == c.rows[k].who && row.seen == c.rows[k].seen
    requires row.request == c.rows[k].request
    ensures Shape(c, PostSystem(cfg, c.(rows := c.rows[k := row]), id, content, now), SystemOf(c), id)
  {
    RowShape(c, k, row, SystemOf(c), id);
    PostShape(cfg, c, c.(rows := c.rows[k := row]), id, SystemOf(c), None, content, now, id);
  }

  lemma AddShape(cfg: Config, c: Conversation, id: Id, who: Identity, actor: Id, now: int)
    requires Add(cfg, c, id, id, who, actor, now).Ok?
    ensures Shape(c, Add(cfg, c, id, id, who, actor, now).value, SystemOf(c), id)
  {
    var content := cfg.printed(who) + " was added to the group";
    var inactive := FindRow(c.rows, (r: Row) => !r.active && r.who == who);
    if inactive.Some? {
      var k := inactive.value;
      RowAndPostShape(cfg, c, k, c.rows[k].(active := true, role := Member), id, content, now);
    } else {
      var row := Row(id, who, Member, NoRequest, true, now, None);
      NewRowShape(c, row, SystemOf(c), id);
      PostShape(cfg, c, c.(rows := c.rows + [row]), id, SystemOf(c), None, content, now, id);
    }
  }

  lemma RemoveShape(cfg: Config, c: Conversation, id: Id, pk: Id, actor: Id, now: int)
    requires Remove(cfg, c, id, pk, actor, now).Ok?
    ensures Shape(c, Remove(cfg, c, id, pk, actor, now).value, SystemOf(c), id)
  {
    var k := FindRow(c.rows, (r: Row) => r.active && r.pk == pk).value;
    var row := c.rows[k];
    RowAndPostShape(cfg, c, k, row.(active := false), id, cfg.printed(row.who) + " was removed from the group", now);
  }

  lemma PromoteShape(cfg: Config, c: Conversation, id: Id, target: Id, actor: Id, now: int)
    requires Promote(cfg, c, id, target, actor, now).Ok?
    ensures Shape(c, Promote(cfg, c, id, target, actor, now).value, SystemOf(c), id)
  {
    var k := NewestWithId(c.rows, target, |c.rows|).value;
    var row := c.rows[k];
    SameShape(c, SystemOf(c), id);
    RowAndPostShape(cfg, c, k, row.(role := Admin), id, cfg.printed(row.who) + " was promoted to admin", now);
  }

  lemma DemoteShape(cfg: Config, c: Conversation, id: Id, target: Id, actor: Id, now: int)
    requires Demote(cfg, c, id, target, actor, now).Ok?
    ensures Shape(c, Demote(cfg, c, id, target, actor, now).value, SystemOf(c), id)
  {
    var k := NewestWithId(c.rows, target, |c.rows|).value;
    var row := c.rows[k];
    SameShape(c, SystemOf(c), id);
    RowAndPostShape(cfg, c, k, row.(role := Member), id, cfg.printed(row.who) + " was demoted from admin", now);
  }

  lemma SucceedShape(cfg: Config, c: Conversation, id: Id, now: int)
    ensures Shape(c, Succeed(cfg, c, id, now), SystemOf(c), id)
  {
    SameShape(c, SystemOf(c), id);
    var heir := Oldest(c.rows, |c.rows|);
    if heir.Some? {
      var row := c.rows[heir.value];
      RowAndPostShape(cfg, c, heir.value, row.(role := Admin), id, cfg.printed(row.who) + " was promoted to admin",
                      now);
    }
  }

  lemma LeaveShape(cfg: Config, c: Conversation, id: Id, user: Id, now: int)
    requires Leave(cfg, c, id, user, now).Ok?
    ensures Shape(c, Leave(cfg, c, id, user, now).value, SystemOf(c), id)
    ensures |Leave(cfg, c, id, user, now).value.messages| > |c.messages|
  {
    var k := FindRow(c.rows, ActiveAs(Identity(User, user))).value;
    var left := c.(rows := c.rows[k := c.rows[k].(active := false)]);
    RowShape(c, k, c.rows[k].(active := false), SystemOf(c), id);
    SucceedShape(cfg, left, id, now);
    ShapeTransitive(c, left, Succeed(cfg, left, id, now), SystemOf(c), id);
    PostShape(cfg, c, Succeed(cfg, left, id, now), id + 1, SystemOf(c), None,
              cfg.printed(Identity(User, user)) + " left the group", now, id);
  }

  lemma AnswerShape(c: Conversation, user: Id, answer: Request, sender: Identity, nextId: Id)
    requires answer != Pending && Answer(c, user, answer).Ok?
    ensures Shape(c, Answer(c, user, answer).value, sender, nextId)
  {
    var k := FindRow(c.rows, (r: Row) => r.active && r.who == Identity(User, user) && r.request == Pending).value;
    RowShape(c, k, c.rows[k].(request := answer), sender, nextId);
  }

  lemma ExpireShape(c: Conversation, cutoff: int, sender: Identity, nextId: Id)
    ensures Shape(c, Expire(c, cutoff), sender, nextId)
  {
    SameShape(c, sender, nextId);
  }

  /** In whose name a call posts: the sender's, or for system messages the user with the creator's id. */
  function PosterOf(c: Conversation, call: Call): Identity {
    if call.SendCall? then call.sender else SystemOf(c)
  }

  /** Apart from edits, deletions and watermarks, calls have this shape, whether they succeed or fail. */
  lemma CallShape(cfg: Config, c: Conversation, nextId: Id, call: Call)
    requires !call.EditCall? && !call.DeleteCall? && !call.SeenCall?
    ensures Shape(c, After(cfg, c, nextId, call), PosterOf(c, call), nextId)
  {
    SameShape(c, PosterOf(c, call), nextId);
    if Attempt(cfg, c, nextId, call).Ok? {
      match call
      case SendCall(sender, user, content, attachments, now) =>
        SendShape(cfg, c, nextId, sender, user, content, attachments, now);
      case AcceptCall(user) => AnswerShape(c, user, Accepted, SystemOf(c), nextId);
      case IgnoreCall(user) => AnswerShape(c, user, Ignored, SystemOf(c), nextId);
      case ExpireCall(cutoff) => ExpireShape(c, cutoff, SystemOf(c), nextId);
      case AddCall(who, actor, now) => AddShape(cfg, c, nextId, who, actor, now);
      case RemoveCall(pk, actor, now) => RemoveShape(cfg, c, nextId, pk, actor, now);
      case LeaveCall(user, now) => LeaveShape(cfg, c, nextId, user, now);
      case PromoteCall(target, actor, now) => PromoteShape(cfg, c, nextId, target, actor, now);
      case DemoteCall(target, actor, now) => DemoteShape(cfg, c, nextId, target, actor, now);
    }
  }

  /** The other calls: edits and deletions rewrite a message, a watermark changes a row; all else stays. */
  ghost predicate MarksShape(c: Conversation, d: Conversation) {
    && SameHead(c, d) && |d.messages| == |c.messages| && |d.rows| == |c.rows|
    && (forall i :: 0 <= i < |c.messages| ==>
          && d.messages[i].id == c.messages[i].id && d.messages[i].sender == c.messages[i].sender
          && d.messages[i].number == c.messages[i].number && d.messages[i].at == c.messages[i].at)
    && forall i :: 0 <= i < |c.rows| ==> d.rows[i] == c.rows[i].(seen := d.rows[i].seen)
  }

  lemma OtherCallsShape(cfg: Config, c: Conversation, nextId: Id, call: Call)
    requires call.EditCall? || call.DeleteCall? || call.SeenCall?
    ensures MarksShape(c, After(cfg, c, nextId, call))
    ensures !call.SeenCall? ==> After(cfg, c, nextId, call).rows == c.rows
  {
  }
}
