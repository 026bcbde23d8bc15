// The chat services over conversations held in memory. Each method is one transaction.

module ChatStore {
  import opened Wrappers
  import opened Chat
  import opened ChatInvariants
  import opened ChatTheorems
  import opened Messenger
  import opened Inbox
  import opened ChatContracts
  import opened MessengerContracts

  /** The error of a call on an unknown conversation: a send checks its content first. */
  function Unknown(cfg: Config, call: Call): Error {
    match call
    case SendCall(_, _, content, attachments, _) =>
      if (cfg.blank(content) && attachments == NoAttachments) || |content| > cfg.maxLength then Invalid else NotFound
    case _ => NotFound
  }

  /** The conversation ends as the call's specification says, or the call fails and changes nothing. */
  ghost predicate Matches(cfg: Config, before: Db, k: nat, call: Call, after: Db, err: Option<Error>) {
    if k >= |before.chats| then err == Some(Unknown(cfg, call)) && after == before
    else
      match Attempt(cfg, before.chats[k], before.nextId, call)
      case Ok(c) => err == None && after == Db(before.chats[k := c], before.nextId + 2)
      case Fail(e) => err == Some(e) && after == before
  }

  class Store {
    const cfg: Config
    var chats: seq<Conversation>
    var nextId: Id

    function Tables(): Db
      reads this
    {
      Db(chats, nextId)
    }

    ghost predicate Valid()
      reads this
    {
      DbInv(cfg, Tables()) && KeysApart(Tables())
    }

    constructor (cfg: Config)
      ensures Valid() && Tables() == EMPTY && this.cfg == cfg
    {
      this.cfg := cfg;
      chats, nextId := [], 0;
    }

    /** Write a conversation back after a successful call. */
    method Save(k: nat, c: Conversation, ghost call: Call)
      requires Valid() && k < |chats| && Attempt(cfg, chats[k], nextId, call) == Ok(c)
      modifies this
      ensures Valid() && Tables() == Db(old(chats)[k := c], old(nextId) + 2)
    {
      EventKeepsInv(cfg, Tables(), CallEvent(k, call));
      EventKeepsKeysApart(cfg, Tables(), CallEvent(k, call));
      chats := chats[k := c];
      nextId := nextId + 2;
    }

    // ------------------------------------------------------- conversations

    method CreateConversation(n: NewChat) returns (r: Result<nat, Error>)
      requires Valid()
      modifies this
      ensures Valid()
      ensures match Create(cfg, old(Tables()), n)
              case Ok((d, k)) => r == Ok(k) && Tables() == d
              case Fail(e) => r == Fail(e) && Tables() == old(Tables())
      ensures r.Ok? && n.kind == Direct && n.creator != n.others[0] ==>
        r.value < |chats| && forall who :: Takes(chats[r.value], who) <==> who == n.creator || who == n.others[0]
    {
      CreatedOrReturned(cfg, Tables(), n);
      EventKeepsInv(cfg, Tables(), CreateEvent(n));
      EventKeepsKeysApart(cfg, Tables(), CreateEvent(n));
      var early := CreationAnswer(n);
      if early.Some? {
        return early.value;
      }
      var rows := AddParticipants(n);
      if rows.Fail? {
        return Fail(rows.error);
      }
      r := Ok(|chats|);
      chats := chats + [Conversation(n.scope, n.scopeId, n.kind, n.creator, true, rows.value, [], None)];
      nextId := nextId + |n.others| + 1;
    }

    /** The checks before the inserts, in order: an error, a stored DM, or nothing against it. */
    method CreationAnswer(n: NewChat) returns (early: Option<Result<nat, Error>>)
      ensures match early
              case None =>
                var c := Conversation(n.scope, n.scopeId, n.kind, n.creator, true, FirstRows(n, nextId), [], None);
                Create(cfg, Tables(), n)
                == if DistinctPeople(n) then Ok((Db(chats + [c], nextId + |n.others| + 1), |chats|))
                   else Fail(Integrity)
              case Some(Ok(k)) => Create(cfg, Tables(), n) == Ok((Tables(), k))
              case Some(Fail(e)) => Create(cfg, Tables(), n) == Fail(e)
    {
      if n.refusal.Some? {
        return Some(Fail(n.refusal.value));
      }
      if n.kind == Direct {
        if |n.others| != 1 {
          return Some(Fail(Invalid));
        }
        var existing := FindDm(chats, n.scope, n.scopeId, n.creator, n.others[0]);
        if existing.Some? {
          return Some(Ok(existing.value));
        }
        if n.blocks {
          return Some(Fail(Rule));
        }
        if n.blocked {
          return Some(Fail(Denied));
        }
      }
      if n.kind == Group {
        if n.groupRefusal.Some? {
          return Some(Fail(n.groupRefusal.value));
        }
        if cfg.blank(n.name) {
          return Some(Fail(Invalid));
        }
        if |n.others| > cfg.maxParticipants - 1 {
          return Some(Fail(Rule));
        }
      }
      return None;
    }

    /** The creator's row, then one insert per other participant under the unique constraint. */
    method AddParticipants(n: NewChat) returns (r: Result<seq<Row>, Error>)
      ensures r == if DistinctPeople(n) then Ok(FirstRows(n, nextId)) else Fail(Integrity)
    {
      var role := if n.kind == Group then Admin else Member;
      var creatorRow := Row(nextId, n.creator, role, NoRequest, true, n.now, None);
      var rows := [];
      for i := 0 to |n.others|
        invariant rows == OtherRows(n, n.others[..i], nextId)
        invariant n.creator !in n.others[..i]
        invariant forall a, b :: 0 <= a < b < i ==> n.others[a] != n.others[b]
      {
        var other := n.others[i];
        if other == n.creator || other in n.others[..i] {
          return Fail(Integrity);
        }
        assert n.others[..i + 1][..i] == n.others[..i];
        rows := rows + [Row(nextId + i + 1, other, Member, RequestFor(n, other), true, n.now, None)];
      }
      assert n.others[..|n.others|] == n.others;
      return Ok([creatorRow] + rows);
    }

    // ------------------------------------------------------------ messages

    method SendMessage(k: nat, sender: Identity, user: Id, content: string, attachments: Attachments, now: int)
      returns (err: Option<Error>)
      requires Valid()
      modifies this
      ensures Valid()
      ensures Matches(cfg, old(Tables()), k, SendCall(sender, user, content, attachments, now), Tables(), err)
      ensures err.None? ==>
        k < |chats| && |chats| == |old(chats)| && Sent(cfg, old(chats)[k], chats[k], sender, content)
    {
      err := SendRefusal(k, sender, content, attachments);
      if err.Some? {
        return;
      }
      var acting := if sender.kind == User then None else Some(user);
      var updated := InsertMessage(chats[k], sender, acting, content, now);
      if attachments == Unlinkable {
        return Some(Invalid);
      }
      SendSends(cfg, chats[k], nextId, sender, user, content, attachments, now);
      Save(k, updated, SendCall(sender, user, content, attachments, now));
      return None;
    }

    /** The checks before the insert, in order; attachments are linked after it. */
    method SendRefusal(k: nat, sender: Identity, content: string, attachments: Attachments)
      returns (err: Option<Error>)
      ensures err.None? ==> k < |chats|
      ensures k >= |chats| ==> forall user, now ::
        err == Some(Unknown(cfg, SendCall(sender, user, content, attachments, now)))
      ensures k < |chats| ==> forall id, user, now ::
        Send(cfg, chats[k], id, sender, user, content, attachments, now)
        == if err.Some? then Fail(err.value)
           else if attachments == Unlinkable then Fail(Invalid)
           else Ok(Post(cfg, chats[k], id, sender, if sender.kind == User then None else Some(user), content, now))
    {
      if cfg.blank(content) && attachments == NoAttachments {
        return Some(Invalid);
      }
      if |content| > cfg.maxLength {
        return Some(Invalid);
      }
      if k >= |chats| {
        return Some(NotFound);
      }
      var c := chats[k];
      if !c.active {
        return Some(NotFound);
      }
      if FindRow(c.rows, ActiveAs(sender)).None? {
        return Some(Denied);
      }
      if c.kind == Direct {
        var waiting := exists r <- c.rows :: r.active && r.request == Pending && r.who != sender;
        if waiting && SentBy(c.messages, sender) >= cfg.maxRequestMessages {
          return Some(Rule);
        }
      }
      return None;
    }

    /** Read the greatest number, insert with the next one, refresh the cached fields. */
    method InsertMessage(c: Conversation, sender: Identity, acting: Option<Id>, content: string, now: int)
      returns (d: Conversation)
      ensures d == Post(cfg, c, nextId, sender, acting, content, now)
    {
      var number := MaxNumber(c.messages) + 1;
      var m := Message(nextId, sender, acting, content, "", number, Active, now);
      var preview := if |content| <= cfg.preview then content else content[..cfg.preview];
      d := c.(messages := c.messages + [m], last := Some(Last(m.id, m.at, preview, m.sender)));
    }

    method EditMessage(k: nat, message: Id, content: string, user: Id, now: int) returns (err: Option<Error>)
      requires Valid()
      modifies this
      ensures Valid()
      ensures Matches(cfg, old(Tables()), k, EditCall(message, content, user, now), Tables(), err)
      ensures err.None? ==>
        k < |chats| && |chats| == |old(chats)| && Shows(old(chats)[k], chats[k], message, content, Edited)
    {
      if k >= |chats| {
        return Some(NotFound);
      }
      var c := chats[k];
      var at := FindMessage(c.messages, message);
      if at.None? {
        return Some(NotFound);
      }
      var m := c.messages[at.value];
      if !(m.sender == Identity(User, user)) && !(m.acting == Some(user)) {
        return Some(Denied);
      }
      if m.status == Deleted {
        return Some(Rule);
      }
      if now - m.at > 60 * cfg.editWindow {
        return Some(Rule);
      }
      if cfg.blank(content) || |content| > cfg.maxLength {
        return Some(Invalid);
      }
      if m.original == "" {
        m := m.(original := m.content);
      }
      m := m.(content := content, status := Edited);
      var updated := c.(messages := c.messages[at.value := m]);
      if c.last.Some? && c.last.value.id == message {
        updated := updated.(last := Some(c.last.value.(preview := Cut(content, cfg.preview))));
      }
      EditShows(cfg, c, message, content, user, now);
      Save(k, updated, EditCall(message, content, user, now));
      return None;
    }

    method DeleteMessage(k: nat, message: Id, user: Id, staff: bool) returns (err: Option<Error>)
      requires Valid()
      modifies this
      ensures Valid()
      ensures Matches(cfg, old(Tables()), k, DeleteCall(message, user, staff), Tables(), err)
      ensures err.None? ==>
        k < |chats| && |chats| == |old(chats)|
        && Shows(old(chats)[k], chats[k], message, Remainder(old(chats)[k], message), Deleted)
    {
      if k >= |chats| {
        return Some(NotFound);
      }
      var c := chats[k];
      var at := FindMessage(c.messages, message);
      if at.None? {
        return Some(NotFound);
      }
      var m := c.messages[at.value];
      if !WrittenBy(m, user) && !CanManage(c, user) && !staff {
        return Some(Denied);
      }
      var updated := c;
      if m.status != Deleted {
        updated := updated.(messages :=
                            c.messages[at.value := m.(content := "", original := m.content, status := Deleted)]);
        if c.last.Some? && c.last.value.id == message {
          updated := updated.(last := Some(c.last.value.(preview := "")));
        }
      }
      DeleteHides(cfg, c, message, user, staff);
      Save(k, updated, DeleteCall(message, user, staff));
      return None;
    }

    method UpdateSeenWatermark(k: nat, who: Identity, message: Id) returns (err: Option<Error>)
      requires Valid()
      modifies this
      ensures Valid()
      ensures Matches(cfg, old(Tables()), k, SeenCall(who, message), Tables(), err)
      ensures err.None? ==>
        && k < |chats| == |old(chats)| && SeenBy(chats[k], who) == Some(message)
        && (exists i: nat :: i < |old(chats)[k].rows|
              && OwnRowSet(old(chats)[k], chats[k], who, i, old(chats)[k].rows[i].(seen := Some(message))))
        && OthersReadAlike(old(chats), chats, k, who)
    {
      if k >= |chats| {
        return Some(NotFound);
      }
      var c := chats[k];
      var row := FindRow(c.rows, ActiveAs(who));
      if row.None? {
        return Some(NotFound);
      }
      MarkedIsSeen(c, who, message);
      SeenOutcome(c, who, message);
      SeenLeavesOthers(chats, k, who, message);
      Save(k, c.(rows := c.rows[row.value := c.rows[row.value].(seen := Some(message))]), SeenCall(who, message));
      return None;
    }

    // ---------------------------------------------------------- membership

    method AddParticipant(k: nat, who: Identity, actor: Id, now: int) returns (err: Option<Error>)
      requires Valid()
      modifies this
      ensures Valid()
      ensures Matches(cfg, old(Tables()), k, AddCall(who, actor, now), Tables(), err)
      ensures err == Some(Denied) <==>
        k < |old(chats)| && old(chats)[k].active && old(chats)[k].kind == Group && !AdminRow(old(chats)[k], actor)
      ensures err.None? ==>
        && k < |chats| == |old(chats)| && Joined(old(chats)[k].rows, chats[k].rows, who)
        && AdminRow(old(chats)[k], actor) && |Actives(old(chats)[k].rows)| < cfg.maxParticipants
        && AddedAnnounced(cfg, old(chats)[k], chats[k], old(nextId), who, now)
    {
      if k >= |chats| {
        return Some(NotFound);
      }
      var c := chats[k];
      AddOutcome(cfg, c, nextId, who, actor, now);
      if !c.active {
        return Some(NotFound);
      }
      if c.kind != Group {
        return Some(Rule);
      }
      if !CanManage(c, actor) {
        return Some(Denied);
      }
      if ActiveCount(c.rows) >= cfg.maxParticipants {
        return Some(Rule);
      }
      if FindRow(c.rows, ActiveAs(who)).Some? {
        return Some(Conflict);
      }
      var inactive := FindRow(c.rows, (r: Row) => !r.active && r.who == who);
      var rows := c.rows;
      if inactive.Some? {
        rows := rows[inactive.value := rows[inactive.value].(active := true, role := Member)];
      } else {
        rows := rows + [Row(nextId, who, Member, NoRequest, true, now, None)];
      }
      var updated := PostSystem(cfg, c.(rows := rows), nextId, cfg.printed(who) + " was added to the group", now);
      AddedIsPlainMember(cfg, c, nextId, who, actor, now);
      Save(k, updated, AddCall(who, actor, now));
      return None;
    }

    method RemoveParticipant(k: nat, pk: Id, actor: Id, now: int) returns (err: Option<Error>)
      requires Valid()
      modifies this
      ensures Valid()
      ensures Matches(cfg, old(Tables()), k, RemoveCall(pk, actor, now), Tables(), err)
      ensures err.None? ==>
        k < |chats| == |old(chats)| && Gone(chats[k].rows, pk) && AdminRow(old(chats)[k], actor)
    {
      if k >= |chats| {
        return Some(NotFound);
      }
      var c := chats[k];
      if !c.active {
        return Some(NotFound);
      }
      if c.kind != Group {
        return Some(Rule);
      }
      if !CanManage(c, actor) {
        return Some(Denied);
      }
      var at := FindRow(c.rows, (r: Row) => r.active && r.pk == pk);
      if at.None? {
        return Some(NotFound);
      }
      var row := c.rows[at.value];
      var updated := PostSystem(cfg, c.(rows := c.rows[at.value := row.(active := false)]), nextId,
                                cfg.printed(row.who) + " was removed from the group", now);
      RemovedIsGone(cfg, c, nextId, pk, actor, now);
      ManagersAre(c, actor);
      Save(k, updated, RemoveCall(pk, actor, now));
      return None;
    }

    method LeaveConversation(k: nat, user: Id, now: int) returns (err: Option<Error>)
      requires Valid()
      modifies this
      ensures Valid()
      ensures Matches(cfg, old(Tables()), k, LeaveCall(user, now), Tables(), err)
      ensures err.None? ==> k < |chats| && !Takes(chats[k], Identity(User, user)) && Led(chats[k])
    {
      if k >= |chats| {
        return Some(NotFound);
      }
      var c := chats[k];
      if !c.active {
        return Some(NotFound);
      }
      if c.kind != Group {
        return Some(Rule);
      }
      var at := FindRow(c.rows, ActiveAs(Identity(User, user)));
      if at.None? {
        return Some(NotFound);
      }
      var updated := c.(rows := c.rows[at.value := c.rows[at.value].(active := false)]);
      var oldest := Oldest(updated.rows, |updated.rows|);
      if oldest.None? {
        updated := updated.(active := false);
      } else {
        var hasAdmin := FindRow(updated.rows, IsActiveAdmin()).Some?;
        if !hasAdmin {
          var heir := updated.rows[oldest.value];
          updated := updated.(rows := updated.rows[oldest.value := heir.(role := Admin)]);
          updated := PostSystem(cfg, updated, nextId, cfg.printed(heir.who) + " was promoted to admin", now);
        }
      }
      updated := PostSystem(cfg, updated, nextId + 1, cfg.printed(Identity(User, user)) + " left the group", now);
      LeaverIsGone(cfg, c, nextId, user, now);
      LeaveLeavesAnAdmin(cfg, c, nextId, user, now);
      Save(k, updated, LeaveCall(user, now));
      return None;
    }

    method PromoteToAdmin(k: nat, target: Id, actor: Id, now: int) returns (err: Option<Error>)
      requires Valid()
      modifies this
      ensures Valid()
      ensures Matches(cfg, old(Tables()), k, PromoteCall(target, actor, now), Tables(), err)
      ensures err == Some(Denied) <==> k < |old(chats)| && old(chats)[k].active && !AdminRow(old(chats)[k], actor)
      ensures err.None? ==>
        && k < |chats| == |old(chats)| && Holds(chats[k].rows, target, Admin)
        && AdminRow(old(chats)[k], actor) && Promoted(cfg, old(chats)[k], chats[k], old(nextId), target, now)
    {
      if k >= |chats| {
        return Some(NotFound);
      }
      var c := chats[k];
      PromoteOutcome(cfg, c, nextId, target, actor, now);
      if !c.active {
        return Some(NotFound);
      }
      if !CanManage(c, actor) {
        return Some(Denied);
      }
      var at := NewestWithId(c.rows, target, |c.rows|);
      if at.None? {
        return Some(NotFound);
      }
      var row := c.rows[at.value];
      var updated := c;
      if row.role != Admin {
        updated := PostSystem(cfg, c.(rows := c.rows[at.value := row.(role := Admin)]), nextId,
                              cfg.printed(row.who) + " was promoted to admin", now);
      }
      PromotedHoldsAdmin(cfg, c, nextId, target, actor, now);
      Save(k, updated, PromoteCall(target, actor, now));
      return None;
    }

    method DemoteFromAdmin(k: nat, target: Id, actor: Id, now: int) returns (err: Option<Error>)
      requires Valid()
      modifies this
      ensures Valid()
      ensures Matches(cfg, old(Tables()), k, DemoteCall(target, actor, now), Tables(), err)
      ensures err == Some(Denied) <==> k < |old(chats)| && old(chats)[k].active && !AdminRow(old(chats)[k], actor)
      ensures err.None? ==>
        && k < |chats| == |old(chats)| && Holds(chats[k].rows, target, Member) && HasAdmin(chats[k])
        && AdminRow(old(chats)[k], actor) && Demoted(cfg, old(chats)[k], chats[k], old(nextId), target, now)
      ensures err == Some(Rule) ==> k < |chats| && AdminCount(chats[k].rows) == 1 && Holds(chats[k].rows, target, Admin)
    {
      if k >= |chats| {
        return Some(NotFound);
      }
      var c := chats[k];
      DemotionOutcome(cfg, c, nextId, target, actor, now);
      DemoteOutcome(cfg, c, nextId, target, actor, now);
      if !c.active {
        return Some(NotFound);
      }
      if !CanManage(c, actor) {
        return Some(Denied);
      }
      var at := NewestWithId(c.rows, target, |c.rows|);
      if at.None? {
        return Some(NotFound);
      }
      var row := c.rows[at.value];
      var updated := c;
      if row.role != Member {
        if AdminCount(c.rows) <= 1 {
          return Some(Rule);
        }
        updated := PostSystem(cfg, c.(rows := c.rows[at.value := row.(role := Member)]), nextId,
                              cfg.printed(row.who) + " was demoted from admin", now);
      }
      Save(k, updated, DemoteCall(target, actor, now));
      return None;
    }

    // ------------------------------------------------------------ requests

    method AnswerRequest(k: nat, user: Id, accept: bool) returns (err: Option<Error>)
      requires Valid()
      modifies this
      ensures Valid()
      ensures Matches(cfg, old(Tables()), k, if accept then AcceptCall(user) else IgnoreCall(user), Tables(), err)
      ensures err.None? ==>
        k < |chats| && |chats| == |old(chats)|
        && Answered(old(chats)[k].rows, chats[k].rows, Identity(User, user), if accept then Accepted else Ignored)
    {
      if k >= |chats| {
        return Some(NotFound);
      }
      var c := chats[k];
      var at := FindRow(c.rows, (r: Row) => r.active && r.who == Identity(User, user) && r.request == Pending);
      if at.None? {
        return Some(NotFound);
      }
      var answer := if accept then Accepted else Ignored;
      AnswerAnswers(c, user, answer);
      Save(k, c.(rows := c.rows[at.value := c.rows[at.value].(request := answer)]),
           if accept then AcceptCall(user) else IgnoreCall(user));
      return None;
    }

    /** One bulk update over the participants of all conversations. */
    method ExpireStaleRequests(cutoff: int)
      requires Valid()
      modifies this
      ensures Valid()
      ensures |chats| == |old(chats)|
      ensures forall k :: 0 <= k < |chats| ==> chats[k] == Expire(old(chats)[k], cutoff)
      ensures forall k :: 0 <= k < |chats| ==> StaleExpired(old(chats)[k], chats[k], cutoff)
    {
      var before := chats;
      for k := 0 to |before|
        invariant Valid() && |chats| == |before|
        invariant forall j :: 0 <= j < k ==> chats[j] == Expire(before[j], cutoff)
        invariant forall j :: k <= j < |before| ==> chats[j] == before[j]
      {
        Save(k, Expire(chats[k], cutoff), ExpireCall(cutoff));
      }
    }

    // -------------------------------------------------------------- unread

    method GetUnreadCount(k: nat, who: Identity) returns (count: nat)
      ensures count == UnreadCount(chats, k, who)
    {
      if k >= |chats| {
        return 0;
      }
      var c := chats[k];
      var row := FindRow(c.rows, ActiveAs(who));
      if row.None? {
        return 0;
      }
      var floor := Floor(chats, c.rows[row.value].seen);
      count := 0;
      for i := 0 to |c.messages|
        invariant count == Unread(c.messages[..i], who, floor)
      {
        assert c.messages[..i + 1][..i] == c.messages[..i];
        if Counts(c.messages[i], who, floor) {
          count := count + 1;
        }
      }
      assert c.messages[..|c.messages|] == c.messages;
    }

    method GetUnreadCountsByScope(user: Id, managed: set<Identity>) returns (t: Totals)
      ensures PersonalTotals(chats, Records(chats, Personal(user)), t)
      ensures EntityTotals(chats, Records(chats, EntityInbox()), managed, t)
    {
      t := CountPersonal(user);
      var business, platform := CountEntities(managed);
      t := t.(entityBusiness := business, entityPlatform := platform);
    }

    method CountPersonal(user: Id) returns (t: Totals)
      ensures PersonalTotals(chats, Records(chats, Personal(user)), t)
    {
      var records := Records(chats, Personal(user));
      RecordsInRange(chats, Personal(user));
      t := Totals(0, map[], 0, map[], map[]);
      NothingTallied(chats, t);
      for i := 0 to |records|
        invariant PersonalTotals(chats, records[..i], t)
      {
        assert records[i] in records && records[..i + 1] == records[..i] + [records[i]];
        TallyKeepsTotals(chats, records[..i], records[i], t);
        t := AddToScope(t, records[i]);
      }
      assert records[..|records|] == records;
    }

    /** Count one conversation and add it where its scope belongs. */
    method AddToScope(before: Totals, r: Record) returns (t: Totals)
      requires r.chat < |chats|
      ensures t == Tally(before, chats[r.chat], UnreadCount(chats, r.chat, r.who))
    {
      t := before;
      var count := GetUnreadCount(r.chat, r.who);
      if count == 0 {
        return;
      }
      var conv := chats[r.chat];
      match conv.scope {
        case Global =>
          t := t.(global := t.global + count);
        case BusinessScope =>
          t := t.(business := t.business[conv.scopeId := Get(t.business, conv.scopeId) + count]);
        case PlatformScope =>
          t := t.(platform := t.platform + count);
      }
    }

    method CountEntities(managed: set<Identity>) returns (business: map<Id, nat>, platform: map<Id, nat>)
      ensures EntityTotals(chats, Records(chats, EntityInbox()), managed, Totals(0, map[], 0, business, platform))
    {
      var records := Records(chats, EntityInbox());
      RecordsInRange(chats, EntityInbox());
      business, platform := map[], map[];
      for i := 0 to |records|
        invariant EntityTotals(chats, records[..i], managed, Totals(0, map[], 0, business, platform))
      {
        assert records[i] in records && records[..i + 1] == records[..i] + [records[i]];
        EntityTallyKeepsTotals(chats, records[..i], records[i], managed, Totals(0, map[], 0, business, platform));
        business, platform := AddToEntity(managed, business, platform, records[i]);
      }
      assert records[..|records|] == records;
    }

    method AddToEntity(managed: set<Identity>, business0: map<Id, nat>, platform0: map<Id, nat>, r: Record)
      returns (business: map<Id, nat>, platform: map<Id, nat>)
      ensures Totals(0, map[], 0, business, platform)
              == EntityTally(Totals(0, map[], 0, business0, platform0), managed, r.who,
                             UnreadCount(chats, r.chat, r.who))
    {
      business, platform := business0, platform0;
      if r.who !in managed {
        return;
      }
      var count := GetUnreadCount(r.chat, r.who);
      if count == 0 {
        return;
      }
      if r.who.kind == Business {
        business := business[r.who.id := Get(business, r.who.id) + count];
      } else if r.who.kind == Platform {
        platform := platform[r.who.id := Get(platform, r.who.id) + count];
      }
    }
  }
}
