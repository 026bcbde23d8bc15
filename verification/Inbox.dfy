// Unread counts across conversations: resolving watermarks and aggregating by scope
// (ChatSelector.get_unread_count and get_unread_counts_by_scope).

module Inbox {
  import opened Wrappers
  import opened Chat
  import opened ChatInvariants
  import opened ChatShapes
  import opened ChatTheorems
  import opened Messenger

  /** The number of the message with this key, wherever it is. */
  function NumberOf(chats: seq<Conversation>, id: Id): Option<nat> {
    if chats == [] then None
    else
      var n := |chats| - 1;
      var k := FindMessage(chats[n].messages, id);
      if k.Some? then Some(chats[n].messages[k.value].number) else NumberOf(chats[..n], id)
  }

  /** Messages up to the watermark are read; an absent or dangling watermark reads nothing. */
  function Floor(chats: seq<Conversation>, seen: Option<Id>): nat {
    if seen.None? then 0 else NumberOf(chats, seen.value).GetOr(0)
  }

  /** `get_unread_count`. */
  function UnreadCount(chats: seq<Conversation>, k: nat, who: Identity): nat {
    if k >= |chats| then 0
    else
      var row := FindRow(chats[k].rows, ActiveAs(who));
      if row.None? then 0 else Unread(chats[k].messages, who, Floor(chats, chats[k].rows[row.value].seen))
  }

  // ------------------------------------------------- keys across conversations

  ghost predicate Has(messages: seq<Message>, id: Id) {
    exists m <- messages :: m.id == id
  }

  /** No message key occurs in two conversations. */
  ghost predicate KeysApart(db: Db) {
    forall j, k, id :: 0 <= j < k < |db.chats| && Has(db.chats[j].messages, id) ==> !Has(db.chats[k].messages, id)
  }

  lemma AppendedHas(before: seq<Message>, after: seq<Message>, sender: Identity, nextId: Id, id: Id)
    requires Appends(before, after, sender, nextId) && Has(after, id)
    ensures Has(before, id) || id >= nextId
  {
    var m :| m in after && m.id == id;
    var i :| 0 <= i < |after| && after[i] == m;
    if i < |before| {
      assert after[..|before|][i] == m && m in before;
    }
  }

  lemma RewrittenHas(c: Conversation, d: Conversation, id: Id)
    requires MarksShape(c, d) && Has(d.messages, id)
    ensures Has(c.messages, id)
  {
    var m :| m in d.messages && m.id == id;
    var i :| 0 <= i < |d.messages| && d.messages[i] == m;
    assert c.messages[i] in c.messages;
  }

  /** A key in the log after a call was there before or is new. */
  lemma OldOrFresh(cfg: Config, c: Conversation, nextId: Id, call: Call, id: Id)
    requires Has(Chat.After(cfg, c, nextId, call).messages, id)
    ensures Has(c.messages, id) || id >= nextId
  {
    if call.EditCall? || call.DeleteCall? || call.SeenCall? {
      OtherCallsShape(cfg, c, nextId, call);
      RewrittenHas(c, Chat.After(cfg, c, nextId, call), id);
    } else {
      CallShape(cfg, c, nextId, call);
      AppendedHas(c.messages, Chat.After(cfg, c, nextId, call).messages, PosterOf(c, call), nextId, id);
    }
  }

  lemma EventKeepsKeysApart(cfg: Config, db: Db, ev: Event)
    requires DbInv(cfg, db) && KeysApart(db)
    ensures KeysApart(Next(cfg, db, ev))
  {
    var d := Next(cfg, db, ev);
    if ev.CallEvent? && ev.chat < |db.chats| {
      forall j, k, id | 0 <= j < k < |d.chats| && Has(d.chats[j].messages, id) ensures !Has(d.chats[k].messages, id) {
        var other := if j == ev.chat then k else j;
        assert Inv(cfg, db.chats[other], db.nextId);
        if Has(d.chats[ev.chat].messages, id) {
          OldOrFresh(cfg, db.chats[ev.chat], db.nextId, ev.call, id);
        }
      }
    }
  }

  lemma {:induction false} RunKeepsKeysApart(cfg: Config, evs: seq<Event>)
    ensures KeysApart(Run(cfg, evs))
  {
    if evs != [] {
      RunKeepsInv(cfg, evs[..|evs| - 1]);
      RunKeepsKeysApart(cfg, evs[..|evs| - 1]);
      EventKeepsKeysApart(cfg, Run(cfg, evs[..|evs| - 1]), evs[|evs| - 1]);
    }
  }

  /** A key of a stored message resolves to that message's own number. */
  lemma {:induction false} NumberOfStored(chats: seq<Conversation>, nextId: Id, k: nat, i: nat)
    requires k < |chats| && i < |chats[k].messages|
    requires forall j :: 0 <= j < |chats| ==> DistinctIds(chats[j].messages, nextId)
    requires KeysApart(Db(chats, nextId))
    ensures NumberOf(chats, chats[k].messages[i].id) == Some(chats[k].messages[i].number)
  {
    var n := |chats| - 1;
    var id := chats[k].messages[i].id;
    assert chats[k].messages[i] in chats[k].messages;
    assert Has(chats[k].messages, id);
    if k < n {
      assert !Has(chats[n].messages, id);
      assert KeysApart(Db(chats[..n], nextId));
      NumberOfStored(chats[..n], nextId, k, i);
    }
  }

  // ------------------------------------------------------------ the promises

  /** Nothing is unread for a participant whose watermark is the newest message. */
  lemma NewestSeenReadsAll(cfg: Config, db: Db, k: nat, who: Identity)
    requires DbInv(cfg, db) && KeysApart(db) && k < |db.chats| && db.chats[k].messages != []
    requires SeenBy(db.chats[k], who) == Some(db.chats[k].messages[|db.chats[k].messages| - 1].id)
    ensures UnreadCount(db.chats, k, who) == 0
  {
    var c := db.chats[k];
    assert forall j :: 0 <= j < |db.chats| ==> Inv(cfg, db.chats[j], db.nextId);
    NumberOfStored(db.chats, db.nextId, k, |c.messages| - 1);
    NothingAbove(c.messages, who, |c.messages|);
  }

  lemma SeenEvent(cfg: Config, db: Db, k: nat, who: Identity, message: Id)
    requires k < |db.chats| && Takes(db.chats[k], who)
    ensures
      var d := Next(cfg, db, CallEvent(k, SeenCall(who, message)));
      && |d.chats| == |db.chats| && d.chats[k].messages == db.chats[k].messages
      && SeenBy(d.chats[k], who) == Some(message)
  {
    ActiveRowFound(db.chats[k], who);
    MarkedIsSeen(db.chats[k], who, message);
  }

  /** Marking the newest message seen leaves nothing unread. */
  lemma SeeingTheNewestReadsAll(cfg: Config, db: Db, k: nat, who: Identity)
    requires DbInv(cfg, db) && KeysApart(db) && k < |db.chats| && db.chats[k].messages != []
    requires Takes(db.chats[k], who)
    ensures
      var c := db.chats[k];
      var newest := c.messages[|c.messages| - 1].id;
      UnreadCount(Next(cfg, db, CallEvent(k, SeenCall(who, newest))).chats, k, who) == 0
  {
    var newest := db.chats[k].messages[|db.chats[k].messages| - 1].id;
    var ev := CallEvent(k, SeenCall(who, newest));
    EventKeepsInv(cfg, db, ev);
    EventKeepsKeysApart(cfg, db, ev);
    SeenEvent(cfg, db, k, who, newest);
    NewestSeenReadsAll(cfg, Next(cfg, db, ev), k, who);
  }

  /** The watermark is unset or is a key handed out so far, of any conversation or of none. */
  predicate Known(db: Db, seen: Option<Id>) {
    seen.Some? ==> seen.value < db.nextId
  }

  /** A key found before a call is found after it, with the same number, and no other old key appears. */
  lemma CallKeepsNumbers(cfg: Config, c: Conversation, nextId: Id, call: Call, id: Id)
    requires Inv(cfg, c, nextId) && id < nextId
    ensures
      var d := Chat.After(cfg, c, nextId, call);
      var i, j := FindMessage(c.messages, id), FindMessage(d.messages, id);
      && (i.Some? <==> j.Some?)
      && (i.Some? ==> d.messages[j.value].number == c.messages[i.value].number)
  {
    var d := Chat.After(cfg, c, nextId, call);
    var i, j := FindMessage(c.messages, id), FindMessage(d.messages, id);
    CallKeepsInv(cfg, c, nextId, call);
    MessagesAreNeverDropped(cfg, c, nextId, call);
    if j.Some? {
      assert d.messages[j.value] in d.messages;
      OldOrFresh(cfg, c, nextId, call, id);
    }
    if i.Some? {
      assert d.messages[i.value].id == id;
    }
  }

  lemma {:induction false} NumberOfUpdate(chats: seq<Conversation>, k: nat, d: Conversation, id: Id)
    requires k < |chats|
    requires
      var i, j := FindMessage(chats[k].messages, id), FindMessage(d.messages, id);
      && (i.Some? <==> j.Some?)
      && (i.Some? ==> d.messages[j.value].number == chats[k].messages[i.value].number)
    ensures NumberOf(chats[k := d], id) == NumberOf(chats, id)
  {
    var n := |chats| - 1;
    if k == n {
      assert chats[k := d][..n] == chats[..n];
    } else {
      assert chats[k := d][..n] == chats[..n][k := d];
      NumberOfUpdate(chats[..n], k, d, id);
    }
  }

  /** A known watermark keeps its number whatever happens next. */
  lemma FloorStays(cfg: Config, db: Db, ev: Event, seen: Option<Id>)
    requires DbInv(cfg, db) && Known(db, seen)
    ensures Floor(Next(cfg, db, ev).chats, seen) == Floor(db.chats, seen)
  {
    var d := Next(cfg, db, ev);
    if seen.Some? {
      if ev.CallEvent? && ev.chat < |db.chats| {
        CallKeepsNumbers(cfg, db.chats[ev.chat], db.nextId, ev.call, seen.value);
        NumberOfUpdate(db.chats, ev.chat, d.chats[ev.chat], seen.value);
      } else if |d.chats| == |db.chats| + 1 {
        assert d.chats[..|db.chats|] == db.chats;
      }
    }
  }

  /** A watermark of its own conversation is never ahead of it. */
  lemma OwnFloor(cfg: Config, db: Db, k: nat, seen: Option<Id>)
    requires DbInv(cfg, db) && KeysApart(db) && k < |db.chats|
    requires seen.Some? ==> Has(db.chats[k].messages, seen.value)
    ensures Known(db, seen) && Floor(db.chats, seen) <= |db.chats[k].messages|
  {
    if seen.Some? {
      var c := db.chats[k];
      var m :| m in c.messages && m.id == seen.value;
      var i :| 0 <= i < |c.messages| && c.messages[i] == m;
      assert forall j :: 0 <= j < |db.chats| ==> Inv(cfg, db.chats[j], db.nextId);
      NumberOfStored(db.chats, db.nextId, k, i);
    }
  }

  /** How many of the numbers n+1, ..., n+added lie above the floor. */
  function Above(n: nat, added: nat, floor: nat): nat {
    if floor <= n then added else if floor < n + added then n + added - floor else 0
  }

  /** Appended messages count for everyone but their poster, as far as the watermark is not ahead of them. */
  lemma {:induction false} UnreadAppends(before: seq<Message>, after: seq<Message>, sender: Identity, nextId: Id,
                                         who: Identity, floor: nat)
    requires Appends(before, after, sender, nextId) && Numbered(after)
    ensures Unread(after, who, floor)
            == Unread(before, who, floor) + if who == sender then 0 else Above(|before|, |after| - |before|, floor)
    decreases |after|
  {
    if |after| == |before| {
      assert after == before;
    } else {
      var init := after[..|after| - 1];
      assert init[..|before|] == before && forall i :: 0 <= i < |init| ==> init[i] == after[i];
      UnreadAppends(before, init, sender, nextId, who, floor);
    }
  }

  /** The row of an active participant, and its watermark. */
  function SeenBy(c: Conversation, who: Identity): Option<Id> {
    var k := FindRow(c.rows, ActiveAs(who));
    if k.None? then None else c.rows[k.value].seen
  }

  lemma MarkedIsSeen(c: Conversation, who: Identity, message: Id)
    requires MarkSeen(c, who, message).Ok?
    ensures SeenBy(MarkSeen(c, who, message).value, who) == Some(message)
  {
    var k := FindRow(c.rows, ActiveAs(who)).value;
    var d := MarkSeen(c, who, message).value;
    assert ActiveAs(who)(d.rows[k]);
    assert forall j :: 0 <= j < k ==> d.rows[j] == c.rows[j];
  }

  lemma SeenStays(cfg: Config, c: Conversation, nextId: Id, call: Call, who: Identity)
    requires Inv(cfg, c, nextId) && !call.EditCall? && !call.DeleteCall? && !call.SeenCall? && Takes(c, who)
             && Takes(Chat.After(cfg, c, nextId, call), who)
    ensures SeenBy(Chat.After(cfg, c, nextId, call), who) == SeenBy(c, who)
    ensures FindRow(c.rows, ActiveAs(who)).Some? && FindRow(Chat.After(cfg, c, nextId, call).rows, ActiveAs(who)).Some?
  {
    var d := Chat.After(cfg, c, nextId, call);
    CallKeepsInv(cfg, c, nextId, call);
    ActiveRowFound(c, who);
    ActiveRowFound(d, who);
    CallShape(cfg, c, nextId, call);
    RowKeepsSeen(c, d, nextId + 2, who);
  }

  lemma UnreadCountIs(chats: seq<Conversation>, k: nat, who: Identity)
    requires k < |chats| && FindRow(chats[k].rows, ActiveAs(who)).Some?
    ensures UnreadCount(chats, k, who) == Unread(chats[k].messages, who, Floor(chats, SeenBy(chats[k], who)))
  {
  }

  lemma RowKeepsSeen(c: Conversation, d: Conversation, nextId: Id, who: Identity)
    requires RowsKept(c.rows, d.rows) && OneRowEach(d.rows, nextId)
    requires FindRow(c.rows, ActiveAs(who)).Some? && FindRow(d.rows, ActiveAs(who)).Some?
    ensures SeenBy(d, who) == SeenBy(c, who)
  {
    var k, l := FindRow(c.rows, ActiveAs(who)).value, FindRow(d.rows, ActiveAs(who)).value;
    assert d.rows[k].who == d.rows[l].who;
    assert k == l;
  }

  lemma ActiveRowFound(c: Conversation, who: Identity)
    ensures Takes(c, who) <==> FindRow(c.rows, ActiveAs(who)).Some?
  {
    if r :| r in c.rows && r.active && r.who == who {
      var i :| 0 <= i < |c.rows| && c.rows[i] == r;
      assert ActiveAs(who)(c.rows[i]);
    }
  }

  /**
   * Every message a call posts, system messages included, adds exactly one to the unread
   * count of each participant active before and after it, except the identity it is posted
   * as, and except for messages a watermark is already ahead of. A leave may post two.
   */
  lemma PostsCountForOthers(cfg: Config, db: Db, k: nat, call: Call, who: Identity)
    requires DbInv(cfg, db) && k < |db.chats| && !call.EditCall? && !call.DeleteCall? && !call.SeenCall?
    requires Takes(db.chats[k], who) && Takes(Chat.After(cfg, db.chats[k], db.nextId, call), who)
    requires Known(db, SeenBy(db.chats[k], who))
    ensures
      var c, d := db.chats[k], Chat.After(cfg, db.chats[k], db.nextId, call);
      && |c.messages| <= |d.messages|
      && UnreadCount(Next(cfg, db, CallEvent(k, call)).chats, k, who)
         == UnreadCount(db.chats, k, who)
            + if who == PosterOf(c, call) then 0
              else Above(|c.messages|, |d.messages| - |c.messages|, Floor(db.chats, SeenBy(c, who)))
  {
    var c, d := db.chats[k], Chat.After(cfg, db.chats[k], db.nextId, call);
    assert Inv(cfg, c, db.nextId);
    SeenStays(cfg, c, db.nextId, call, who);
    FloorStays(cfg, db, CallEvent(k, call), SeenBy(c, who));
    CallShape(cfg, c, db.nextId, call);
    UnreadCountIs(db.chats, k, who);
    UnreadCountIs(Next(cfg, db, CallEvent(k, call)).chats, k, who);
    UnreadAppends(c.messages, d.messages, PosterOf(c, call), db.nextId, who, Floor(db.chats, SeenBy(c, who)));
  }

  /** How many messages a successful call posts. */
  lemma PostedCount(cfg: Config, c: Conversation, nextId: Id, call: Call)
    requires Attempt(cfg, c, nextId, call).Ok?
    ensures
      var posted := |After(cfg, c, nextId, call).messages| - |c.messages|;
      && (call.SendCall? || call.AddCall? || call.RemoveCall? ==> posted == 1)
      && (call.LeaveCall? ==> 1 <= posted <= 2)
      && (call.PromoteCall? || call.DemoteCall? ==> posted == if After(cfg, c, nextId, call) == c then 0 else 1)
  {
    if call.LeaveCall? {
      LeaveShape(cfg, c, nextId, call.user, call.now);
    }
  }

  /**
   * A message adds exactly one to the unread count of every active participant other than
   * its sender identity, and nothing to the sender's. Only a watermark taken from a longer
   * conversation, ahead of this one, hides it.
   */
  lemma SendAddsOneForOthers(cfg: Config, db: Db, k: nat, sender: Identity, user: Id, content: string,
                             attachments: Attachments, now: int, who: Identity)
    requires DbInv(cfg, db) && k < |db.chats| && Takes(db.chats[k], who) && Known(db, SeenBy(db.chats[k], who))
    requires Send(cfg, db.chats[k], db.nextId, sender, user, content, attachments, now).Ok?
    ensures
      var ev := CallEvent(k, SendCall(sender, user, content, attachments, now));
      var hidden := Floor(db.chats, SeenBy(db.chats[k], who)) > |db.chats[k].messages|;
      UnreadCount(Next(cfg, db, ev).chats, k, who)
      == UnreadCount(db.chats, k, who) + if who == sender || hidden then 0 else 1
  {
    PostsCountForOthers(cfg, db, k, SendCall(sender, user, content, attachments, now), who);
  }

  /** Deleting a message takes one off exactly the counts it was part of. */
  lemma DeleteTakesOneWhereCounted(cfg: Config, db: Db, k: nat, message: Id, user: Id, staff: bool, who: Identity)
    requires DbInv(cfg, db) && k < |db.chats| && Takes(db.chats[k], who) && Known(db, SeenBy(db.chats[k], who))
    requires Delete(db.chats[k], message, user, staff).Ok?
    ensures
      var c := db.chats[k];
      var counted := Counts(c.messages[FindMessage(c.messages, message).value], who, Floor(db.chats, SeenBy(c, who)));
      FindMessage(c.messages, message).Some?
      && UnreadCount(Next(cfg, db, CallEvent(k, DeleteCall(message, user, staff))).chats, k, who)
         == UnreadCount(db.chats, k, who) - if counted then 1 else 0
  {
    var seen := SeenBy(db.chats[k], who);
    ActiveRowFound(db.chats[k], who);
    FloorStays(cfg, db, CallEvent(k, DeleteCall(message, user, staff)), seen);
    DeleteSubtractsCounted(db.chats[k], message, user, staff, who, Floor(db.chats, seen));
  }

  // ------------------------------------------------------------ aggregation

  /** A participant row of a query result. */
  datatype Record = Record(chat: nat, who: Identity)

  function RowRecords(c: Conversation, rows: seq<Row>, k: nat, p: (Conversation, Row) -> bool): seq<Record> {
    if rows == [] then []
    else RowRecords(c, rows[..|rows| - 1], k, p)
         + if p(c, rows[|rows| - 1]) then [Record(k, rows[|rows| - 1].who)] else []
  }

  function Records(chats: seq<Conversation>, p: (Conversation, Row) -> bool): seq<Record> {
    if chats == [] then []
    else
      var n := |chats| - 1;
      Records(chats[..n], p) + RowRecords(chats[n], chats[n].rows, n, p)
  }

  lemma {:induction false} RecordsInRange(chats: seq<Conversation>, p: (Conversation, Row) -> bool)
    ensures forall r <- Records(chats, p) :: r.chat < |chats|
  {
    if chats != [] {
      var n := |chats| - 1;
      RecordsInRange(chats[..n], p);
      RowRecordsOf(chats[n], chats[n].rows, n, p);
    }
  }

  lemma {:induction false} RowRecordsOf(c: Conversation, rows: seq<Row>, k: nat, p: (Conversation, Row) -> bool)
    ensures forall r <- RowRecords(c, rows, k, p) :: r.chat == k
  {
    if rows != [] {
      RowRecordsOf(c, rows[..|rows| - 1], k, p);
    }
  }

  function Personal(user: Id): (Conversation, Row) -> bool {
    (c: Conversation, r: Row) => r.active && r.who == Identity(User, user) && r.request != Pending
  }

  function EntityInbox(): (Conversation, Row) -> bool {
    (c: Conversation, r: Row) => r.active && r.who.kind != User && c.scope == Global
  }

  /** Sum of unread counts over the records a filter accepts. */
  function Sum(chats: seq<Conversation>, records: seq<Record>, q: Record -> bool): nat {
    if records == [] then 0
    else
      var last := records[|records| - 1];
      Sum(chats, records[..|records| - 1], q) + if q(last) then UnreadCount(chats, last.chat, last.who) else 0
  }

  function ScopeIs(chats: seq<Conversation>, scope: Scope): Record -> bool {
    (r: Record) => r.chat < |chats| && chats[r.chat].scope == scope
  }

  function BusinessIs(chats: seq<Conversation>, id: Option<Id>): Record -> bool {
    (r: Record) => r.chat < |chats| && chats[r.chat].scope == BusinessScope && chats[r.chat].scopeId == id
  }

  function EntityIs(managed: set<Identity>, who: Identity): Record -> bool {
    (r: Record) => r.who in managed && r.who == who
  }

  function Every(): Record -> bool {
    (r: Record) => true
  }

  function Get<K>(m: map<K, nat>, k: K): nat {
    if k in m then m[k] else 0
  }

  ghost function Total<K>(m: map<K, nat>): nat
    decreases |m|
  {
    if m == map[] then 0
    else
      var k :| k in m;
      m[k] + Total(m - {k})
  }

  lemma {:induction false} TotalSplit<K>(m: map<K, nat>, k: K)
    requires k in m
    ensures Total(m) == m[k] + Total(m - {k})
    decreases |m|
  {
    var j :| j in m && Total(m) == m[j] + Total(m - {j});
    if j != k {
      TotalSplit(m - {j}, k);
      assert m - {j} - {k} == m - {k} - {j};
      TotalSplit(m - {k}, j);
    }
  }

  lemma TotalUpdate<K>(m: map<K, nat>, k: K, v: nat)
    ensures Total(m[k := v]) + Get(m, k) == Total(m) + v
  {
    TotalSplit(m[k := v], k);
    assert m[k := v] - {k} == m - {k};
    if k in m {
      TotalSplit(m, k);
    } else {
      assert m - {k} == m;
    }
  }

  datatype Totals = Totals(
    global: nat, business: map<Option<Id>, nat>, platform: nat,
    entityBusiness: map<Id, nat>, entityPlatform: map<Id, nat>)

  /** The personal part: each scope total is the sum over that scope's conversations, and nothing is lost. */
  ghost predicate PersonalTotals(chats: seq<Conversation>, records: seq<Record>, t: Totals) {
    && t.global == Sum(chats, records, ScopeIs(chats, Global))
    && t.platform == Sum(chats, records, ScopeIs(chats, PlatformScope))
    && (forall id :: Get(t.business, id) == Sum(chats, records, BusinessIs(chats, id)))
    && (forall id <- t.business :: t.business[id] > 0)
    && t.global + t.platform + Total(t.business) == Sum(chats, records, Every())
  }

  lemma SumAppend(chats: seq<Conversation>, records: seq<Record>, r: Record, q: Record -> bool)
    ensures Sum(chats, records + [r], q)
            == Sum(chats, records, q) + if q(r) then UnreadCount(chats, r.chat, r.who) else 0
  {
    var all := records + [r];
    assert all[..|all| - 1] == records;
  }

  /** One conversation's count, added where its scope belongs. */
  function Tally(t: Totals, c: Conversation, count: nat): Totals {
    if count == 0 then t
    else match c.scope
      case Global => t.(global := t.global + count)
      case BusinessScope => t.(business := t.business[c.scopeId := Get(t.business, c.scopeId) + count])
      case PlatformScope => t.(platform := t.platform + count)
  }

  lemma TallyKeepsScopes(chats: seq<Conversation>, records: seq<Record>, r: Record, t: Totals)
    requires PersonalTotals(chats, records, t) && r.chat < |chats|
    ensures
      var d := Tally(t, chats[r.chat], UnreadCount(chats, r.chat, r.who));
      && d.global == Sum(chats, records + [r], ScopeIs(chats, Global))
      && d.platform == Sum(chats, records + [r], ScopeIs(chats, PlatformScope))
  {
    SumAppend(chats, records, r, ScopeIs(chats, Global));
    SumAppend(chats, records, r, ScopeIs(chats, PlatformScope));
  }

  lemma TallyKeepsBusiness(chats: seq<Conversation>, records: seq<Record>, r: Record, t: Totals, id: Option<Id>)
    requires r.chat < |chats| && Get(t.business, id) == Sum(chats, records, BusinessIs(chats, id))
    ensures Get(Tally(t, chats[r.chat], UnreadCount(chats, r.chat, r.who)).business, id)
            == Sum(chats, records + [r], BusinessIs(chats, id))
  {
    SumAppend(chats, records, r, BusinessIs(chats, id));
  }

  lemma TallyAddsCount(t: Totals, c: Conversation, count: nat)
    ensures
      var d := Tally(t, c, count);
      d.global + d.platform + Total(d.business) == t.global + t.platform + Total(t.business) + count
  {
    if count > 0 && c.scope == BusinessScope {
      TotalUpdate(t.business, c.scopeId, Get(t.business, c.scopeId) + count);
    }
  }

  lemma TallyKeepsGrandTotal(chats: seq<Conversation>, records: seq<Record>, r: Record, t: Totals)
    requires r.chat < |chats|
    requires t.global + t.platform + Total(t.business) == Sum(chats, records, Every())
    ensures
      var d := Tally(t, chats[r.chat], UnreadCount(chats, r.chat, r.who));
      d.global + d.platform + Total(d.business) == Sum(chats, records + [r], Every())
  {
    SumAppend(chats, records, r, Every());
    TallyAddsCount(t, chats[r.chat], UnreadCount(chats, r.chat, r.who));
  }

  lemma TallyKeepsTotals(chats: seq<Conversation>, records: seq<Record>, r: Record, t: Totals)
    requires PersonalTotals(chats, records, t) && r.chat < |chats|
    ensures PersonalTotals(chats, records + [r], Tally(t, chats[r.chat], UnreadCount(chats, r.chat, r.who)))
  {
    TallyKeepsScopes(chats, records, r, t);
    TallyKeepsGrandTotal(chats, records, r, t);
    var d := Tally(t, chats[r.chat], UnreadCount(chats, r.chat, r.who));
    forall id ensures Get(d.business, id) == Sum(chats, records + [r], BusinessIs(chats, id)) {
      TallyKeepsBusiness(chats, records, r, t, id);
    }
  }

  ghost predicate EntityTotals(chats: seq<Conversation>, records: seq<Record>, managed: set<Identity>, t: Totals) {
    && (forall id :: Get(t.entityBusiness, id) == Sum(chats, records, EntityIs(managed, Identity(Business, id))))
    && (forall id :: Get(t.entityPlatform, id) == Sum(chats, records, EntityIs(managed, Identity(Platform, id))))
  }

  lemma NothingTallied(chats: seq<Conversation>, t: Totals)
    requires t == Totals(0, map[], 0, map[], map[])
    ensures PersonalTotals(chats, [], t)
  {
  }

  /** One entity conversation's count, added to a managed entity. */
  function EntityTally(t: Totals, managed: set<Identity>, who: Identity, count: nat): Totals {
    if who !in managed || count == 0 then t
    else match who.kind
      case Business => t.(entityBusiness := t.entityBusiness[who.id := Get(t.entityBusiness, who.id) + count])
      case Platform => t.(entityPlatform := t.entityPlatform[who.id := Get(t.entityPlatform, who.id) + count])
      case User => t
  }

  lemma EntityTallyKeepsOne(chats: seq<Conversation>, records: seq<Record>, r: Record, managed: set<Identity>,
                            t: Totals, id: Id)
    requires EntityTotals(chats, records, managed, t)
    ensures
      var d := EntityTally(t, managed, r.who, UnreadCount(chats, r.chat, r.who));
      && Get(d.entityBusiness, id) == Sum(chats, records + [r], EntityIs(managed, Identity(Business, id)))
      && Get(d.entityPlatform, id) == Sum(chats, records + [r], EntityIs(managed, Identity(Platform, id)))
  {
    SumAppend(chats, records, r, EntityIs(managed, Identity(Business, id)));
    SumAppend(chats, records, r, EntityIs(managed, Identity(Platform, id)));
  }

  lemma EntityTallyKeepsTotals(chats: seq<Conversation>, records: seq<Record>, r: Record, managed: set<Identity>,
                               t: Totals)
    requires EntityTotals(chats, records, managed, t)
    ensures EntityTotals(chats, records + [r], managed,
                         EntityTally(t, managed, r.who, UnreadCount(chats, r.chat, r.who)))
  {
    var d := EntityTally(t, managed, r.who, UnreadCount(chats, r.chat, r.who));
    forall id: Id
      ensures Get(d.entityBusiness, id) == Sum(chats, records + [r], EntityIs(managed, Identity(Business, id)))
      ensures Get(d.entityPlatform, id) == Sum(chats, records + [r], EntityIs(managed, Identity(Platform, id)))
    {
      EntityTallyKeepsOne(chats, records, r, managed, t, id);
    }
  }
}
