// All conversations: creating them, finding the DM of a pair, watermarks resolved
// across conversations, and what holds over every run of calls.

module Messenger {
  import opened Wrappers
  import opened Chat
  import opened ChatInvariants
  import opened ChatShapes
  import opened ChatTheorems

  /** A conversation's id is its position; `nextId` bounds every key handed out so far. */
  datatype Db = Db(chats: seq<Conversation>, nextId: Id)

  // ------------------------------------------------------------- creation

  predicate InScope(c: Conversation, scope: Scope, scopeId: Option<Id>) {
    c.scope == scope && (if scope == Global then c.scopeId == None else c.scopeId == scopeId)
  }

  predicate IsDm(c: Conversation, scope: Scope, scopeId: Option<Id>, a: Identity, b: Identity) {
    c.kind == Direct && c.active && InScope(c, scope, scopeId) && Takes(c, a) && Takes(c, b)
  }

  /** `get_dm_conversation`. */
  function FindDm(chats: seq<Conversation>, scope: Scope, scopeId: Option<Id>, a: Identity, b: Identity)
    : (r: Option<nat>)
    ensures r.Some? ==> r.value < |chats| && IsDm(chats[r.value], scope, scopeId, a, b)
    ensures r.None? ==> forall j :: 0 <= j < |chats| ==> !IsDm(chats[j], scope, scopeId, a, b)
  {
    if chats == [] then None
    else
      var n := |chats| - 1;
      var before := FindDm(chats[..n], scope, scopeId, a, b);
      if before.Some? then before
      else if IsDm(chats[n], scope, scopeId, a, b) then Some(n)
      else None
  }

  /**
   * What the call is given. `refusal` is the error of the feature gates and the scope
   * eligibility check, `groupRefusal` that of the group gates, permissions and limits;
   * `blocks` and `blocked` are the block list lookups and `connected` the connection lookup.
   */
  datatype NewChat = NewChat(
    scope: Scope, scopeId: Option<Id>, kind: ConversationType, creator: Identity, others: seq<Identity>,
    name: string, refusal: Option<Error>, blocks: bool, blocked: bool, groupRefusal: Option<Error>,
    connected: bool, now: int)

  /** `_determine_request_status`: strangers in a global DM wait for approval. */
  function RequestFor(n: NewChat, other: Identity): Request {
    if n.kind == Direct && n.scope == Global && n.creator.kind == User && other.kind == User && !n.connected
    then Pending else NoRequest
  }

  function OtherRows(n: NewChat, others: seq<Identity>, pk: Id): seq<Row> {
    if others == [] then []
    else OtherRows(n, others[..|others| - 1], pk)
         + [Row(pk + |others|, others[|others| - 1], Member, RequestFor(n, others[|others| - 1]), true, n.now, None)]
  }

  function FirstRows(n: NewChat, pk: Id): seq<Row> {
    [Row(pk, n.creator, if n.kind == Group then Admin else Member, NoRequest, true, n.now, None)]
    + OtherRows(n, n.others, pk)
  }

  /** The unique constraint on active participants. */
  predicate DistinctPeople(n: NewChat) {
    && n.creator !in n.others
    && forall i, j :: 0 <= i < j < |n.others| ==> n.others[i] != n.others[j]
  }

  function Create(cfg: Config, db: Db, n: NewChat): Result<(Db, nat), Error> {
    if n.refusal.Some? then Fail(n.refusal.value)
    else if n.kind == Direct && |n.others| != 1 then Fail(Invalid)
    else
      var existing := if n.kind == Direct then FindDm(db.chats, n.scope, n.scopeId, n.creator, n.others[0]) else None;
      if existing.Some? then Ok((db, existing.value))
      else if n.kind == Direct && n.blocks then Fail(Rule)
      else if n.kind == Direct && n.blocked then Fail(Denied)
      else if n.kind == Group && n.groupRefusal.Some? then Fail(n.groupRefusal.value)
      else if n.kind == Group && cfg.blank(n.name) then Fail(Invalid)
      else if n.kind == Group && |n.others| > cfg.maxParticipants - 1 then Fail(Rule)
      else if !DistinctPeople(n) then Fail(Integrity)
      else
        var c := Conversation(n.scope, n.scopeId, n.kind, n.creator, true, FirstRows(n, db.nextId), [], None);
        Ok((Db(db.chats + [c], db.nextId + |n.others| + 1), |db.chats|))
  }

  // ------------------------------------------------------------------ calls

  datatype Event = CreateEvent(n: NewChat) | CallEvent(chat: nat, call: Call)

  /** A call that fails changes nothing. */
  function Next(cfg: Config, db: Db, ev: Event): Db {
    match ev
    case CreateEvent(n) =>
      var r := Create(cfg, db, n);
      if r.Ok? then r.value.0 else db
    case CallEvent(k, call) =>
      if k >= |db.chats| then db
      else Db(db.chats[k := Chat.After(cfg, db.chats[k], db.nextId, call)], db.nextId + 2)
  }

  const EMPTY := Db([], 0)

  function Run(cfg: Config, evs: seq<Event>): Db {
    if evs == [] then EMPTY
    else Next(cfg, Run(cfg, evs[..|evs| - 1]), evs[|evs| - 1])
  }

  // -------------------------------------------------------------- invariant

  ghost predicate DbInv(cfg: Config, db: Db) {
    forall k :: 0 <= k < |db.chats| ==> Inv(cfg, db.chats[k], db.nextId)
  }

  lemma {:induction false} OtherRowsCount(n: NewChat, others: seq<Identity>, pk: Id)
    ensures |OtherRows(n, others, pk)| == |others|
    ensures CountRows(OtherRows(n, others, pk), IsActive()) == |others|
  {
    if others != [] {
      var init := others[..|others| - 1];
      OtherRowsCount(n, init, pk);
      var rows := OtherRows(n, others, pk);
      assert rows[..|rows| - 1] == OtherRows(n, init, pk);
    }
  }

  lemma {:induction false} OtherRowsAre(n: NewChat, others: seq<Identity>, pk: Id)
    ensures
      var rows := OtherRows(n, others, pk);
      && |rows| == |others|
      && forall i :: 0 <= i < |rows| ==>
           rows[i] == Row(pk + i + 1, others[i], Member, RequestFor(n, others[i]), true, n.now, None)
  {
    if others != [] {
      OtherRowsAre(n, others[..|others| - 1], pk);
    }
  }

  lemma {:induction false} CountPrepend(row: Row, rows: seq<Row>, p: Row -> bool)
    ensures CountRows([row] + rows, p) == (if p(row) then 1 else 0) + CountRows(rows, p)
  {
    var all := [row] + rows;
    if rows == [] {
      assert all[..0] == [] && all[0] == row;
    } else {
      assert all[..|all| - 1] == [row] + rows[..|rows| - 1];
      CountPrepend(row, rows[..|rows| - 1], p);
    }
  }

  lemma FirstRowsCount(n: NewChat, pk: Id)
    ensures |FirstRows(n, pk)| == |n.others| + 1
    ensures ActiveCount(FirstRows(n, pk)) == |n.others| + 1
  {
    OtherRowsCount(n, n.others, pk);
    CountPrepend(FirstRows(n, pk)[0], OtherRows(n, n.others, pk), IsActive());
  }

  lemma FirstRow(n: NewChat, pk: Id, i: nat)
    requires i <= |n.others|
    ensures |FirstRows(n, pk)| == |n.others| + 1
    ensures
      var row := FirstRows(n, pk)[i];
      && row.pk == pk + i && row.who == ([n.creator] + n.others)[i] && row.active
      && (row.request == Pending ==> n.kind == Direct && i > 0)
  {
    OtherRowsAre(n, n.others, pk);
    if i > 0 {
      assert FirstRows(n, pk)[i] == OtherRows(n, n.others, pk)[i - 1];
    }
  }

  lemma FirstRowsAre(n: NewChat, pk: Id)
    ensures
      var rows, people := FirstRows(n, pk), [n.creator] + n.others;
      && |rows| == |people|
      && ActiveCount(rows) == |people|
      && rows[0].role == (if n.kind == Group then Admin else Member)
      && forall i :: 0 <= i < |rows| ==>
           rows[i].pk == pk + i && rows[i].who == people[i] && rows[i].active
           && (rows[i].request == Pending ==> n.kind == Direct && i > 0)
  {
    FirstRowsCount(n, pk);
    forall i | 0 <= i < |FirstRows(n, pk)|
      ensures
        var row := FirstRows(n, pk)[i];
        && row.pk == pk + i && row.who == ([n.creator] + n.others)[i] && row.active
        && (row.request == Pending ==> n.kind == Direct && i > 0)
    {
      FirstRow(n, pk, i);
    }
  }

  lemma CreatedRows(n: NewChat, pk: Id)
    requires DistinctPeople(n)
    ensures OneRowEach(FirstRows(n, pk), pk + |n.others| + 1)
  {
    FirstRowsAre(n, pk);
    var people := [n.creator] + n.others;
    assert forall i, j :: 0 <= i < j < |people| ==> people[i] != people[j];
  }

  lemma CreatedIsSound(cfg: Config, db: Db, n: NewChat)
    requires Create(cfg, db, n).Ok? && Create(cfg, db, n).value.1 == |db.chats|
    ensures
      var c := Create(cfg, db, n).value.0.chats[|db.chats|];
      && Create(cfg, db, n).value.0.nextId == db.nextId + |n.others| + 1
      && Inv(cfg, c, db.nextId + |n.others| + 1) && Led(c)
  {
    FirstRowsAre(n, db.nextId);
    CreatedRows(n, db.nextId);
    var c := Create(cfg, db, n).value.0.chats[|db.chats|];
    assert c.rows[0] in c.rows;
    assert forall who :: SentBy(c.messages, who) == 0;
  }

  lemma FirstRowsTake(n: NewChat, pk: Id, who: Identity)
    ensures (exists r <- FirstRows(n, pk) :: r.active && r.who == who) <==> who == n.creator || who in n.others
  {
    FirstRowsAre(n, pk);
    var rows, people := FirstRows(n, pk), [n.creator] + n.others;
    if who == n.creator || who in n.others {
      assert people[0] == n.creator && forall j :: 0 <= j < |n.others| ==> people[j + 1] == n.others[j];
      var i :| 0 <= i < |people| && people[i] == who;
      assert rows[i] in rows;
    }
  }

  lemma FirstRowsWait(n: NewChat, pk: Id)
    requires n.kind == Direct ==> |n.others| == 1
    ensures (exists r <- FirstRows(n, pk) :: r.request == Pending)
            <==> n.kind == Direct && n.scope == Global && n.creator.kind == User && n.others[0].kind == User
                 && !n.connected
  {
    OtherRowsAre(n, n.others, pk);
    var rows := FirstRows(n, pk);
    assert forall i :: 0 < i < |rows| ==> rows[i] == OtherRows(n, n.others, pk)[i - 1];
    if n.kind == Direct {
      assert rows[1] in rows;
    }
  }

  /** A new conversation holds the creator and the others, and waits for approval only as a DM between strangers. */
  lemma CreatedPeople(cfg: Config, db: Db, n: NewChat)
    requires Create(cfg, db, n).Ok? && Create(cfg, db, n).value.1 == |db.chats|
    ensures
      var c := Create(cfg, db, n).value.0.chats[|db.chats|];
      && (forall who :: Takes(c, who) <==> who == n.creator || who in n.others)
      && ((exists r <- c.rows :: r.request == Pending)
          <==> n.kind == Direct && n.scope == Global && n.creator.kind == User && n.others[0].kind == User
               && !n.connected)
  {
    FirstRowsWait(n, db.nextId);
    forall who
      ensures (exists r <- FirstRows(n, db.nextId) :: r.active && r.who == who) <==> who == n.creator || who in n.others
    {
      FirstRowsTake(n, db.nextId, who);
    }
  }

  lemma ChatsStay(cfg: Config, c: Conversation, nextId: Id, later: Id)
    requires Inv(cfg, c, nextId) && nextId <= later
    ensures Inv(cfg, c, later)
  {
    LaterIdsKeepInv(cfg, c, nextId, later);
  }

  lemma AllChatsStay(cfg: Config, db: Db, later: Id)
    requires DbInv(cfg, db) && db.nextId <= later
    ensures forall k :: 0 <= k < |db.chats| ==> Inv(cfg, db.chats[k], later)
  {
    forall k | 0 <= k < |db.chats| ensures Inv(cfg, db.chats[k], later) {
      ChatsStay(cfg, db.chats[k], db.nextId, later);
    }
  }

  lemma OneMoreKeepsInv(cfg: Config, chats: seq<Conversation>, c: Conversation, nextId: Id)
    requires forall k :: 0 <= k < |chats| ==> Inv(cfg, chats[k], nextId)
    requires Inv(cfg, c, nextId)
    ensures DbInv(cfg, Db(chats + [c], nextId))
  {
    var all := chats + [c];
    forall k | 0 <= k < |all| ensures Inv(cfg, all[k], nextId) {
      assert all[k] == if k < |chats| then chats[k] else c;
    }
  }

  lemma OneChangedKeepsInv(cfg: Config, chats: seq<Conversation>, k: nat, c: Conversation, nextId: Id)
    requires k < |chats| && forall j :: 0 <= j < |chats| ==> Inv(cfg, chats[j], nextId)
    requires Inv(cfg, c, nextId)
    ensures DbInv(cfg, Db(chats[k := c], nextId))
  {
    var all := chats[k := c];
    forall j | 0 <= j < |all| ensures Inv(cfg, all[j], nextId) {
      assert all[j] == if j == k then c else chats[j];
    }
  }

  /** A creation returns a stored conversation, or appends one. */
  lemma CreateAppends(cfg: Config, db: Db, n: NewChat)
    requires Create(cfg, db, n).Ok?
    ensures
      var (d, k) := Create(cfg, db, n).value;
      if k == |db.chats| then |d.chats| == k + 1 && d == Db(db.chats + [d.chats[k]], db.nextId + |n.others| + 1)
      else d == db && k < |db.chats|
  {
  }

  lemma CreateKeepsInv(cfg: Config, db: Db, n: NewChat)
    requires DbInv(cfg, db) && Create(cfg, db, n).Ok?
    ensures DbInv(cfg, Create(cfg, db, n).value.0)
  {
    CreateAppends(cfg, db, n);
    var (d, k) := Create(cfg, db, n).value;
    if k == |db.chats| {
      CreatedIsSound(cfg, db, n);
      AllChatsStay(cfg, db, d.nextId);
      OneMoreKeepsInv(cfg, db.chats, d.chats[k], d.nextId);
    }
  }

  lemma CallEventKeepsInv(cfg: Config, db: Db, k: nat, call: Call)
    requires DbInv(cfg, db) && k < |db.chats|
    ensures DbInv(cfg, Db(db.chats[k := Chat.After(cfg, db.chats[k], db.nextId, call)], db.nextId + 2))
  {
    assert Inv(cfg, db.chats[k], db.nextId);
    CallKeepsInv(cfg, db.chats[k], db.nextId, call);
    AllChatsStay(cfg, db, db.nextId + 2);
    OneChangedKeepsInv(cfg, db.chats, k, Chat.After(cfg, db.chats[k], db.nextId, call), db.nextId + 2);
  }

  lemma ChatsNeverVanish(cfg: Config, db: Db, ev: Event)
    ensures |db.chats| <= |Next(cfg, db, ev).chats|
  {
    if ev.CreateEvent? && Create(cfg, db, ev.n).Ok? {
      CreateAppends(cfg, db, ev.n);
    }
  }

  lemma CreateNextKeepsInv(cfg: Config, db: Db, n: NewChat)
    requires DbInv(cfg, db)
    ensures DbInv(cfg, Next(cfg, db, CreateEvent(n)))
  {
    if Create(cfg, db, n).Ok? {
      CreateKeepsInv(cfg, db, n);
    }
  }

  lemma CallNextKeepsInv(cfg: Config, db: Db, k: nat, call: Call)
    requires DbInv(cfg, db)
    ensures DbInv(cfg, Next(cfg, db, CallEvent(k, call)))
  {
    if k < |db.chats| {
      CallEventKeepsInv(cfg, db, k, call);
    }
  }

  lemma EventKeepsInv(cfg: Config, db: Db, ev: Event)
    requires DbInv(cfg, db)
    ensures DbInv(cfg, Next(cfg, db, ev))
    ensures |db.chats| <= |Next(cfg, db, ev).chats|
  {
    ChatsNeverVanish(cfg, db, ev);
    match ev
    case CreateEvent(n) => CreateNextKeepsInv(cfg, db, n);
    case CallEvent(k, call) => CallNextKeepsInv(cfg, db, k, call);
  }

  /**
   * In every reachable state each conversation has gap-free numbers and a faithful cache,
   * one row per identity, at most the allowed active members, and no sender past the
   * request quota.
   */
  lemma {:induction false} RunKeepsInv(cfg: Config, evs: seq<Event>)
    ensures DbInv(cfg, Run(cfg, evs))
  {
    if evs != [] {
      RunKeepsInv(cfg, evs[..|evs| - 1]);
      EventKeepsInv(cfg, Run(cfg, evs[..|evs| - 1]), evs[|evs| - 1]);
    }
  }

  // ----------------------------------------------------------------- admins

  predicate Abdication(db: Db, ev: Event) {
    ev.CallEvent? && ev.chat < |db.chats| && Abdicates(db.chats[ev.chat], ev.call)
  }

  /** No sole admin removes themselves anywhere in the run. */
  predicate Orderly(cfg: Config, evs: seq<Event>) {
    evs == [] || (Orderly(cfg, evs[..|evs| - 1]) && !Abdication(Run(cfg, evs[..|evs| - 1]), evs[|evs| - 1]))
  }

  ghost predicate AllLed(db: Db) {
    forall k :: 0 <= k < |db.chats| ==> Led(db.chats[k])
  }

  /** In every state of the run each active group has an active admin. */
  ghost predicate AlwaysLed(cfg: Config, evs: seq<Event>) {
    AllLed(Run(cfg, evs)) && (evs == [] || AlwaysLed(cfg, evs[..|evs| - 1]))
  }

  lemma CreationKeepsLed(cfg: Config, db: Db, n: NewChat)
    requires AllLed(db) && Create(cfg, db, n).Ok?
    ensures AllLed(Create(cfg, db, n).value.0)
  {
    CreateAppends(cfg, db, n);
    if Create(cfg, db, n).value.1 == |db.chats| {
      CreatedIsSound(cfg, db, n);
    }
  }

  lemma CallLedIff(cfg: Config, db: Db, k: nat, call: Call)
    requires DbInv(cfg, db) && AllLed(db) && k < |db.chats|
    ensures AllLed(Next(cfg, db, CallEvent(k, call))) <==> !Abdicates(db.chats[k], call)
  {
    var d := Next(cfg, db, CallEvent(k, call));
    CallKeepsLed(cfg, db.chats[k], db.nextId, call);
    assert d.chats[k] == Chat.After(cfg, db.chats[k], db.nextId, call);
  }

  lemma EventLedIff(cfg: Config, db: Db, ev: Event)
    requires DbInv(cfg, db) && AllLed(db)
    ensures AllLed(Next(cfg, db, ev)) <==> !Abdication(db, ev)
  {
    match ev
    case CreateEvent(n) =>
      if Create(cfg, db, n).Ok? {
        CreationKeepsLed(cfg, db, n);
      }
    case CallEvent(k, call) =>
      if k < |db.chats| {
        CallLedIff(cfg, db, k, call);
      }
  }

  /** Every active group has an active admin all along a run if and only if no sole admin removes themselves in it. */
  lemma {:induction false} ActiveGroupsAreLed(cfg: Config, evs: seq<Event>)
    ensures AlwaysLed(cfg, evs) <==> Orderly(cfg, evs)
  {
    if evs != [] {
      var init := evs[..|evs| - 1];
      ActiveGroupsAreLed(cfg, init);
      if AlwaysLed(cfg, init) {
        RunKeepsInv(cfg, init);
        EventLedIff(cfg, Run(cfg, init), evs[|evs| - 1]);
      }
    }
  }

  // --------------------------------------------------------------- requests

  /** Between any two points of a run, a row of a conversation that has left PENDING never re-enters it. */
  lemma {:induction false} PendingOverRuns(cfg: Config, evs: seq<Event>, m: nat, k: nat)
    requires m <= |evs| && k < |Run(cfg, evs[..m]).chats|
    ensures k < |Run(cfg, evs).chats|
    ensures RowsAge(Run(cfg, evs[..m]).chats[k].rows, Run(cfg, evs).chats[k].rows)
    ensures LogGrows(Run(cfg, evs[..m]).chats[k].messages, Run(cfg, evs).chats[k].messages)
    decreases |evs|
  {
    if m == |evs| {
      assert evs[..m] == evs;
    } else {
      var init, ev := evs[..|evs| - 1], evs[|evs| - 1];
      assert init[..m] == evs[..m];
      PendingOverRuns(cfg, init, m, k);
      var db := Run(cfg, init);
      if ev.CallEvent? && ev.chat == k {
        PendingIsNeverReentered(cfg, db.chats[k], db.nextId, ev.call);
        MessagesAreNeverDropped(cfg, db.chats[k], db.nextId, ev.call);
      }
    }
  }

  // ----------------------------------------------------------- one DM per pair

  ghost predicate SamePair(c: Conversation, d: Conversation) {
    forall who :: Takes(c, who) <==> Takes(d, who)
  }

  /** There is one global scope, whatever scope id a global conversation was stored with. */
  predicate SameScope(c: Conversation, d: Conversation) {
    c.scope == d.scope && (c.scope == Global || c.scopeId == d.scopeId)
  }

  /** Two conversations are DMs of the same people in the same scope. */
  ghost predicate Duplicate(c: Conversation, d: Conversation) {
    c.kind == Direct && d.kind == Direct && SameScope(c, d) && SamePair(c, d)
  }

  ghost predicate OneDmEach(db: Db) {
    forall i, j :: 0 <= i < j < |db.chats| ==> !Duplicate(db.chats[i], db.chats[j])
  }

  /** DM rows that keep their people take the same people. */
  lemma DmPeopleStay(cfg: Config, c: Conversation, d: Conversation, nextId: Id, later: Id)
    requires MembersSound(cfg, c, nextId) && MembersSound(cfg, d, later) && c.kind == Direct && d.kind == Direct
    requires RowsAge(c.rows, d.rows)
    ensures SamePair(c, d)
  {
    assert c.rows[0] in c.rows && c.rows[1] in c.rows && d.rows[0] in d.rows && d.rows[1] in d.rows;
    forall who ensures Takes(d, who) <==> Takes(c, who) {
      assert Takes(c, who) <==> who == c.rows[0].who || who == c.rows[1].who;
      assert Takes(d, who) <==> who == d.rows[0].who || who == d.rows[1].who;
    }
  }

  /** A call keeps a DM's scope, kind, activity and the people in it. */
  lemma CallKeepsPair(cfg: Config, c: Conversation, nextId: Id, call: Call)
    requires Inv(cfg, c, nextId)
    ensures SameChat(c, Chat.After(cfg, c, nextId, call))
  {
    CallKeepsInv(cfg, c, nextId, call);
    CallKeepsKind(cfg, c, nextId, call);
    if c.kind == Direct {
      PendingIsNeverReentered(cfg, c, nextId, call);
      DmPeopleStay(cfg, c, Chat.After(cfg, c, nextId, call), nextId, nextId + 2);
    }
  }

  ghost predicate SameChat(c: Conversation, d: Conversation) {
    && d.kind == c.kind && d.scope == c.scope && d.scopeId == c.scopeId
    && (c.kind == Direct ==> SamePair(c, d))
  }

  lemma CallKeepsKind(cfg: Config, c: Conversation, nextId: Id, call: Call)
    ensures
      var d := Chat.After(cfg, c, nextId, call);
      d.kind == c.kind && d.scope == c.scope && d.scopeId == c.scopeId && d.creator == c.creator
  {
    if call.EditCall? || call.DeleteCall? || call.SeenCall? {
      OtherCallsShape(cfg, c, nextId, call);
    } else {
      CallShape(cfg, c, nextId, call);
    }
  }

  lemma DuplicateKept(c: Conversation, d: Conversation, c': Conversation, d': Conversation)
    requires SameChat(c, c') && SameChat(d, d')
    ensures Duplicate(c', d') <==> Duplicate(c, d)
  {
  }

  /** Conversations that stay the same chats keep their duplicates, and new ones take none away. */
  lemma DuplicatesStay(db: Db, d: Db)
    requires |db.chats| <= |d.chats|
    requires forall k :: 0 <= k < |db.chats| ==> SameChat(db.chats[k], d.chats[k])
    ensures OneDmEach(d) ==> OneDmEach(db)
    ensures |d.chats| == |db.chats| && OneDmEach(db) ==> OneDmEach(d)
  {
    forall i, j | 0 <= i < j < |db.chats|
      ensures Duplicate(d.chats[i], d.chats[j]) <==> Duplicate(db.chats[i], db.chats[j])
    {
      DuplicateKept(db.chats[i], db.chats[j], d.chats[i], d.chats[j]);
    }
  }

  /** A DM of two different people takes nobody else. */
  lemma DmTakesTwo(cfg: Config, c: Conversation, nextId: Id, a: Identity, b: Identity)
    requires Inv(cfg, c, nextId) && c.kind == Direct && a != b && Takes(c, a) && Takes(c, b)
    ensures forall who :: Takes(c, who) <==> who == a || who == b
  {
    assert forall r <- c.rows :: r == c.rows[0] || r == c.rows[1];
  }

  /**
   * A stored DM that a creation returns holds exactly the creator and the other person, if
   * these are two. A DM addressed to its creator gets whichever DM the lookup finds first.
   */
  lemma ReturnedPeopleIff(cfg: Config, db: Db, n: NewChat)
    requires DbInv(cfg, db) && Create(cfg, db, n).Ok? && Create(cfg, db, n).value.1 < |db.chats|
    ensures n.kind == Direct && |n.others| == 1
    ensures
      var c := db.chats[Create(cfg, db, n).value.1];
      && c.kind == Direct && Takes(c, n.creator) && Takes(c, n.others[0])
      && ((forall who :: Takes(c, who) <==> who == n.creator || who == n.others[0]) <==> n.creator != n.others[0])
  {
    var c := db.chats[Create(cfg, db, n).value.1];
    assert Inv(cfg, c, db.nextId);
    if n.creator != n.others[0] {
      DmTakesTwo(cfg, c, db.nextId, n.creator, n.others[0]);
    } else {
      assert c.rows[0] in c.rows && c.rows[1] in c.rows;
      assert Takes(c, c.rows[0].who) && Takes(c, c.rows[1].who);
    }
  }

  /** New or returned, a DM of two people holds exactly these. */
  lemma CreatedOrReturned(cfg: Config, db: Db, n: NewChat)
    requires DbInv(cfg, db)
    ensures Create(cfg, db, n).Ok? && n.kind == Direct ==> |n.others| == 1
    ensures Create(cfg, db, n).Ok? && n.kind == Direct && n.creator != n.others[0] ==>
      var (d, k) := Create(cfg, db, n).value;
      k < |d.chats| && forall who :: Takes(d.chats[k], who) <==> who == n.creator || who == n.others[0]
  {
    if Create(cfg, db, n).Ok? && n.kind == Direct {
      CreateAppends(cfg, db, n);
      if Create(cfg, db, n).value.1 < |db.chats| {
        ReturnedPeopleIff(cfg, db, n);
      } else {
        CreatedPeople(cfg, db, n);
      }
    }
  }

  /** The call inserts a new direct conversation. */
  predicate NewDm(cfg: Config, db: Db, n: NewChat) {
    n.kind == Direct && Create(cfg, db, n).Ok? && Create(cfg, db, n).value.1 == |db.chats|
  }

  /** A global DM of the same two people is stored with a scope id. */
  predicate Repeated(c: Conversation, n: NewChat) {
    && n.scope == Global && |n.others| == 1
    && c.kind == Direct && c.scope == Global && c.scopeId.Some? && Takes(c, n.creator) && Takes(c, n.others[0])
  }

  /** A global DM is created for two people who have one that was stored with a scope id. */
  predicate Repeats(db: Db, n: NewChat) {
    exists c <- db.chats :: Repeated(c, n)
  }

  /** Which conversations a new DM duplicates. */
  lemma NewDmDuplicates(cfg: Config, db: Db, n: NewChat, i: nat)
    requires DbInv(cfg, db) && NewDm(cfg, db, n) && i < |db.chats|
    ensures Duplicate(db.chats[i], Create(cfg, db, n).value.0.chats[|db.chats|]) <==> Repeated(db.chats[i], n)
  {
    var c, made := db.chats[i], Create(cfg, db, n).value.0.chats[|db.chats|];
    CreatedPeople(cfg, db, n);
    assert Inv(cfg, c, db.nextId);
    assert Takes(made, n.creator) && Takes(made, n.others[0]);
    assert !IsDm(c, n.scope, n.scopeId, n.creator, n.others[0]);
    if c.kind == Direct && Takes(c, n.creator) && Takes(c, n.others[0]) {
      DmTakesTwo(cfg, c, db.nextId, n.creator, n.others[0]);
    }
  }

  lemma OneMoreChat(db: Db, d: Db, made: Conversation)
    requires OneDmEach(db) && d.chats == db.chats + [made]
    ensures OneDmEach(d) <==> forall i :: 0 <= i < |db.chats| ==> !Duplicate(db.chats[i], made)
  {
    if OneDmEach(d) {
      forall i | 0 <= i < |db.chats| ensures !Duplicate(db.chats[i], made) {
        assert !Duplicate(d.chats[i], d.chats[|db.chats|]);
      }
    }
  }

  /** A new DM gives its pair a second one exactly if it is global and repeats one stored with a scope id. */
  lemma SecondDmIffRepeats(cfg: Config, db: Db, n: NewChat)
    requires DbInv(cfg, db) && OneDmEach(db) && NewDm(cfg, db, n)
    ensures OneDmEach(Create(cfg, db, n).value.0) <==> !Repeats(db, n)
  {
    var d := Create(cfg, db, n).value.0;
    var made := d.chats[|db.chats|];
    forall i | 0 <= i < |db.chats| ensures Duplicate(db.chats[i], made) <==> Repeated(db.chats[i], n) {
      NewDmDuplicates(cfg, db, n, i);
    }
    OneMoreChat(db, d, made);
    assert Repeats(db, n) <==> exists i :: 0 <= i < |db.chats| && Repeated(db.chats[i], n);
  }

  predicate RepeatingEvent(cfg: Config, db: Db, ev: Event) {
    ev.CreateEvent? && NewDm(cfg, db, ev.n) && Repeats(db, ev.n)
  }

  lemma EventKeepsOneDmIff(cfg: Config, db: Db, ev: Event)
    requires DbInv(cfg, db)
    ensures OneDmEach(Next(cfg, db, ev)) <==> OneDmEach(db) && !RepeatingEvent(cfg, db, ev)
  {
    var d := Next(cfg, db, ev);
    if ev.CallEvent? && ev.chat < |db.chats| {
      CallKeepsPair(cfg, db.chats[ev.chat], db.nextId, ev.call);
    }
    DuplicatesStay(db, d);
    if ev.CreateEvent? && Create(cfg, db, ev.n).Ok? && Create(cfg, db, ev.n).value.1 == |db.chats| {
      if ev.n.kind == Direct && OneDmEach(db) {
        SecondDmIffRepeats(cfg, db, ev.n);
      }
    }
  }

  /** No DM creation of the run repeats a global DM stored with a scope id, in the state it is given. */
  predicate NothingRepeats(cfg: Config, evs: seq<Event>) {
    evs == []
    || (NothingRepeats(cfg, evs[..|evs| - 1]) && !RepeatingEvent(cfg, Run(cfg, evs[..|evs| - 1]), evs[|evs| - 1]))
  }

  /** There is at most one DM per scope and pair of people if and only if no creation repeats one. */
  lemma {:induction false} OneDmPerPair(cfg: Config, evs: seq<Event>)
    ensures OneDmEach(Run(cfg, evs)) <==> NothingRepeats(cfg, evs)
  {
    if evs != [] {
      var init := evs[..|evs| - 1];
      OneDmPerPair(cfg, init);
      RunKeepsInv(cfg, init);
      EventKeepsOneDmIff(cfg, Run(cfg, init), evs[|evs| - 1]);
    }
  }

  /** Global conversations are created without a scope id. */
  predicate Unscoped(evs: seq<Event>) {
    forall e <- evs :: e.CreateEvent? && e.n.scope == Global ==> e.n.scopeId == None
  }

  /** Then every stored global conversation is without one. */
  lemma {:induction false} UnscopedStores(cfg: Config, evs: seq<Event>)
    requires Unscoped(evs)
    ensures forall c <- Run(cfg, evs).chats :: c.scope == Global ==> c.scopeId == None
  {
    if evs != [] {
      var init, ev := evs[..|evs| - 1], evs[|evs| - 1];
      assert forall e <- init :: e in evs;
      assert ev in evs;
      UnscopedStores(cfg, init);
      if ev.CallEvent? && ev.chat < |Run(cfg, init).chats| {
        CallKeepsKind(cfg, Run(cfg, init).chats[ev.chat], Run(cfg, init).nextId, ev.call);
      }
    }
  }

  /** So callers that give global conversations no scope id never get a second DM. */
  lemma {:induction false} UnscopedNeverRepeats(cfg: Config, evs: seq<Event>)
    requires Unscoped(evs)
    ensures NothingRepeats(cfg, evs) && OneDmEach(Run(cfg, evs))
  {
    if evs != [] {
      var init := evs[..|evs| - 1];
      assert forall e <- init :: e in evs;
      UnscopedNeverRepeats(cfg, init);
      UnscopedStores(cfg, init);
    }
    OneDmPerPair(cfg, evs);
  }

  /** The lookup sees no global DM that was stored with a scope id. */
  lemma ScopedDmIsMissed(cfg: Config, db: Db, n: NewChat)
    requires n.refusal.None? && !n.blocks && !n.blocked && n.kind == Direct && |n.others| == 1
             && n.others[0] != n.creator
    requires n.scope == Global && forall c <- db.chats :: c.scopeId != None
    ensures
      var r := Create(cfg, db, n);
      && r.Ok? && |r.value.0.chats| == |db.chats| + 1 && r.value.0.chats[..|db.chats|] == db.chats
      && var c := r.value.0.chats[|db.chats|];
         c.kind == Direct && c.scope == Global && c.scopeId == n.scopeId
         && forall who :: Takes(c, who) <==> who == n.creator || who == n.others[0]
  {
    assert forall k :: 0 <= k < |db.chats| ==> db.chats[k] in db.chats;
    assert FindDm(db.chats, n.scope, n.scopeId, n.creator, n.others[0]).None?;
    FirstRowsAre(n, db.nextId);
    var c := Create(cfg, db, n).value.0.chats[|db.chats|];
    assert c.rows[0] in c.rows && c.rows[1] in c.rows;
  }

  /** A global DM with that scope id, if any. */
  function GlobalDm(a: Identity, b: Identity, scopeId: Option<Id>, now: int): NewChat {
    NewChat(Global, scopeId, Direct, a, [b], "", None, false, false, None, true, now)
  }

  lemma RunOfOne(cfg: Config, n: NewChat)
    requires Create(cfg, EMPTY, n).Ok?
    ensures Run(cfg, [CreateEvent(n)]) == Create(cfg, EMPTY, n).value.0
  {
    assert [CreateEvent(n)][..0] == [] && Run(cfg, [CreateEvent(n)][..0]) == EMPTY;
  }

  lemma RunOfTwo(cfg: Config, n: NewChat, m: NewChat)
    requires Create(cfg, EMPTY, n).Ok? && Create(cfg, Create(cfg, EMPTY, n).value.0, m).Ok?
    ensures Run(cfg, [CreateEvent(n), CreateEvent(m)]) == Create(cfg, Create(cfg, EMPTY, n).value.0, m).value.0
  {
    RunOfOne(cfg, n);
    assert [CreateEvent(n), CreateEvent(m)][..1] == [CreateEvent(n)];
  }

  lemma MissedDmIsDuplicated(cfg: Config, a: Identity, b: Identity, first: Id, second: Option<Id>, now: int)
    requires a != b
    ensures
      var n, m := GlobalDm(a, b, Some(first), now), GlobalDm(a, b, second, now);
      && Create(cfg, EMPTY, n).Ok?
      && var r := Create(cfg, Create(cfg, EMPTY, n).value.0, m);
         r.Ok? && !OneDmEach(r.value.0)
  {
    var n, m := GlobalDm(a, b, Some(first), now), GlobalDm(a, b, second, now);
    ScopedDmIsMissed(cfg, EMPTY, n);
    var d1 := Create(cfg, EMPTY, n).value.0;
    ScopedDmIsMissed(cfg, d1, m);
    var d2 := Create(cfg, d1, m).value.0;
    assert d2.chats[0] == d2.chats[..1][0];
    assert Duplicate(d2.chats[0], d2.chats[1]);
  }

  /**
   * With a scope id on their first global DM a pair gets a second one from the next
   * creation, whether that gives the same scope id, another one, or none.
   */
  lemma ScopedGlobalDmIsDuplicated(cfg: Config, a: Identity, b: Identity, first: Id, second: Option<Id>, now: int)
    requires a != b
    ensures
      var evs := [CreateEvent(GlobalDm(a, b, Some(first), now)), CreateEvent(GlobalDm(a, b, second, now))];
      !OneDmEach(Run(cfg, evs)) && !NothingRepeats(cfg, evs)
  {
    var n, m := GlobalDm(a, b, Some(first), now), GlobalDm(a, b, second, now);
    MissedDmIsDuplicated(cfg, a, b, first, second, now);
    RunOfTwo(cfg, n, m);
    OneDmPerPair(cfg, [CreateEvent(n), CreateEvent(m)]);
  }
}
