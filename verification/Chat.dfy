// One conversation: its participant rows, its messages and the cached last message,
// and every service call on it as a function to the next state or an error.

module Chat {
  import opened Wrappers

  type Id = nat

  datatype ParticipantType = User | Business | Platform
  datatype Identity = Identity(kind: ParticipantType, id: Id)

  datatype Scope = Global | BusinessScope | PlatformScope
  datatype ConversationType = Direct | Group
  datatype Role = Member | Admin
  datatype Request = NoRequest | Pending | Accepted | Ignored

  datatype Row = Row(pk: Id, who: Identity, role: Role, request: Request, active: bool, created: int, seen: Option<Id>)

  datatype Status = Active | Edited | Deleted

  datatype Message = Message(
    id: Id, sender: Identity, acting: Option<Id>, content: string, original: string,
    number: nat, status: Status, at: int)

  /** The denormalised last-message fields. */
  datatype Last = Last(id: Id, at: int, preview: string, sender: Identity)

  datatype Conversation = Conversation(
    scope: Scope, scopeId: Option<Id>, kind: ConversationType, creator: Identity, active: bool,
    rows: seq<Row>, messages: seq<Message>, last: Option<Last>)

  /** Configuration values, emptiness after `strip`, and the printed form of an identity. */
  datatype Config = Config(
    maxLength: nat, preview: nat, editWindow: int, maxRequestMessages: nat, maxParticipants: nat,
    blank: string -> bool, printed: Identity -> string)

  datatype Error = NotFound | Denied | Invalid | Rule | Conflict | Integrity

  type Step = Result<Conversation, Error>

  // ---------------------------------------------------------------- queries

  /** The first row a filter accepts. */
  function FindRow(rows: seq<Row>, p: Row -> bool): (r: Option<nat>)
    ensures r.Some? ==> r.value < |rows| && p(rows[r.value]) && forall j :: 0 <= j < r.value ==> !p(rows[j])
    ensures r.None? ==> forall j :: 0 <= j < |rows| ==> !p(rows[j])
  {
    if rows == [] then None
    else if p(rows[0]) then Some(0)
    else
      var rest := FindRow(rows[1..], p);
      assert forall j :: 1 <= j < |rows| ==> rows[j] == rows[1..][j - 1];
      if rest.None? then None else Some(rest.value + 1)
  }

  function CountRows(rows: seq<Row>, p: Row -> bool): (n: nat)
    ensures n <= |rows|
  {
    if rows == [] then 0
    else CountRows(rows[..|rows| - 1], p) + if p(rows[|rows| - 1]) then 1 else 0
  }

  function IsActive(): Row -> bool {
    (r: Row) => r.active
  }

  function IsActiveAdmin(): Row -> bool {
    (r: Row) => r.active && r.role == Admin
  }

  function ActiveAs(who: Identity): Row -> bool {
    (r: Row) => r.active && r.who == who
  }

  function ActiveCount(rows: seq<Row>): nat {
    CountRows(rows, IsActive())
  }

  function AdminCount(rows: seq<Row>): nat {
    CountRows(rows, IsActiveAdmin())
  }

  /** `can_manage_group`: the acting user is an active admin of this group. */
  predicate CanManage(c: Conversation, user: Id) {
    c.kind == Group
    && exists r <- c.rows :: r.active && r.role == Admin && r.who == Identity(User, user)
  }

  /** The active row created first, among the first `n`. */
  function Oldest(rows: seq<Row>, n: nat): (r: Option<nat>)
    requires n <= |rows|
    ensures r.Some? ==> r.value < n && rows[r.value].active
    ensures r.Some? ==> forall j :: 0 <= j < n && rows[j].active ==> rows[r.value].created <= rows[j].created
    ensures r.None? ==> forall j :: 0 <= j < n ==> !rows[j].active
  {
    if n == 0 then None
    else
      var before := Oldest(rows, n - 1);
      if rows[n - 1].active && (before.None? || rows[n - 1].created < rows[before.value].created) then Some(n - 1)
      else before
  }

  /** `filter(participant_id=...)` ignores the type; the default order is newest first. */
  function NewestWithId(rows: seq<Row>, id: Id, n: nat): (r: Option<nat>)
    requires n <= |rows|
    ensures r.Some? ==> r.value < n && rows[r.value].active && rows[r.value].who.id == id
    ensures r.Some? ==> forall j :: 0 <= j < n && rows[j].active && rows[j].who.id == id ==>
      rows[j].created < rows[r.value].created || (rows[j].created == rows[r.value].created && j <= r.value)
    ensures r.None? ==> forall j :: 0 <= j < n ==> !(rows[j].active && rows[j].who.id == id)
  {
    if n == 0 then None
    else
      var before := NewestWithId(rows, id, n - 1);
      if rows[n - 1].active && rows[n - 1].who.id == id
         && (before.None? || rows[n - 1].created >= rows[before.value].created) then Some(n - 1)
      else before
  }

  function MaxNumber(messages: seq<Message>): nat {
    if messages == [] then 0
    else
      var rest := MaxNumber(messages[..|messages| - 1]);
      var n := messages[|messages| - 1].number;
      if n > rest then n else rest
  }

  function SentBy(messages: seq<Message>, who: Identity): (n: nat)
    ensures n <= |messages|
  {
    if messages == [] then 0
    else SentBy(messages[..|messages| - 1], who) + if messages[|messages| - 1].sender == who then 1 else 0
  }

  function FindMessage(messages: seq<Message>, id: Id): (r: Option<nat>)
    ensures r.Some? ==> r.value < |messages| && messages[r.value].id == id
    ensures r.None? ==> forall j :: 0 <= j < |messages| ==> messages[j].id != id
  {
    if messages == [] then None
    else if messages[|messages| - 1].id == id then Some(|messages| - 1)
    else FindMessage(messages[..|messages| - 1], id)
  }

  // --------------------------------------------------------------- messages

  function Cut(s: string, n: nat): string {
    if |s| <= n then s else s[..n]
  }

  function LastOf(cfg: Config, m: Message): Last {
    Last(m.id, m.at, Cut(m.content, cfg.preview), m.sender)
  }

  /** Insert with number max+1 and refresh the cache. */
  function Post(cfg: Config, c: Conversation, id: Id, sender: Identity, acting: Option<Id>, content: string, now: int)
    : Conversation
  {
    var m := Message(id, sender, acting, content, "", MaxNumber(c.messages) + 1, Active, now);
    c.(messages := c.messages + [m], last := Some(LastOf(cfg, m)))
  }

  /** System messages are sent as the user with the creator's id, whatever the creator's type. */
  function PostSystem(cfg: Config, c: Conversation, id: Id, content: string, now: int): Conversation {
    Post(cfg, c, id, Identity(User, c.creator.id), None, content, now)
  }

  datatype Attachments = NoAttachments | Linkable | Unlinkable

  /** A pending recipient other than the sender caps what the sender may have sent. */
  predicate OverLimit(cfg: Config, c: Conversation, sender: Identity) {
    && c.kind == Direct
    && (exists r <- c.rows :: r.active && r.request == Pending && r.who != sender)
    && SentBy(c.messages, sender) >= cfg.maxRequestMessages
  }

  function Send(cfg: Config, c: Conversation, id: Id, sender: Identity, user: Id, content: string,
                attachments: Attachments, now: int): Step
  {
    if cfg.blank(content) && attachments == NoAttachments then Fail(Invalid)
    else if |content| > cfg.maxLength then Fail(Invalid)
    else if !c.active then Fail(NotFound)
    else if FindRow(c.rows, ActiveAs(sender)).None? then Fail(Denied)
    else if OverLimit(cfg, c, sender) then Fail(Rule)
    else if attachments == Unlinkable then Fail(Invalid)
    else Ok(Post(cfg, c, id, sender, if sender.kind == User then None else Some(user), content, now))
  }

  predicate WrittenBy(m: Message, user: Id) {
    m.sender == Identity(User, user) || m.acting == Some(user)
  }

  function Recache(c: Conversation, id: Id, preview: string): Option<Last> {
    if c.last.Some? && c.last.value.id == id then Some(c.last.value.(preview := preview)) else c.last
  }

  function Edit(cfg: Config, c: Conversation, id: Id, content: string, user: Id, now: int): Step {
    var k := FindMessage(c.messages, id);
    if k.None? then Fail(NotFound)
    else
      var m := c.messages[k.value];
      if !WrittenBy(m, user) then Fail(Denied)
      else if m.status == Deleted then Fail(Rule)
      else if now - m.at > 60 * cfg.editWindow then Fail(Rule)
      else if cfg.blank(content) || |content| > cfg.maxLength then Fail(Invalid)
      else
        var edited :=
          m.(content := content, status := Edited, original := if m.original == "" then m.content else m.original);
        Ok(c.(messages := c.messages[k.value := edited], last := Recache(c, id, Cut(content, cfg.preview))))
  }

  function Delete(c: Conversation, id: Id, user: Id, staff: bool): Step {
    var k := FindMessage(c.messages, id);
    if k.None? then Fail(NotFound)
    else
      var m := c.messages[k.value];
      if !WrittenBy(m, user) && !CanManage(c, user) && !staff then Fail(Denied)
      else if m.status == Deleted then Ok(c)
      else
        var gone := m.(content := "", original := m.content, status := Deleted);
        Ok(c.(messages := c.messages[k.value := gone], last := Recache(c, id, "")))
  }

  function MarkSeen(c: Conversation, who: Identity, message: Id): Step {
    var k := FindRow(c.rows, ActiveAs(who));
    if k.None? then Fail(NotFound)
    else Ok(c.(rows := c.rows[k.value := c.rows[k.value].(seen := Some(message))]))
  }

  // --------------------------------------------------------------- requests

  function Answer(c: Conversation, user: Id, answer: Request): Step {
    var k := FindRow(c.rows, (r: Row) => r.active && r.who == Identity(User, user) && r.request == Pending);
    if k.None? then Fail(NotFound)
    else Ok(c.(rows := c.rows[k.value := c.rows[k.value].(request := answer)]))
  }

  /** The expiry task, on the rows of one conversation. */
  function Expire(c: Conversation, cutoff: int): Conversation {
    c.(rows := Expired(c.rows, cutoff))
  }

  function Expired(rows: seq<Row>, cutoff: int): (r: seq<Row>)
    ensures |r| == |rows|
  {
    seq(|rows|, i requires 0 <= i < |rows| =>
      if rows[i].request == Pending && rows[i].created < cutoff then rows[i].(request := NoRequest) else rows[i])
  }

  // ------------------------------------------------------------- membership

  function Add(cfg: Config, c: Conversation, pk: Id, id: Id, who: Identity, actor: Id, now: int): Step {
    if !c.active then Fail(NotFound)
    else if c.kind != Group then Fail(Rule)
    else if !CanManage(c, actor) then Fail(Denied)
    else if ActiveCount(c.rows) >= cfg.maxParticipants then Fail(Rule)
    else if FindRow(c.rows, ActiveAs(who)).Some? then Fail(Conflict)
    else
      var inactive := FindRow(c.rows, (r: Row) => !r.active && r.who == who);
      var rows :=
        if inactive.Some? then c.rows[inactive.value := c.rows[inactive.value].(active := true, role := Member)]
        else c.rows + [Row(pk, who, Member, NoRequest, true, now, None)];
      Ok(PostSystem(cfg, c.(rows := rows), id, cfg.printed(who) + " was added to the group", now))
  }

  function Remove(cfg: Config, c: Conversation, id: Id, pk: Id, actor: Id, now: int): Step {
    if !c.active then Fail(NotFound)
    else if c.kind != Group then Fail(Rule)
    else if !CanManage(c, actor) then Fail(Denied)
    else
      var k := FindRow(c.rows, (r: Row) => r.active && r.pk == pk);
      if k.None? then Fail(NotFound)
      else
        var row := c.rows[k.value];
        Ok(PostSystem(cfg, c.(rows := c.rows[k.value := row.(active := false)]), id,
                      cfg.printed(row.who) + " was removed from the group", now))
  }

  /** Who is left after a row goes inactive: nobody, an admin, or members one of whom succeeds. */
  function Succeed(cfg: Config, c: Conversation, id: Id, now: int): Conversation {
    var heir := Oldest(c.rows, |c.rows|);
    if heir.None? then c.(active := false)
    else if FindRow(c.rows, IsActiveAdmin()).Some? then c
    else
      var row := c.rows[heir.value];
      PostSystem(cfg, c.(rows := c.rows[heir.value := row.(role := Admin)]), id,
                 cfg.printed(row.who) + " was promoted to admin", now)
  }

  function Leave(cfg: Config, c: Conversation, id: Id, user: Id, now: int): Step {
    if !c.active then Fail(NotFound)
    else if c.kind != Group then Fail(Rule)
    else
      var k := FindRow(c.rows, ActiveAs(Identity(User, user)));
      if k.None? then Fail(NotFound)
      else
        var left := c.(rows := c.rows[k.value := c.rows[k.value].(active := false)]);
        Ok(PostSystem(cfg, Succeed(cfg, left, id, now), id + 1,
                      cfg.printed(Identity(User, user)) + " left the group", now))
  }

  function Promote(cfg: Config, c: Conversation, id: Id, target: Id, actor: Id, now: int): Step {
    if !c.active then Fail(NotFound)
    else if !CanManage(c, actor) then Fail(Denied)
    else
      var k := NewestWithId(c.rows, target, |c.rows|);
      if k.None? then Fail(NotFound)
      else
        var row := c.rows[k.value];
        if row.role == Admin then Ok(c)
        else Ok(PostSystem(cfg, c.(rows := c.rows[k.value := row.(role := Admin)]), id,
                           cfg.printed(row.who) + " was promoted to admin", now))
  }

  function Demote(cfg: Config, c: Conversation, id: Id, target: Id, actor: Id, now: int): Step {
    if !c.active then Fail(NotFound)
    else if !CanManage(c, actor) then Fail(Denied)
    else
      var k := NewestWithId(c.rows, target, |c.rows|);
      if k.None? then Fail(NotFound)
      else
        var row := c.rows[k.value];
        if row.role == Member then Ok(c)
        else if AdminCount(c.rows) <= 1 then Fail(Rule)
        else Ok(PostSystem(cfg, c.(rows := c.rows[k.value := row.(role := Member)]), id,
                           cfg.printed(row.who) + " was demoted from admin", now))
  }

  // ------------------------------------------------------------------ calls

  datatype Call =
    | SendCall(sender: Identity, user: Id, content: string, attachments: Attachments, now: int)
    | EditCall(message: Id, content: string, user: Id, now: int)
    | DeleteCall(message: Id, user: Id, staff: bool)
    | SeenCall(who: Identity, message: Id)
    | AcceptCall(user: Id)
    | IgnoreCall(user: Id)
    | ExpireCall(cutoff: int)
    | AddCall(who: Identity, actor: Id, now: int)
    | RemoveCall(pk: Id, actor: Id, now: int)
    | LeaveCall(user: Id, now: int)
    | PromoteCall(target: Id, actor: Id, now: int)
    | DemoteCall(target: Id, actor: Id, now: int)

  /** A call on a conversation; `nextId` and `nextId + 1` are unused primary keys. */
  function Attempt(cfg: Config, c: Conversation, nextId: Id, call: Call): Step {
    match call
    case SendCall(sender, user, content, attachments, now) =>
      Send(cfg, c, nextId, sender, user, content, attachments, now)
    case EditCall(message, content, user, now) => Edit(cfg, c, message, content, user, now)
    case DeleteCall(message, user, staff) => Delete(c, message, user, staff)
    case SeenCall(who, message) => MarkSeen(c, who, message)
    case AcceptCall(user) => Answer(c, user, Accepted)
    case IgnoreCall(user) => Answer(c, user, Ignored)
    case ExpireCall(cutoff) => Ok(Expire(c, cutoff))
    case AddCall(who, actor, now) => Add(cfg, c, nextId, nextId, who, actor, now)
    case RemoveCall(pk, actor, now) => Remove(cfg, c, nextId, pk, actor, now)
    case LeaveCall(user, now) => Leave(cfg, c, nextId, user, now)
    case PromoteCall(target, actor, now) => Promote(cfg, c, nextId, target, actor, now)
    case DemoteCall(target, actor, now) => Demote(cfg, c, nextId, target, actor, now)
  }

  function After(cfg: Config, c: Conversation, nextId: Id, call: Call): Conversation {
    var r := Attempt(cfg, c, nextId, call);
    if r.Ok? then r.value else c
  }
}
