// Cursor pagination of a conversation's messages (ChatSelector.get_messages).

module Paging {
  import opened Wrappers
  import opened Chat
  import opened ChatInvariants
  import opened ChatTheorems

  datatype Direction = Older | Newer

  function NumbersBelow(messages: seq<Message>, cursor: int): seq<Message> {
    if messages == [] then []
    else (if messages[0].number < cursor then [messages[0]] else []) + NumbersBelow(messages[1..], cursor)
  }

  function NumbersAbove(messages: seq<Message>, cursor: int): seq<Message> {
    if messages == [] then []
    else (if messages[0].number > cursor then [messages[0]] else []) + NumbersAbove(messages[1..], cursor)
  }

  /** Descending order of rows stored in ascending order. */
  function Reverse(messages: seq<Message>): (r: seq<Message>)
    ensures |r| == |messages|
    ensures forall i :: 0 <= i < |r| ==> r[i] == messages[|messages| - 1 - i]
  {
    if messages == [] then [] else [messages[|messages| - 1]] + Reverse(messages[..|messages| - 1])
  }

  function Slice(messages: seq<Message>, size: nat): seq<Message> {
    if |messages| <= size then messages else messages[..size]
  }

  /** Without a cursor the newest messages come first whatever the direction. */
  function GetMessages(messages: seq<Message>, cursor: Option<int>, size: nat, direction: Direction): seq<Message> {
    if cursor.None? then Slice(Reverse(messages), size)
    else if direction == Older then Slice(Reverse(NumbersBelow(messages, cursor.value)), size)
    else Slice(NumbersAbove(messages, cursor.value), size)
  }

  lemma {:induction false} BelowIsPrefix(messages: seq<Message>, base: nat, cursor: int)
    requires forall i :: 0 <= i < |messages| ==> messages[i].number == base + i + 1
    ensures NumbersBelow(messages, cursor)
            == messages[..if cursor <= base then 0
                          else if cursor - 1 - base > |messages| then |messages|
                          else cursor - 1 - base]
  {
    if messages != [] {
      BelowIsPrefix(messages[1..], base + 1, cursor);
      if cursor > base + 1 {
        assert messages[0].number < cursor;
      }
    }
  }

  lemma {:induction false} AboveIsSuffix(messages: seq<Message>, base: nat, cursor: int)
    requires forall i :: 0 <= i < |messages| ==> messages[i].number == base + i + 1
    ensures NumbersAbove(messages, cursor)
            == messages[if cursor <= base then 0
                        else if cursor - base > |messages| then |messages|
                        else cursor - base..]
  {
    if messages != [] {
      AboveIsSuffix(messages[1..], base + 1, cursor);
      if cursor <= base {
        assert messages == [messages[0]] + messages[1..];
      }
    }
  }

  /** The first `n` messages of a log, newest first. */
  function NewestFirst(messages: seq<Message>, n: nat): (r: seq<Message>)
    requires n <= |messages|
    ensures |r| == n
    ensures forall i :: 0 <= i < n ==> r[i] == messages[n - 1 - i]
  {
    Reverse(messages[..n])
  }

  /** How many of the numbers 1..n lie below a cursor, and up to it. */
  function CountBelow(n: nat, cursor: int): (r: nat)
    ensures r <= n
  {
    if cursor <= 1 then 0 else if cursor - 1 > n then n else cursor - 1
  }

  function CountUpTo(n: nat, cursor: int): (r: nat)
    ensures r <= n
  {
    if cursor <= 0 then 0 else if cursor > n then n else cursor
  }

  /** The page below any cursor: the next lower numbers, newest first, up to the page size. */
  lemma OlderPage(messages: seq<Message>, cursor: int, size: nat)
    requires Numbered(messages)
    ensures
      var page, n := GetMessages(messages, Some(cursor), size, Older), CountBelow(|messages|, cursor);
      && |page| == (if n <= size then n else size)
      && page == NewestFirst(messages, n)[..|page|]
  {
    BelowIsPrefix(messages, 0, cursor);
  }

  /** A conversation's messages over time. */
  ghost predicate Growing(log: nat -> seq<Message>) {
    && (forall u: nat :: Numbered(log(u)))
    && (forall u: nat, v: nat :: v == u + 1 ==> LogGrows(log(u), log(v)))
  }

  /**
   * A client paging backwards: request t is answered from the log as it stands at that
   * time, and the next cursor is the number of the last message received. It stops at
   * the first empty page.
   */
  ghost function WalkOlder(log: nat -> seq<Message>, t: nat, cursor: nat, size: nat): seq<Message>
    requires size >= 1
    requires Growing(log)
    requires 1 <= cursor <= |log(t)| + 1
    decreases cursor
  {
    var page := GetMessages(log(t), Some(cursor), size, Older);
    OlderPage(log(t), cursor, size);
    assert LogGrows(log(t), log(t + 1));
    if page == [] then []
    else page + WalkOlder(log, t + 1, page[|page| - 1].number, size)
  }

  /** The whole walk, starting without a cursor. */
  ghost function WalkAll(log: nat -> seq<Message>, t: nat, size: nat): seq<Message>
    requires size >= 1
    requires Growing(log)
  {
    var page := GetMessages(log(t), None, size, Older);
    if page == [] then []
    else
      assert LogGrows(log(t), log(t + 1));
      page + WalkOlder(log, t + 1, page[|page| - 1].number, size)
  }

  /** Same stored message: key, sender, number and time; content may have been edited since. */
  ghost predicate SameMessage(m: Message, n: Message) {
    m.id == n.id && m.sender == n.sender && m.number == n.number && m.at == n.at
  }

  lemma {:induction false} LogGrowsOver(log: nat -> seq<Message>, t: nat, u: nat)
    requires Growing(log) && t <= u
    ensures LogGrows(log(t), log(u))
    decreases u - t
  {
    if t < u {
      LogGrowsOver(log, t, u - 1);
      assert LogGrows(log(u - 1), log(u));
    }
  }

  /** A page served later holds the same messages as the log of the first request. */
  lemma PageIsFromFirstLog(first: seq<Message>, later: seq<Message>, cursor: nat, size: nat)
    requires Numbered(later) && LogGrows(first, later) && 1 <= cursor <= |first| + 1
    ensures
      var page := GetMessages(later, Some(cursor), size, Older);
      && |page| == (if cursor - 1 <= size then cursor - 1 else size)
      && forall i :: 0 <= i < |page| ==> SameMessage(page[i], first[cursor - 2 - i]) && page[i].number == cursor - 1 - i
  {
    OlderPage(later, cursor, size);
  }

  /** The newest `n` of the first messages, counted down. */
  ghost predicate CountsDown(walk: seq<Message>, first: seq<Message>, n: nat) {
    |walk| == n <= |first| && forall i :: 0 <= i < n ==> SameMessage(walk[i], first[n - 1 - i])
  }

  lemma {:induction false} WalkOlderIsExact(log: nat -> seq<Message>, t0: nat, t: nat, cursor: nat, size: nat)
    requires size >= 1 && t0 <= t && Growing(log)
    requires 1 <= cursor <= |log(t0)| + 1 && cursor <= |log(t)| + 1
    ensures CountsDown(WalkOlder(log, t, cursor, size), log(t0), cursor - 1)
    decreases cursor
  {
    LogGrowsOver(log, t0, t);
    PageIsFromFirstLog(log(t0), log(t), cursor, size);
    var page := GetMessages(log(t), Some(cursor), size, Older);
    if page != [] {
      var next := page[|page| - 1].number;
      WalkOlderUnfolds(log, t, cursor, size);
      WalkOlderIsExact(log, t0, t + 1, next, size);
      PagesJoin(page, WalkOlder(log, t + 1, next, size), log(t0), cursor);
    }
  }

  lemma WalkOlderUnfolds(log: nat -> seq<Message>, t: nat, cursor: nat, size: nat)
    requires size >= 1 && Growing(log) && 1 <= cursor <= |log(t)| + 1
    requires GetMessages(log(t), Some(cursor), size, Older) != []
    ensures
      var page := GetMessages(log(t), Some(cursor), size, Older);
      var next := page[|page| - 1].number;
      && 1 <= next < cursor && next <= |log(t + 1)| + 1
      && WalkOlder(log, t, cursor, size) == page + WalkOlder(log, t + 1, next, size)
  {
    OlderPage(log(t), cursor, size);
    assert LogGrows(log(t), log(t + 1));
  }

  lemma PagesJoin(page: seq<Message>, rest: seq<Message>, first: seq<Message>, cursor: nat)
    requires |page| < cursor <= |first| + 1 && CountsDown(rest, first, cursor - 1 - |page|)
    requires forall i :: 0 <= i < |page| ==> SameMessage(page[i], first[cursor - 2 - i])
    ensures CountsDown(page + rest, first, cursor - 1)
  {
    forall i | |page| <= i < cursor - 1 ensures SameMessage((page + rest)[i], first[cursor - 2 - i]) {
      assert (page + rest)[i] == rest[i - |page|];
    }
  }

  /**
   * Following the cursor returns every message present at the first request exactly
   * once, newest first, although messages are sent, edited and deleted between pages.
   */
  lemma WalkReturnsEveryMessageOnce(log: nat -> seq<Message>, t: nat, size: nat)
    requires size >= 1
    requires Growing(log)
    ensures
      var walk := WalkAll(log, t, size);
      && |walk| == |log(t)|
      && forall i ::
        0 <= i < |walk| ==> walk[i].number == |log(t)| - i && SameMessage(walk[i], log(t)[|log(t)| - 1 - i])
  {
    NoCursorIsTop(log(t), size);
    assert WalkAll(log, t, size) == WalkOlder(log, t, |log(t)| + 1, size);
    WalkOlderIsExact(log, t, t, |log(t)| + 1, size);
  }

  lemma NoCursorIsTop(messages: seq<Message>, size: nat)
    requires Numbered(messages)
    ensures GetMessages(messages, None, size, Older) == GetMessages(messages, Some(|messages| + 1), size, Older)
  {
    BelowIsPrefix(messages, 0, |messages| + 1);
    assert messages[..|messages|] == messages;
  }

  /** The page above any cursor: exactly the next messages in ascending order. */
  lemma NewerPage(messages: seq<Message>, cursor: int, size: nat)
    requires Numbered(messages)
    ensures
      var page, n := GetMessages(messages, Some(cursor), size, Newer), CountUpTo(|messages|, cursor);
      && |page| == (if |messages| - n <= size then |messages| - n else size)
      && page == messages[n..n + |page|]
  {
    AboveIsSuffix(messages, 0, cursor);
  }
}

// The logs that runs of the chat serve to a paging client.

module PagingOverRuns {
  import opened Wrappers
  import opened Chat
  import opened ChatInvariants
  import opened ChatTheorems
  import opened Messenger
  import opened Paging

  /** The log of conversation `k`; empty before it exists. */
  function LogOf(db: Db, k: nat): seq<Message> {
    if k < |db.chats| then db.chats[k].messages else []
  }

  /** The calls made before time `n`; the run ends after its last call. */
  function Before(evs: seq<Event>, n: nat): seq<Event> {
    if n < |evs| then evs[..n] else evs
  }

  lemma LogGrowsInRun(cfg: Config, evs: seq<Event>, m: nat, n: nat, k: nat)
    requires m <= n
    ensures LogGrows(LogOf(Run(cfg, Before(evs, m)), k), LogOf(Run(cfg, Before(evs, n)), k))
  {
    if m < |evs| && k < |Run(cfg, evs[..m]).chats| {
      assert Before(evs, n)[..m] == evs[..m];
      PendingOverRuns(cfg, Before(evs, n), m, k);
    }
  }

  /**
   * Every run of the chat serves such a log, however its calls fall between the requests:
   * request `t` is answered at time `when(t)`.
   */
  lemma RunsServeGrowingLogs(cfg: Config, evs: seq<Event>, when: nat -> nat, k: nat)
    requires forall t: nat, u: nat :: t <= u ==> when(t) <= when(u)
    ensures Growing((t: nat) => LogOf(Run(cfg, Before(evs, when(t))), k))
  {
    var log := (t: nat) => LogOf(Run(cfg, Before(evs, when(t))), k);
    forall t: nat ensures Numbered(log(t)) {
      RunKeepsInv(cfg, Before(evs, when(t)));
    }
    forall t: nat, u: nat | u == t + 1 ensures LogGrows(log(t), log(u)) {
      LogGrowsInRun(cfg, evs, when(t), when(u), k);
    }
  }
}
