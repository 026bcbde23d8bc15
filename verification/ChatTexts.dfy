// What the log keeps of a message's texts for moderation.

module ChatTexts {
  import opened Wrappers
  import opened Chat
  import opened ChatInvariants
  import opened ChatShapes
  import opened ChatTheorems
  import opened Messenger

  /** Message `i` of conversation `k` exists. */
  predicate Exists(db: Db, k: nat, i: nat) {
    k < |db.chats| && i < |db.chats[k].messages|
  }

  predicate EditedBy(cfg: Config, db: Db, ev: Event, k: nat, i: nat) {
    ev.CallEvent? && ev.chat == k && k < |db.chats| && Edits(cfg, db.chats[k], db.nextId, ev.call, i)
  }

  /** The texts a message has had, in order: what was sent, and what each edit made of it. */
  function Texts(cfg: Config, evs: seq<Event>, k: nat, i: nat): seq<string> {
    if evs == [] || !Exists(Run(cfg, evs), k, i) then []
    else
      var init, ev := evs[..|evs| - 1], evs[|evs| - 1];
      if !Exists(Run(cfg, init), k, i) then [Run(cfg, evs).chats[k].messages[i].content]
      else if EditedBy(cfg, Run(cfg, init), ev, k, i) then Texts(cfg, init, k, i) + [ev.call.content]
      else Texts(cfg, init, k, i)
  }

  function FirstText(texts: seq<string>): string {
    if texts == [] then ""
    else if texts[0] != "" then texts[0]
    else FirstText(texts[1..])
  }

  /**
   * A message shows its last text and keeps the first non-empty one it no longer shows. A
   * deleted message shows nothing and keeps the last text, so what it kept before is lost.
   */
  ghost predicate KeepsTexts(m: Message, texts: seq<string>) {
    texts != []
    && var last := texts[|texts| - 1];
       if m.status == Deleted then m.content == "" && m.original == last
       else
         && m.content == last && m.original == FirstText(texts[..|texts| - 1])
         && (m.status == Edited <==> |texts| > 1)
  }

  lemma {:induction false} FirstTextAppend(texts: seq<string>, t: string)
    ensures FirstText(texts + [t]) == if FirstText(texts) != "" then FirstText(texts) else t
  {
    if texts == [] {
      assert [t][1..] == [];
    } else {
      assert (texts + [t])[1..] == texts[1..] + [t];
      FirstTextAppend(texts[1..], t);
    }
  }

  lemma EditKeepsTexts(m: Message, texts: seq<string>, t: string)
    requires KeepsTexts(m, texts) && m.status != Deleted
    ensures
      var original := if m.original == "" then m.content else m.original;
      KeepsTexts(m.(content := t, status := Edited, original := original), texts + [t])
  {
    var init, last := texts[..|texts| - 1], texts[|texts| - 1];
    assert texts == init + [last] && (texts + [t])[..|texts|] == texts;
    FirstTextAppend(init, last);
  }

  lemma CallKeepsTexts(cfg: Config, c: Conversation, nextId: Id, call: Call, i: nat, texts: seq<string>)
    requires i < |c.messages| && KeepsTexts(c.messages[i], texts)
    ensures i < |Chat.After(cfg, c, nextId, call).messages|
    ensures KeepsTexts(Chat.After(cfg, c, nextId, call).messages[i],
                       if Edits(cfg, c, nextId, call, i) then texts + [call.content] else texts)
  {
    MessageAfterCall(cfg, c, nextId, call, i);
    if Edits(cfg, c, nextId, call, i) {
      EditKeepsTexts(c.messages[i], texts, call.content);
    }
  }

  lemma NewMessageKeepsText(cfg: Config, c: Conversation, nextId: Id, call: Call, i: nat)
    requires |c.messages| <= i < |Chat.After(cfg, c, nextId, call).messages|
    ensures KeepsTexts(Chat.After(cfg, c, nextId, call).messages[i],
                       [Chat.After(cfg, c, nextId, call).messages[i].content])
  {
    if call.EditCall? || call.DeleteCall? || call.SeenCall? {
      OtherCallsShape(cfg, c, nextId, call);
    } else {
      CallShape(cfg, c, nextId, call);
    }
  }

  /** What every message of every reachable state keeps of the texts it has had. */
  lemma {:induction false} TextsOverRuns(cfg: Config, evs: seq<Event>, k: nat, i: nat)
    requires Exists(Run(cfg, evs), k, i)
    ensures KeepsTexts(Run(cfg, evs).chats[k].messages[i], Texts(cfg, evs, k, i))
  {
    if evs != [] {
      var init, ev := evs[..|evs| - 1], evs[|evs| - 1];
      var db := Run(cfg, init);
      if Exists(db, k, i) {
        TextsOverRuns(cfg, init, k, i);
        if ev.CallEvent? && ev.chat == k {
          CallKeepsTexts(cfg, db.chats[k], db.nextId, ev.call, i, Texts(cfg, init, k, i));
        }
      } else if ev.CallEvent? && ev.chat == k && k < |db.chats| {
        NewMessageKeepsText(cfg, db.chats[k], db.nextId, ev.call, i);
      }
    }
  }
}
