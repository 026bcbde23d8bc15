// The version history of one block placement: numbering, retention and the
// draft-save throttle (_create_content_version, _create_content_version_throttled,
// _prune_old_versions).

module Versions {
  import opened Wrappers
  import opened JsonTree
  import opened MediaRefs

  type UserId = nat

  datatype Action = DraftSave | Publish | Rollback | Import

  datatype Version = Version(number: nat, snapshot: Json, action: Action, savedBy: UserId, at: int)

  /**
   * `rows` are the stored versions in insertion order. `created` counts the rows
   * ever inserted, and `nulled` lists the files tombstoning cleared from the draft
   * since the newest snapshot was written; both are history variables.
   */
  datatype History = History(rows: seq<Version>, created: nat, nulled: seq<Uuid>)

  const NO_HISTORY := History([], 0, [])

  /** Index of the row with the greatest number. */
  function LatestAt(rows: seq<Version>): (at: nat)
    requires rows != []
    ensures at < |rows|
    ensures forall i :: 0 <= i < |rows| ==> rows[i].number <= rows[at].number
  {
    if |rows| == 1 then 0
    else
      var rest := LatestAt(rows[1..]);
      assert forall i :: 1 <= i < |rows| ==> rows[i] == rows[1..][i - 1];
      if rows[0].number > rows[1..][rest].number then 0 else rest + 1
  }

  function Latest(rows: seq<Version>): Option<Version> {
    if rows == [] then None else Some(rows[LatestAt(rows)])
  }

  /** How many rows carry a greater number. */
  function Newer(rows: seq<Version>, n: nat): nat {
    if rows == [] then 0
    else (if rows[0].number > n then 1 else 0) + Newer(rows[1..], n)
  }

  function Survivors(rows: seq<Version>, all: seq<Version>, keep: nat): seq<Version> {
    if rows == [] then []
    else (if Newer(all, rows[0].number) < keep then [rows[0]] else []) + Survivors(rows[1..], all, keep)
  }

  /** The rows left when all but the `keep` highest-numbered are deleted. */
  function Prune(rows: seq<Version>, keep: nat): seq<Version> {
    Survivors(rows, rows, keep)
  }

  function NextNumber(rows: seq<Version>): nat {
    if rows == [] then 1 else rows[LatestAt(rows)].number + 1
  }

  function Create(h: History, content: Json, action: Action, author: UserId, now: int, keep: nat): History {
    var row := Version(NextNumber(h.rows), OrEmpty(content), action, author, now);
    History(Prune(h.rows + [row], keep), h.created + 1, [])
  }

  predicate Throttled(h: History, author: UserId, now: int, window: int) {
    && h.rows != []
    && var latest := h.rows[LatestAt(h.rows)];
       latest.action == DraftSave && latest.savedBy == author && now - latest.at < window
  }

  function Save(h: History, content: Json, author: UserId, now: int, window: int, keep: nat): History {
    if Throttled(h, author, now, window) then
      var k := LatestAt(h.rows);
      h.(rows := h.rows[k := h.rows[k].(snapshot := OrEmpty(content))], nulled := [])
    else Create(h, content, DraftSave, author, now, keep)
  }

  function Find(rows: seq<Version>, number: nat): (r: Option<Version>)
    ensures r.None? <==> forall i :: 0 <= i < |rows| ==> rows[i].number != number
    ensures r.Some? ==> r.value in rows && r.value.number == number
  {
    if rows == [] then None
    else if rows[0].number == number then Some(rows[0])
    else Find(rows[1..], number)
  }

  // ------------------------------------------------------------------ loops

  method LatestVersion(rows: seq<Version>) returns (r: Option<Version>)
    ensures r == Latest(rows)
  {
    if rows == [] {
      return None;
    }
    // order_by("-version_number").first(); among equal numbers the last row wins
    var best := |rows| - 1;
    var i := |rows| - 1;
    assert rows[i..] == [rows[i]];
    while i > 0
      invariant 0 <= i <= best < |rows|
      invariant best == i + LatestAt(rows[i..])
    {
      i := i - 1;
      assert rows[i..][1..] == rows[i + 1..];
      if rows[i].number > rows[best].number {
        best := i;
      }
    }
    assert rows[0..] == rows;
    return Some(rows[best]);
  }

  method CountNewer(rows: seq<Version>, n: nat) returns (c: nat)
    ensures c == Newer(rows, n)
  {
    c := 0;
    assert rows[0..] == rows;
    for i := 0 to |rows|
      invariant c + Newer(rows[i..], n) == Newer(rows, n)
    {
      assert rows[i..][1..] == rows[i + 1..];
      if rows[i].number > n {
        c := c + 1;
      }
    }
  }

  lemma SurvivorsStep(rows: seq<Version>, i: nat, keep: nat)
    requires i < |rows|
    ensures Survivors(rows[i..], rows, keep)
            == (if Newer(rows, rows[i].number) < keep then [rows[i]] else []) + Survivors(rows[i + 1..], rows, keep)
  {
    assert rows[i..][1..] == rows[i + 1..];
  }

  method PruneOldVersions(rows: seq<Version>, keep: nat) returns (r: seq<Version>)
    ensures r == Prune(rows, keep)
  {
    r := [];
    assert rows[0..] == rows;
    for i := 0 to |rows|
      invariant r + Survivors(rows[i..], rows, keep) == Prune(rows, keep)
    {
      SurvivorsStep(rows, i, keep);
      var newer := CountNewer(rows, rows[i].number);
      ghost var rest := Survivors(rows[i + 1..], rows, keep);
      if newer < keep {
        assert r + ([rows[i]] + rest) == (r + [rows[i]]) + rest;
        r := r + [rows[i]];
      } else {
        assert [] + rest == rest;
      }
    }
  }

  method CreateContentVersion(h: History, content: Json, action: Action, author: UserId, now: int, keep: nat)
    returns (r: History)
    ensures r == Create(h, content, action, author, now, keep)
  {
    var latest := LatestVersion(h.rows);
    var number := if latest.Some? then latest.value.number + 1 else 1;
    var rows := h.rows + [Version(number, OrEmpty(content), action, author, now)];
    rows := PruneOldVersions(rows, keep);
    return History(rows, h.created + 1, []);
  }

  method CreateContentVersionThrottled(h: History, content: Json, author: UserId, now: int, window: int, keep: nat)
    returns (r: History)
    ensures r == Save(h, content, author, now, window, keep)
  {
    var latest := LatestVersion(h.rows);
    if latest.Some? && latest.value.action == DraftSave && latest.value.savedBy == author
       && now - latest.value.at < window {
      var k := LatestAt(h.rows);
      return History(h.rows[k := latest.value.(snapshot := OrEmpty(content))], h.created, []);
    }
    r := CreateContentVersion(h, content, DraftSave, author, now, keep);
  }

  // ---------------------------------------------------- numbering, retention

  /** Numbers run base+1, base+2, ... in row order. */
  predicate Consecutive(rows: seq<Version>, base: int) {
    forall i :: 0 <= i < |rows| ==> rows[i].number == base + 1 + i
  }

  /**
   * The stored numbers are one contiguous block, at most `keep` long, whose top is
   * the number of versions ever created.
   */
  predicate Contiguous(h: History, keep: nat) {
    && |h.rows| == (if h.created < keep then h.created else keep)
    && Consecutive(h.rows, h.created - |h.rows|)
  }

  lemma {:induction false} NewerInBlock(rows: seq<Version>, base: int, n: nat)
    requires Consecutive(rows, base) && base < n <= base + |rows|
    ensures Newer(rows, n) == base + |rows| - n
    decreases |rows|
  {
    if n == base + 1 {
      NewerAll(rows[1..], n);
    } else {
      NewerInBlock(rows[1..], base + 1, n);
    }
  }

  lemma {:induction false} NewerAll(rows: seq<Version>, n: nat)
    requires forall i :: 0 <= i < |rows| ==> rows[i].number > n
    ensures Newer(rows, n) == |rows|
  {
    if rows != [] {
      NewerAll(rows[1..], n);
    }
  }

  lemma {:induction false} SurvivorsAreSuffix(all: seq<Version>, base: int, keep: nat, j: nat)
    requires Consecutive(all, base) && j <= |all|
    ensures Survivors(all[j..], all, keep)
            == all[if |all| - keep > j then |all| - keep else j..]
    decreases |all| - j
  {
    if j < |all| {
      assert all[j..][1..] == all[j + 1..] && all[j..][0] == all[j];
      NewerInBlock(all, base, all[j].number);
      SurvivorsAreSuffix(all, base, keep, j + 1);
    }
  }

  lemma LatestIsLast(rows: seq<Version>, base: int)
    requires rows != [] && Consecutive(rows, base)
    ensures LatestAt(rows) == |rows| - 1
  {
    assert rows[|rows| - 1].number <= rows[LatestAt(rows)].number;
  }

  lemma PruneIsSuffix(all: seq<Version>, base: int, keep: nat)
    requires Consecutive(all, base)
    ensures Prune(all, keep) == Top(all, keep)
  {
    SurvivorsAreSuffix(all, base, keep, 0);
    assert all[0..] == all;
  }

  lemma NextIsCreatedPlusOne(h: History, keep: nat)
    requires keep >= 1 && Contiguous(h, keep)
    ensures NextNumber(h.rows) == h.created + 1
  {
    if h.rows != [] {
      LatestIsLast(h.rows, h.created - |h.rows|);
    }
  }

  /** The newest `keep` rows. */
  function Top(rows: seq<Version>, keep: nat): seq<Version> {
    if |rows| > keep then rows[|rows| - keep..] else rows
  }

  lemma CreateIs(h: History, content: Json, action: Action, author: UserId, now: int, keep: nat)
    requires keep >= 1 && Contiguous(h, keep)
    ensures
      Create(h, content, action, author, now, keep)
      == History(Top(h.rows + [Version(h.created + 1, OrEmpty(content), action, author, now)], keep), h.created + 1, [])
  {
    NextIsCreatedPlusOne(h, keep);
    var all := h.rows + [Version(h.created + 1, OrEmpty(content), action, author, now)];
    PruneIsSuffix(all, h.created - |h.rows|, keep);
  }

  lemma TopOfAppend(h: History, row: Version, keep: nat)
    requires keep >= 1 && Contiguous(h, keep) && row.number == h.created + 1
    ensures
      var kept := Top(h.rows + [row], keep);
      && Contiguous(History(kept, h.created + 1, []), keep)
      && kept != [] && kept[|kept| - 1] == row
      && kept[..|kept| - 1] == h.rows[|h.rows| + 1 - |kept|..]
  {
  }

  /** Inserting a version extends the block by one at the top and drops the oldest beyond retention. */
  lemma CreateKeepsBlock(h: History, content: Json, action: Action, author: UserId, now: int, keep: nat)
    requires keep >= 1 && Contiguous(h, keep)
    ensures
      var h' := Create(h, content, action, author, now, keep);
      && Contiguous(h', keep)
      && h'.rows != []
      && h'.rows[|h'.rows| - 1] == Version(h.created + 1, OrEmpty(content), action, author, now)
      && h'.rows[..|h'.rows| - 1] == h.rows[|h.rows| + 1 - |h'.rows|..]
  {
    CreateIs(h, content, action, author, now, keep);
    TopOfAppend(h, Version(h.created + 1, OrEmpty(content), action, author, now), keep);
  }

  /** A throttled save rewrites the snapshot of the newest row and nothing else. */
  lemma SaveKeepsBlock(h: History, content: Json, author: UserId, now: int, window: int, keep: nat)
    requires keep >= 1 && Contiguous(h, keep)
    ensures
      var h' := Save(h, content, author, now, window, keep);
      && Contiguous(h', keep)
      && h'.rows != []
      && h'.rows[|h'.rows| - 1].snapshot == OrEmpty(content)
      && (h'.created == h.created ==>
            && |h'.rows| == |h.rows|
            && h'.rows[..|h.rows| - 1] == h.rows[..|h.rows| - 1]
            && h'.rows[|h.rows| - 1].number == h.rows[|h.rows| - 1].number)
  {
    if Throttled(h, author, now, window) {
      LatestIsLast(h.rows, h.created - |h.rows|);
    } else {
      CreateKeepsBlock(h, content, DraftSave, author, now, keep);
    }
  }

  lemma PruneKeepsBlock(h: History, keep: nat)
    requires Contiguous(h, keep)
    ensures Prune(h.rows, keep) == h.rows
  {
    PruneIsSuffix(h.rows, h.created - |h.rows|, keep);
  }

  /** With retention 0 the table is always emptied and every version is number 1. */
  lemma RetentionZeroReusesNumbers(h: History, content: Json, action: Action, author: UserId, now: int)
    requires Contiguous(h, 0)
    ensures Create(h, content, action, author, now, 0).rows == []
    ensures NextNumber(Create(h, content, action, author, now, 0).rows) == 1
  {
    var all := h.rows + [Version(NextNumber(h.rows), OrEmpty(content), action, author, now)];
    assert all[1..] == [] && Survivors(all[1..], all, 0) == [];
  }

  // --------------------------------------------------------------- throttle

  datatype SaveCall = SaveCall(content: Json, now: int)

  /** The history after a run of draft saves by one user. */
  function SavedAfter(h: History, author: UserId, calls: seq<SaveCall>, window: int, keep: nat): History {
    if calls == [] then h
    else
      var last := calls[|calls| - 1];
      Save(SavedAfter(h, author, calls[..|calls| - 1], window, keep), last.content, author, last.now, window, keep)
  }

  /** The creation times of the new versions of such a run. */
  function SaveTimes(h: History, author: UserId, calls: seq<SaveCall>, window: int, keep: nat): seq<int> {
    if calls == [] then []
    else
      var init := calls[..|calls| - 1];
      Timed(SaveTimes(h, author, init, window, keep), SavedAfter(h, author, init, window, keep),
            SavedAfter(h, author, calls, window, keep), calls[|calls| - 1].now)
  }

  ghost predicate Spaced(times: seq<int>, window: int) {
    forall i, j :: 0 <= i < j < |times| && j == i + 1 ==> times[j] - times[i] >= window
  }

  /** When the newest row is a draft save of this user: the time it was created. */
  function LastSave(h: History, author: UserId): Option<int> {
    if h.rows == [] then None
    else
      var newest := h.rows[|h.rows| - 1];
      if newest.action == DraftSave && newest.savedBy == author then Some(newest.at) else None
  }

  lemma ThrottledIff(h: History, author: UserId, now: int, window: int, keep: nat)
    requires keep >= 1 && Contiguous(h, keep)
    ensures Throttled(h, author, now, window)
            <==> LastSave(h, author).Some? && now - LastSave(h, author).value < window
  {
    if h.rows != [] {
      LatestIsLast(h.rows, h.created - |h.rows|);
    }
  }

  lemma SaveIs(h: History, content: Json, author: UserId, now: int, window: int, keep: nat)
    requires keep >= 1 && Contiguous(h, keep)
    ensures
      var n, row := |h.rows|, Version(h.created + 1, OrEmpty(content), DraftSave, author, now);
      Save(h, content, author, now, window, keep) ==
      if LastSave(h, author).Some? && now - LastSave(h, author).value < window
      then h.(rows := h.rows[n - 1 := h.rows[n - 1].(snapshot := OrEmpty(content))], nulled := [])
      else History(Top(h.rows + [row], keep), h.created + 1, [])
  {
    ThrottledIff(h, author, now, window, keep);
    if Throttled(h, author, now, window) {
      LatestIsLast(h.rows, h.created - |h.rows|);
    } else {
      CreateIs(h, content, DraftSave, author, now, keep);
    }
  }

  /** What one save does to the count of versions and to the user's last save. */
  predicate Stepped(g: History, g': History, author: UserId, now: int, window: int) {
    if LastSave(g, author).Some? && now - LastSave(g, author).value < window
    then g'.created == g.created && LastSave(g', author) == LastSave(g, author)
    else g'.created == g.created + 1 && LastSave(g', author) == Some(now)
  }

  /** A save is folded into the newest version exactly inside the window of this user's last one. */
  lemma SaveStep(h: History, content: Json, author: UserId, now: int, window: int, keep: nat)
    requires keep >= 1 && Contiguous(h, keep)
    ensures
      var h' := Save(h, content, author, now, window, keep);
      if LastSave(h, author).Some? && now - LastSave(h, author).value < window
      then h'.created == h.created && LastSave(h', author) == LastSave(h, author)
      else h'.created == h.created + 1 && LastSave(h', author) == Some(now)
  {
    SaveIs(h, content, author, now, window, keep);
    if LastSave(h, author).Some? && now - LastSave(h, author).value < window {
      RewriteKeepsLastSave(h, author, OrEmpty(content));
    } else {
      var row := Version(h.created + 1, OrEmpty(content), DraftSave, author, now);
      TopOfAppend(h, row, keep);
      LastSaveIsTop(History(Top(h.rows + [row], keep), h.created + 1, []), author, row);
    }
  }

  lemma RewriteKeepsLastSave(h: History, author: UserId, snapshot: Json)
    requires h.rows != []
    ensures
      var n := |h.rows|;
      LastSave(h.(rows := h.rows[n - 1 := h.rows[n - 1].(snapshot := snapshot)], nulled := []), author)
        == LastSave(h, author)
  {
  }

  lemma LastSaveIsTop(h: History, author: UserId, row: Version)
    requires h.rows != [] && h.rows[|h.rows| - 1] == row && row.action == DraftSave && row.savedBy == author
    ensures LastSave(h, author) == Some(row.at)
  {
  }

  /** Times already spaced stay so when the next one is far enough from the last. */
  lemma SpacedAppend(times: seq<int>, now: int, window: int)
    requires Spaced(times, window)
    requires times != [] ==> now - times[|times| - 1] >= window
    ensures Spaced(times + [now], window)
  {
  }

  /** What a run of saves maintains. */
  ghost predicate Paced(h: History, g: History, times: seq<int>, author: UserId, window: int, keep: nat) {
    && Contiguous(g, keep)
    && Spaced(times, window)
    && g.created == h.created + |times|
    && (times != [] ==> LastSave(g, author) == Some(times[|times| - 1]))
  }

  /** The creation times after a step. */
  function Timed(times: seq<int>, g: History, g': History, now: int): seq<int> {
    if g'.created > g.created then times + [now] else times
  }

  lemma PacedStep(h: History, g: History, g': History, times: seq<int>, author: UserId, now: int, window: int,
                  keep: nat)
    requires Paced(h, g, times, author, window, keep) && Contiguous(g', keep) && Stepped(g, g', author, now, window)
    ensures Paced(h, g', Timed(times, g, g', now), author, window, keep)
  {
    if g'.created > g.created {
      SpacedAppend(times, now, window);
    }
  }

  /** One more save of a run that is paced so far. */
  lemma PacedRunStep(h: History, author: UserId, calls: seq<SaveCall>, window: int, keep: nat, g: History,
                     times: seq<int>)
    requires keep >= 1 && calls != [] && Paced(h, g, times, author, window, keep)
    requires g == SavedAfter(h, author, calls[..|calls| - 1], window, keep)
    requires times == SaveTimes(h, author, calls[..|calls| - 1], window, keep)
    ensures Paced(h, SavedAfter(h, author, calls, window, keep), SaveTimes(h, author, calls, window, keep), author,
                  window, keep)
  {
    var last := calls[|calls| - 1];
    var g' := Save(g, last.content, author, last.now, window, keep);
    SaveKeepsBlock(g, last.content, author, last.now, window, keep);
    SaveStep(g, last.content, author, last.now, window, keep);
    PacedStep(h, g, g', times, author, last.now, window, keep);
    assert SavedAfter(h, author, calls, window, keep) == g';
    assert SaveTimes(h, author, calls, window, keep) == Timed(times, g, g', last.now);
  }

  /** New versions are at least a window apart whatever the clock does between. */
  lemma {:induction false} SavesAreSpaced(h: History, author: UserId, calls: seq<SaveCall>, window: int, keep: nat)
    requires keep >= 1 && Contiguous(h, keep)
    ensures Paced(h, SavedAfter(h, author, calls, window, keep), SaveTimes(h, author, calls, window, keep), author,
                  window, keep)
  {
    if calls != [] {
      var init := calls[..|calls| - 1];
      SavesAreSpaced(h, author, init, window, keep);
      PacedRunStep(h, author, calls, window, keep,
                   SavedAfter(h, author, init, window, keep), SaveTimes(h, author, init, window, keep));
    }
  }

  /** The newest snapshot holds the last saved content, although a throttled save adds no version. */
  lemma LastSaveIsNewest(h: History, author: UserId, calls: seq<SaveCall>, window: int, keep: nat)
    requires keep >= 1 && Contiguous(h, keep) && calls != []
    ensures
      var g := SavedAfter(h, author, calls, window, keep);
      g.rows != [] && g.rows[|g.rows| - 1].snapshot == OrEmpty(calls[|calls| - 1].content)
  {
    var init, last := calls[..|calls| - 1], calls[|calls| - 1];
    SavesAreSpaced(h, author, init, window, keep);
    SaveKeepsBlock(SavedAfter(h, author, init, window, keep), last.content, author, last.now, window, keep);
  }

  lemma {:induction false} TimesAreCallTimes(h: History, author: UserId, calls: seq<SaveCall>, window: int, keep: nat,
                                             from: int, to: int)
    requires forall c <- calls :: from <= c.now <= to
    ensures forall t <- SaveTimes(h, author, calls, window, keep) :: from <= t <= to
  {
    if calls != [] {
      assert calls[|calls| - 1] in calls;
      TimesAreCallTimes(h, author, calls[..|calls| - 1], window, keep, from, to);
    }
  }

  /** So many new versions within a span of seconds are no more than one per window. */
  predicate OnePerWindow(k: int, window: int, span: int) {
    k == 0 || (k - 1) * window <= span
  }

  lemma {:induction false} SpacedSpan(times: seq<int>, window: int)
    requires times != [] && Spaced(times, window)
    ensures (|times| - 1) * window <= times[|times| - 1] - times[0]
  {
    if |times| > 1 {
      var init := times[..|times| - 1];
      SpacedSpan(init, window);
      assert (|times| - 1) * window == (|init| - 1) * window + window;
    }
  }

  /** Saves that all fall inside a span of `to - from` seconds create k versions with (k-1)*W <= span. */
  lemma SavesPerSpan(h: History, author: UserId, calls: seq<SaveCall>, window: int, keep: nat, from: int, to: int)
    requires keep >= 1 && Contiguous(h, keep)
    requires from <= to && forall c <- calls :: from <= c.now <= to
    ensures OnePerWindow(SavedAfter(h, author, calls, window, keep).created - h.created, window, to - from)
  {
    SavesAreSpaced(h, author, calls, window, keep);
    var times := SaveTimes(h, author, calls, window, keep);
    if times != [] {
      SpacedSpan(times, window);
      TimesAreCallTimes(h, author, calls, window, keep, from, to);
      assert times[0] in times && times[|times| - 1] in times;
    }
  }

  // ------------------------------------------------------ snapshots and draft

  function NullJson(j: Json, target: string): Json {
    if j.Obj? then Obj(NullDict(j.entries, target)) else j
  }

  function NullAll(codec: Codec, j: Json, ids: seq<Uuid>): Json {
    if ids == [] then j
    else NullJson(NullAll(codec, j, ids[..|ids| - 1]), codec.text(ids[|ids| - 1]))
  }

  /** The draft is the newest snapshot with the files tombstoned since then cleared. */
  predicate Mirrors(codec: Codec, draft: Json, h: History) {
    h.rows != [] ==> OrEmpty(draft) == NullAll(codec, h.rows[|h.rows| - 1].snapshot, h.nulled)
  }

  lemma CreateMirrors(codec: Codec, h: History, content: Json, action: Action, author: UserId, now: int, keep: nat)
    requires Contiguous(h, keep)
    ensures Mirrors(codec, content, Create(h, content, action, author, now, keep))
    ensures Contiguous(Create(h, content, action, author, now, keep), keep)
  {
    if keep >= 1 {
      CreateKeepsBlock(h, content, action, author, now, keep);
    } else {
      RetentionZeroReusesNumbers(h, content, action, author, now);
    }
  }

  lemma SaveMirrors(codec: Codec, h: History, content: Json, author: UserId, now: int, window: int, keep: nat)
    requires Contiguous(h, keep)
    ensures Mirrors(codec, content, Save(h, content, author, now, window, keep))
    ensures Contiguous(Save(h, content, author, now, window, keep), keep)
  {
    if keep >= 1 {
      SaveKeepsBlock(h, content, author, now, window, keep);
    } else {
      RetentionZeroReusesNumbers(h, content, DraftSave, author, now);
    }
  }

  /** A stored number is always found, and always inside the block. */
  lemma FindInBlock(h: History, keep: nat, number: nat)
    requires Contiguous(h, keep)
    ensures Find(h.rows, number).Some? <==> h.created - |h.rows| < number <= h.created
    ensures Find(h.rows, number).Some? ==>
      Find(h.rows, number).value == h.rows[number - 1 - (h.created - |h.rows|)]
  {
    var base := h.created - |h.rows|;
    if base < number <= h.created {
      assert h.rows[number - 1 - base].number == number;
    }
  }

  function RollBack(h: History, number: nat, author: UserId, now: int, keep: nat): Option<(Json, History)> {
    var v := Find(h.rows, number);
    if v.None? then None
    else Some((v.value.snapshot, Create(h, v.value.snapshot, Rollback, author, now, keep)))
  }

  /**
   * Rolling back to a stored version k yields its snapshot. Rolling back again to
   * the number that was newest before succeeds if and only if retention keeps two
   * versions, and then yields the newest snapshot from before the first rollback.
   */
  lemma RollbackRoundTrip(h: History, k: nat, author: UserId, now: int, author': UserId, now': int, keep: nat)
    requires keep >= 1 && Contiguous(h, keep)
    requires Find(h.rows, k).Some?
    ensures
      var (draft, h1) := RollBack(h, k, author, now, keep).value;
      var back := RollBack(h1, h.created, author', now', keep);
      && draft == Find(h.rows, k).value.snapshot
      && (back.Some? <==> keep >= 2)
      && (keep >= 2 ==> back.value.0 == h.rows[|h.rows| - 1].snapshot)
  {
    FindInBlock(h, keep, k);
    var draft := Find(h.rows, k).value.snapshot;
    CreateKeepsBlock(h, draft, Rollback, author, now, keep);
    var h1 := Create(h, draft, Rollback, author, now, keep);
    FindInBlock(h1, keep, h.created);
    if keep >= 2 {
      assert h1.rows[|h1.rows| - 2] == h1.rows[..|h1.rows| - 1][|h1.rows| - 2];
      assert h.rows[|h.rows| + 1 - |h1.rows|..][|h1.rows| - 2] == h.rows[|h.rows| - 1];
    }
  }

  // ------------------------------------------ what a round trip does not restore

  /** The media sites of a column value. */
  function JsonSites(j: Json): seq<Site> {
    if j.Obj? then Sites(j.entries, "") else []
  }

  /** Every place of `from` that names a media file still names it in `to`. */
  predicate SitesStand(from: Json, to: Json) {
    forall s <- JsonSites(from) :: s in JsonSites(to)
  }

  lemma {:induction false} OtherSitesMembers(sites: seq<Site>, target: string, s: Site)
    ensures s in OtherSites(sites, target) <==> s in sites && s.value != Str(target)
  {
    if sites != [] {
      OtherSitesMembers(sites[1..], target, s);
    }
  }

  lemma {:induction false} SitesAfterNulling(codec: Codec, j: Json, ids: seq<Uuid>, s: Site)
    ensures s in JsonSites(NullAll(codec, j, ids))
            <==> s in JsonSites(j) && forall f <- ids :: s.value != Str(codec.text(f))
  {
    if ids != [] {
      var init, last := ids[..|ids| - 1], ids[|ids| - 1];
      SitesAfterNulling(codec, j, init, s);
      var mid := NullAll(codec, j, init);
      if mid.Obj? {
        NullingFiltersSites(mid.entries, "", codec.text(last));
        OtherSitesMembers(JsonSites(mid), codec.text(last), s);
      }
      assert ids == init + [last];
    }
  }

  lemma {:induction false} NullingNothing(codec: Codec, j: Json, ids: seq<Uuid>)
    requires forall f <- ids :: Free(JsonSites(j), codec.text(f))
    ensures NullAll(codec, j, ids) == j
  {
    if ids != [] {
      var init, last := ids[..|ids| - 1], ids[|ids| - 1];
      NullingNothing(codec, j, init);
      assert last in ids;
      if j.Obj? {
        NullingUnchangedIffFree(j.entries, "", codec.text(last));
      }
    }
  }

  /** Clearing files changes a value exactly if one of its media sites is gone afterwards. */
  lemma UnchangedIffSitesStand(codec: Codec, j: Json, ids: seq<Uuid>)
    ensures NullAll(codec, j, ids) == j <==> SitesStand(j, NullAll(codec, j, ids))
  {
    if SitesStand(j, NullAll(codec, j, ids)) {
      forall f | f in ids ensures Free(JsonSites(j), codec.text(f)) {
        forall i | 0 <= i < |JsonSites(j)| ensures JsonSites(j)[i].value != Str(codec.text(f)) {
          assert JsonSites(j)[i] in JsonSites(j);
          SitesAfterNulling(codec, j, ids, JsonSites(j)[i]);
        }
      }
      NullingNothing(codec, j, ids);
    }
  }

  /** The newest snapshot is the draft exactly if all its media references still stand there. */
  lemma SnapshotRestoresIff(codec: Codec, draft: Json, h: History)
    requires Mirrors(codec, draft, h) && h.rows != []
    ensures
      var newest := h.rows[|h.rows| - 1].snapshot;
      newest == OrEmpty(draft) <==> SitesStand(newest, OrEmpty(draft))
  {
    UnchangedIffSitesStand(codec, h.rows[|h.rows| - 1].snapshot, h.nulled);
  }

  /**
   * So the round trip restores the draft of before (a null draft reads as {}) if and only
   * if every media reference of the newest snapshot still stands in that draft: tombstoning
   * clears references from a draft without writing a version.
   */
  lemma RoundTripRestoresDraft(codec: Codec, draft: Json, h: History, k: nat,
                               author: UserId, now: int, author': UserId, now': int, keep: nat)
    requires keep >= 2 && Contiguous(h, keep) && Mirrors(codec, draft, h)
    requires Find(h.rows, k).Some?
    ensures
      var h1 := RollBack(h, k, author, now, keep).value.1;
      var newest := h.rows[|h.rows| - 1].snapshot;
      RollBack(h1, h.created, author', now', keep).Some?
      && (RollBack(h1, h.created, author', now', keep).value.0 == OrEmpty(draft)
          <==> SitesStand(newest, OrEmpty(draft)))
  {
    FindInBlock(h, keep, k);
    RollbackRoundTrip(h, k, author, now, author', now', keep);
    SnapshotRestoresIff(codec, draft, h);
  }
}
