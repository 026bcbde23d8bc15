// Concrete runs of the chat on which a promise fails.

module ChatWitnesses {
  import opened Wrappers
  import opened Chat
  import opened ChatInvariants
  import opened ChatTheorems
  import opened Messenger
  import opened ChatManagers

  const ALICE := Identity(User, 0)
  const BOB := Identity(User, 1)

  const ABDICATION :=
    [CreateEvent(NewChat(Global, None, Group, ALICE, [BOB], "team", None, false, false, None, true, 0)),
     CallEvent(0, RemoveCall(0, 0, 10))]

  const TEAM := Conversation(Global, None, Group, ALICE, true,
                             [Row(0, ALICE, Admin, NoRequest, true, 0, None),
                              Row(1, BOB, Member, NoRequest, true, 0, None)],
                             [], None)

  lemma TeamIsCreated(cfg: Config)
    requires cfg.maxParticipants >= 2 && !cfg.blank("team")
    ensures Run(cfg, ABDICATION[..1]) == Db([TEAM], 2)
  {
    var n := ABDICATION[0].n;
    assert [BOB][..0] == [] && OtherRows(n, [], 0) == [];
    assert OtherRows(n, [BOB], 0) == [Row(1, BOB, Member, NoRequest, true, 0, None)];
    assert FirstRows(n, 0) == TEAM.rows;
    assert Create(cfg, EMPTY, n).value.0 == Db([] + [TEAM], 2);
    assert ABDICATION[..1][..0] == [] && Run(cfg, ABDICATION[..1][..0]) == EMPTY;
  }

  lemma TeamAbdicates()
    ensures Abdicates(TEAM, RemoveCall(0, 0, 10))
  {
    assert TEAM.rows[..1][..0] == [] && TEAM.rows[..1] == [TEAM.rows[0]];
    assert CountRows(TEAM.rows[..1], IsActiveAdmin()) == 1;
    assert TEAM.rows[0] in TEAM.rows;
  }

  /** The creator of a group of two removes themselves, and the group has no admin. */
  lemma SoleAdminAbdicates(cfg: Config)
    requires cfg.maxParticipants >= 2 && !cfg.blank("team")
    ensures !Orderly(cfg, ABDICATION) && !AlwaysLed(cfg, ABDICATION)
    ensures |Run(cfg, ABDICATION).chats| == 1 && !Led(Run(cfg, ABDICATION).chats[0])
  {
    TeamIsCreated(cfg);
    TeamAbdicates();
    RunKeepsInv(cfg, ABDICATION[..1]);
    CallKeepsLed(cfg, Run(cfg, ABDICATION[..1]).chats[0], 2, RemoveCall(0, 0, 10));
    ActiveGroupsAreLed(cfg, ABDICATION);
  }

  /** A plain member who tries the same is refused: the run stays orderly, and the group led. */
  lemma RefusedRemovalIsOrderly(cfg: Config)
    requires cfg.maxParticipants >= 2 && !cfg.blank("team")
    ensures
      var evs := ABDICATION[..1] + [CallEvent(0, RemoveCall(1, 1, 10))];
      Orderly(cfg, evs) && AlwaysLed(cfg, evs) && |Run(cfg, evs).chats| == 1
  {
    var evs := ABDICATION[..1] + [CallEvent(0, RemoveCall(1, 1, 10))];
    TeamIsCreated(cfg);
    assert evs[..1] == ABDICATION[..1] && ABDICATION[..1][..0] == [];
    assert Orderly(cfg, ABDICATION[..1][..0]);
    assert !Abdication(Run(cfg, ABDICATION[..1][..0]), ABDICATION[..1][0]);
    assert Orderly(cfg, ABDICATION[..1]);
    assert forall r <- TEAM.rows :: r.pk == 1 ==> r.role == Member;
    assert !Abdicates(TEAM, RemoveCall(1, 1, 10));
    ActiveGroupsAreLed(cfg, evs);
  }

  /** A group created by a business is open, and nobody can manage it. */
  lemma EntityGroupIsUnmanaged(cfg: Config)
    requires cfg.maxParticipants >= 1 && !cfg.blank("team")
    ensures
      var n := NewChat(Global, None, Group, Identity(Business, 0), [], "team", None, false, false, None, true, 0);
      !NeverOrphans(cfg, [CreateEvent(n)]) && !AlwaysManaged(cfg, [CreateEvent(n)])
  {
    var n := NewChat(Global, None, Group, Identity(Business, 0), [], "team", None, false, false, None, true, 0);
    var evs := [CreateEvent(n)];
    assert evs[..0] == [] && Run(cfg, evs[..0]) == EMPTY;
    assert Create(cfg, EMPTY, n).Ok?;
    assert OrphaningEvent(cfg, Run(cfg, evs[..0]), evs[0]);
    ManagedOverRuns(cfg, evs);
  }

  lemma FirstDm(cfg: Config, n: NewChat)
    requires n == GlobalDm(ALICE, BOB, None, 0)
    ensures Create(cfg, EMPTY, n).Ok?
    ensures
      var d := Create(cfg, EMPTY, n).value.0;
      |d.chats| == 1 && IsDm(d.chats[0], Global, None, ALICE, ALICE) && Takes(d.chats[0], BOB)
  {
    assert FindDm([], Global, None, ALICE, BOB) == None;
    assert Create(cfg, EMPTY, n).Ok?;
    CreatedPeople(cfg, EMPTY, n);
  }

  lemma OnlyDmIsFound(cfg: Config, d: Db, n: NewChat)
    requires |d.chats| == 1 && n == GlobalDm(ALICE, ALICE, None, 10) && IsDm(d.chats[0], Global, None, ALICE, ALICE)
    ensures Create(cfg, d, n) == Ok((d, 0))
  {
    assert d.chats[..0] == [];
    assert FindDm(d.chats[..0], Global, None, ALICE, ALICE) == None;
  }

  /** Alice's DM with Bob is what she gets when she asks for a DM with herself. */
  lemma SelfAddressedDmIsAnothers(cfg: Config)
    ensures
      var d := Run(cfg, [CreateEvent(GlobalDm(ALICE, BOB, None, 0))]);
      && Create(cfg, d, GlobalDm(ALICE, ALICE, None, 10)) == Ok((d, 0))
      && |d.chats| == 1 && Takes(d.chats[0], BOB)
  {
    var n := GlobalDm(ALICE, BOB, None, 0);
    FirstDm(cfg, n);
    RunOfOne(cfg, n);
    OnlyDmIsFound(cfg, Create(cfg, EMPTY, n).value.0, GlobalDm(ALICE, ALICE, None, 10));
  }
}
