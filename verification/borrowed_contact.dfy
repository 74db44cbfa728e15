/** Why EveryMaturationIsEarned asks that cancellations land soundly. A revocation takes a name and its partner
    in one rename, but an abandoned replacement that still names the revoked row stays behind. When its
    holder cancels that stale rename, the provider call yields; if the revoked name's cooldown is over, a
    stranger may register it meanwhile, and the cancellation then records its contact on the stranger's
    row (services/managed_dns/server.py:1114-1220, services/managed_dns/store.py:461-467). This run lets
    such a row mature with a single contact of its own. */
module BorrowedContact {
  import opened Prelude
  import opened Registrations
  import opened Protocol
  import opened Maturation
  import opened ProtocolInvariant
  import opened Scenarios
  import opened UnsoundLandings

  const SERVICE := Service(10)

  const OLD := Name("p")
  const OTHER := Name("q")
  const STALE := Name("r")

  // The rows the run passes through.
  const OLD_ROW_1 := Fresh(KEY_1, ALICE, false, 0, None)
  const OLD_ROW_2 := OLD_ROW_1.(lastContactAt := Some(0), contactStartedAt := Some(0))
  const OLD_ROW_3 := OLD_ROW_2.(status := Abandoned, releasedAt := Some(60))
  const STALE_ROW_1 := Fresh(KEY_2, ALICE, false, 0, Some(OLD))
  const STALE_ROW_2 := STALE_ROW_1.(status := Abandoned, releasedAt := Some(160))
  const OTHER_ROW_1 := Fresh(KEY_3, ALICE, false, 160, None)
  const OTHER_ROW_2 := OTHER_ROW_1.(lastContactAt := Some(160), contactStartedAt := Some(160))
  const OLD_ROW_4 := Fresh(KEY_4, ALICE, false, 160, Some(OTHER))
  const OLD_ROW_5 := Revoked160(OLD_ROW_4)
  const OTHER_ROW_3 := Revoked160(OTHER_ROW_2)
  const OLD_ROW_6 := Fresh(KEY_5, BOB, false, 260, None)
  const OLD_ROW_7 := OLD_ROW_6.(lastContactAt := Some(260), contactStartedAt := Some(260))
  const OLD_ROW_8 := OLD_ROW_7.(lastContactAt := Some(270), status := Matured, maturedAt := Some(270))

  function Revoked160(row: Row): Row {
    row.(status := Revoked, releasedAt := Some(160), revokedReason := Some("complaint"))
  }

  // The tables it passes through, and the credentials issued by then.
  const ROWS_1: Table := map[OLD := OLD_ROW_1]
  const ROWS_2: Table := map[OLD := OLD_ROW_2, STALE := STALE_ROW_1]
  const ROWS_3: Table := map[OLD := OLD_ROW_3, STALE := STALE_ROW_1]
  const ROWS_4: Table := map[OLD := OLD_ROW_3, STALE := STALE_ROW_2]
  const ROWS_5: Table := map[OLD := OLD_ROW_3, STALE := STALE_ROW_2, OTHER := OTHER_ROW_1]
  const ROWS_6: Table := map[OLD := OLD_ROW_4, STALE := STALE_ROW_2, OTHER := OTHER_ROW_2]
  const ROWS_7: Table := map[OLD := OLD_ROW_5, STALE := STALE_ROW_2, OTHER := OTHER_ROW_3]
  const ROWS_8: Table := map[OLD := OLD_ROW_5, STALE := STALE_ROW_2, OTHER := OTHER_ROW_2]
  const ROWS_9: Table := map[OLD := OLD_ROW_6, STALE := STALE_ROW_2, OTHER := OTHER_ROW_3]
  const ROWS_10: Table := map[OLD := OLD_ROW_7, OTHER := OTHER_ROW_3]
  const ROWS_11: Table := map[OLD := OLD_ROW_8, OTHER := OTHER_ROW_3]

  const STEP_0 := Register(OLD, ALICE, false, None, KEY_1, None)
  const STEP_1 := Rename(KEY_1, STALE, KEY_2)
  const STEP_2 := Tick(60)
  const STEP_3 := SweepVisit(OLD, 60)
  const STEP_4 := Tick(100)
  const STEP_5 := SweepVisit(STALE, 160)
  const STEP_6 := Resume(true, true)
  const STEP_7 := Register(OTHER, ALICE, false, None, KEY_3, None)
  const STEP_8 := Rename(KEY_3, OLD, KEY_4)
  const STEP_9 := Revoke(OLD, "complaint", None, None)
  const STEP_10 := Tick(100)
  const STEP_11 := CancelRename(KEY_2, None)
  const STEP_12 := Register(OLD, BOB, false, None, KEY_5, None)
  const STEP_13 := Resume(true, true)
  const STEP_14 := Tick(10)
  const STEP_15 := Heartbeat(KEY_5, None)

  lemma AllDiffer()
    ensures KEY_5 !in {KEY_1, KEY_2, KEY_3, KEY_4} && KEY_4 !in {KEY_1, KEY_2, KEY_3}
    ensures KEY_3 !in {KEY_1, KEY_2} && KEY_1 != KEY_2
    ensures OLD != OTHER && OLD != STALE && OTHER != STALE && ALICE != BOB
  {
    KeysDiffer();
    assert OLD.text[0] == 'p' && OTHER.text[0] == 'q' && STALE.text[0] == 'r';
  }

  lemma Begins(s: State)
    requires s == Initial(SERVICE)
    ensures Enabled(SERVICE, s, STEP_0)
    ensures At(Next(SERVICE, s, STEP_0), ROWS_1, Idle, 0, ISSUED_1, 8.0)
  {
    NobodyActive(SERVICE, s.rows, ALICE);
  }

  lemma RenamesAway(s: State)
    requires At(s, ROWS_1, Idle, 0, ISSUED_1, 8.0)
    ensures Enabled(SERVICE, s, STEP_1)
    ensures At(Next(SERVICE, s, STEP_1), ROWS_2, Idle, 0, ISSUED_2, 7.0)
  {
    hide Next, Enabled;
    AllDiffer();
    Finds(s.rows, OLD, KEY_1);
    assert ActiveNames(s.rows - {STALE}) == {OLD};
    AcceptedRename(10, s, OLD, STALE, KEY_2);
    assert SetContactWindow(s.rows - {STALE}, OLD, 0, 0)[STALE := STALE_ROW_1] == ROWS_2;
  }

  lemma LosesContact(s: State)
    requires At(s, ROWS_2, Idle, 0, ISSUED_2, 7.0)
    ensures Enabled(SERVICE, s, STEP_2)
    ensures var s2 := Next(SERVICE, s, STEP_2);
            Enabled(SERVICE, s2, STEP_3) && At(Next(SERVICE, s2, STEP_3), ROWS_3, Idle, 60, ISSUED_2, 7.0)
  {
  }

  lemma LosesReplacement(s: State)
    requires At(s, ROWS_3, Idle, 60, ISSUED_2, 7.0)
    ensures Enabled(SERVICE, s, STEP_4)
    ensures var s4 := Next(SERVICE, s, STEP_4);
            Enabled(SERVICE, s4, STEP_5)
            && var s5 := Next(SERVICE, s4, STEP_5);
            Enabled(SERVICE, s5, STEP_6) && At(Next(SERVICE, s5, STEP_6), ROWS_4, Idle, 160, ISSUED_2, 7.0)
  {
  }

  lemma RegistersAnother(s: State)
    requires At(s, ROWS_4, Idle, 160, ISSUED_2, 7.0)
    ensures Enabled(SERVICE, s, STEP_7)
    ensures At(Next(SERVICE, s, STEP_7), ROWS_5, Idle, 160, ISSUED_3, 6.0)
  {
    NobodyActive(SERVICE, s.rows, ALICE);
  }

  lemma TablesAroundRename(t: Table)
    requires t == ROWS_5
    ensures SetContactWindow(t - {OLD}, OTHER, 160, 160)[OLD := OLD_ROW_4] == ROWS_6
    ensures ActiveNames(t - {OLD}) == {OTHER} && ByCredential(t, KEY_3) == Some(OTHER) && ReplacementFor(t, OTHER).None?
    ensures forall m | m in t :: t[m].credential != KEY_4 && t[m].replacing != Some(OTHER)
  {
    AllDiffer();
    Finds(t, OTHER, KEY_3);
  }

  lemma RenamesBack(s: State)
    requires At(s, ROWS_5, Idle, 160, ISSUED_3, 6.0)
    ensures Enabled(SERVICE, s, STEP_8)
    ensures At(Next(SERVICE, s, STEP_8), ROWS_6, Idle, 160, ISSUED_4, 5.0)
  {
    AllDiffer();
    TablesAroundRename(s.rows);
    hide Next, Enabled, ActiveNames, ByCredential, ReplacementFor;
    AcceptedRename(10, s, OTHER, OLD, KEY_4);
  }

  lemma IsRevoked(s: State)
    requires At(s, ROWS_6, Idle, 160, ISSUED_4, 5.0)
    ensures Enabled(SERVICE, s, STEP_9)
    ensures At(Next(SERVICE, s, STEP_9), ROWS_7, Idle, 160, ISSUED_4, 5.0)
  {
    var targets := RevocationTargets(s.rows, OLD);
    assert targets == [Target(OLD, OLD_ROW_4), Target(OTHER, OTHER_ROW_2)];
    assert NextPublishable(targets, 2) == 2;
    assert NextPublishable(targets, 1) == 2;
    assert NextPublishable(targets, 0) == 2;
    var rest := targets[1..];
    assert rest == [Target(OTHER, OTHER_ROW_2)] && rest[1..] == [];
    var t := RevokeRow(s.rows, OLD, 160, "complaint");
    assert t == ROWS_8;
    var u := RevokeRow(t, OTHER, 160, "complaint");
    assert RevokeAll(t, rest, 160, "complaint") == RevokeAll(u, [], 160, "complaint");
    assert RevokeRow(t, OTHER, 160, "complaint") == ROWS_7;
  }

  const CANCELLING := Cancelling(STALE, OLD, OLD_ROW_5, None)

  lemma CancelsStale(s: State)
    requires At(s, ROWS_7, Idle, 160, ISSUED_4, 5.0)
    ensures Enabled(SERVICE, s, STEP_10)
    ensures var s10 := Next(SERVICE, s, STEP_10);
            && Enabled(SERVICE, s10, STEP_11)
            && At(Next(SERVICE, s10, STEP_11), ROWS_7, CANCELLING, 260, ISSUED_4, 5.0)
  {
    AllDiffer();
    Finds(s.rows, STALE, KEY_2);
  }

  lemma CooldownIsOver(s: State)
    requires At(s, ROWS_7, CANCELLING, 260, ISSUED_4, 5.0)
    ensures Enabled(SERVICE, s, STEP_12)
    ensures Next(SERVICE, s, STEP_12)
         == RegisterFresh(SERVICE, s.(rows := s.rows - {OLD}), OLD, BOB, false, KEY_5).state
  {
    hide RegisterFresh;
    AllDiffer();
  }

  lemma TablesWithoutOld(t: Table)
    requires t == ROWS_7
    ensures OLD !in t - {OLD} && (t - {OLD})[OLD := OLD_ROW_6] == ROWS_9
    ensures forall m | m in t - {OLD} :: !t[m].Active() && t[m].credential != KEY_5
  {
    AllDiffer();
  }

  lemma StrangerRegisters(s: State)
    requires At(s, ROWS_7, CANCELLING, 260, ISSUED_4, 5.0)
    ensures Enabled(SERVICE, s, STEP_12)
    ensures At(Next(SERVICE, s, STEP_12), ROWS_9, CANCELLING, 260, ISSUED_5, 4.0)
    ensures OLD in Next(SERVICE, s, STEP_12).contacts && Next(SERVICE, s, STEP_12).contacts[OLD] == []
  {
    CooldownIsOver(s);
    TablesWithoutOld(s.rows);
    hide RegisterFresh, Next, Enabled, NodeFull, AtCap;
    var s1 := s.(rows := s.rows - {OLD});
    NobodyActive(SERVICE, s1.rows, BOB);
    AcceptedRegistration(10, s1, OLD, BOB, KEY_5);
  }

  lemma CancellationLands(s: State)
    requires At(s, ROWS_9, CANCELLING, 260, ISSUED_5, 4.0)
    requires OLD in s.contacts && s.contacts[OLD] == []
    ensures Enabled(SERVICE, s, STEP_13) && !SoundLanding(SERVICE, s, STEP_13, OLD)
    ensures var s13 := Next(SERVICE, s, STEP_13);
            && At(s13, ROWS_10, Idle, 260, ISSUED_5, 4.0)
            && OLD in s13.contacts && s13.contacts[OLD] == [Contact(ALICE, 260)]
  {
    assert Next(SERVICE, s, STEP_13).rows == ROWS_10;
  }

  lemma StrangerMatures(s: State)
    requires At(s, ROWS_10, Idle, 260, ISSUED_5, 4.0)
    requires OLD in s.contacts && s.contacts[OLD] == [Contact(ALICE, 260)]
    ensures Enabled(SERVICE, s, STEP_14)
    ensures var s14 := Next(SERVICE, s, STEP_14);
            Enabled(SERVICE, s14, STEP_15)
            && var s15 := Next(SERVICE, s14, STEP_15);
            && s15.rows == ROWS_11
            && OLD in s15.contacts && s15.contacts[OLD] == [Contact(ALICE, 260), Contact(BOB, 270)]
  {
    AllDiffer();
    Finds(s.rows, OLD, KEY_5);
    HeartbeatRows(SERVICE, Next(SERVICE, s, STEP_14), KEY_5, None, OLD);
    hide HeartbeatStep;
  }

  lemma NotEarned(log: seq<Contact>)
    requires log == [Contact(ALICE, 260), Contact(BOB, 270)]
    ensures !Earned(log, BOB, SERVICE.abandonment, SERVICE.minAge, 270)
  {
  }

  /** The run from the revocation on. */
  lemma UnearnedEnd(s9: State) returns (run: seq<Action>)
    requires At(s9, ROWS_6, Idle, 160, ISSUED_4, 5.0)
    ensures Legal(SERVICE, s9, run) && Unearned(SERVICE, Run(SERVICE, s9, run), OLD)
  {
    hide Enabled, Next, At, Earned;
    IsRevoked(s9);
    var s10 := Next(SERVICE, s9, STEP_9);
    CancelsStale(s10);
    var s11 := Next(SERVICE, s10, STEP_10);
    var s12 := Next(SERVICE, s11, STEP_11);
    StrangerRegisters(s12);
    var s13 := Next(SERVICE, s12, STEP_12);
    CancellationLands(s13);
    var s14 := Next(SERVICE, s13, STEP_13);
    StrangerMatures(s14);
    var s15 := Next(SERVICE, s14, STEP_14);
    var s16 := Next(SERVICE, s15, STEP_15);
    NotEarned(s16.contacts[OLD]);
    run := Extend(SERVICE, s15, STEP_15, []);
    hide Legal, Run;
    run := Extend(SERVICE, s14, STEP_14, run);
    run := Extend(SERVICE, s13, STEP_13, run);
    run := Extend(SERVICE, s12, STEP_12, run);
    run := Extend(SERVICE, s11, STEP_11, run);
    run := Extend(SERVICE, s10, STEP_10, run);
    run := Extend(SERVICE, s9, STEP_9, run);
  }

  /** A row that matures without having earned it. */
  lemma UnearnedMaturation() returns (run: seq<Action>)
    ensures SERVICE.Valid() && Legal(SERVICE, Initial(SERVICE), run)
    ensures Unearned(SERVICE, Run(SERVICE, Initial(SERVICE), run), OLD)
  {
    hide Enabled, Next, At, Unearned, Legal, Run;
    var s0 := Initial(SERVICE);
    Begins(s0);
    var s1 := Next(SERVICE, s0, STEP_0);
    RenamesAway(s1);
    var s2 := Next(SERVICE, s1, STEP_1);
    LosesContact(s2);
    var s3 := Next(SERVICE, s2, STEP_2);
    var s4 := Next(SERVICE, s3, STEP_3);
    LosesReplacement(s4);
    var s5 := Next(SERVICE, s4, STEP_4);
    var s6 := Next(SERVICE, s5, STEP_5);
    var s7 := Next(SERVICE, s6, STEP_6);
    RegistersAnother(s7);
    var s8 := Next(SERVICE, s7, STEP_7);
    RenamesBack(s8);
    run := UnearnedEnd(Next(SERVICE, s8, STEP_8));
    run := Extend(SERVICE, s8, STEP_8, run);
    run := Extend(SERVICE, s7, STEP_7, run);
    run := Extend(SERVICE, s6, STEP_6, run);
    run := Extend(SERVICE, s5, STEP_5, run);
    run := Extend(SERVICE, s4, STEP_4, run);
    run := Extend(SERVICE, s3, STEP_3, run);
    run := Extend(SERVICE, s2, STEP_2, run);
    run := Extend(SERVICE, s1, STEP_1, run);
    run := Extend(SERVICE, s0, STEP_0, run);
  }
}
