/** Why EveryRunKeepsClaimsDistinct asks that the turn of a waiting reclaim leaves all links of renames whole, and
    not only claims distinct. After WaitingRuns.BothAreActive Alice has two unrelated names, A and B. She renames A to
    C; A loses contact and its cooldown ends while C and B live on. Then she renames B to A, so that C replaces A and
    A replaces B. When C's rename completes, A is released with its claim on B still on it. B is renamed to D, all
    lose contact, and once A is reclaimed, A and D both claim B. */
module ClaimedTwice {
  import opened Prelude
  import opened Registrations
  import opened Protocol
  import opened LaneOrder
  import opened Scenarios
  import opened WaitingRuns

  const THIRD := Name("c")
  const FOURTH := Name("d")
  const HOME := V4("192.0.2.1")

  // The rows the run passes through.
  const A_1 := ROW_3
  const A_2 := Swept(A_1, 61)
  const A_3 := Fresh(KEY_4, ALICE, false, 171, Some(SECOND))
  const A_4 := A_3.(status := Released, releasedAt := Some(171))
  const B_1 := Fresh(KEY_2, ALICE, false, 10, None)
  const B_2 := Contacted1(B_1, 61)
  const B_3 := Contacted1(B_1, 171)
  const B_4 := Swept(B_3, 222)
  const C_1 := Fresh(KEY_3, ALICE, false, 10, Some(FIRST))
  const C_2 := Contacted1(C_1, 61)
  const C_3 := Contacted1(C_1, 161)
  const C_4 := C_3.(lastContactAt := Some(171))
  const C_5 := C_4.(status := Status.Matured, maturedAt := Some(171), replacing := None, lastKnownAddress := Some(HOME))
  const C_6 := Swept(C_5, 222)
  const D_1 := Fresh(KEY_5, ALICE, false, 171, Some(SECOND))
  const D_2 := Swept(D_1, 222)

  // The tables.
  const ROWS_1: Table := map[FIRST := A_1, SECOND := B_1]
  const ROWS_2: Table := map[FIRST := A_1, SECOND := B_1, THIRD := C_1]
  const ROWS_3: Table := map[FIRST := A_1, SECOND := B_2, THIRD := C_2]
  const ROWS_4: Table := map[FIRST := A_2, SECOND := B_2, THIRD := C_2]
  const ROWS_5: Table := map[FIRST := A_2, SECOND := B_2, THIRD := C_3]
  const ROWS_6: Table := map[FIRST := A_3, SECOND := B_3, THIRD := C_3]
  const ROWS_7: Table := map[FIRST := A_4, SECOND := B_3, THIRD := C_5]
  const ROWS_8: Table := map[FIRST := A_4, SECOND := B_3, THIRD := C_5, FOURTH := D_1]
  const ROWS_9: Table := map[FIRST := A_4, SECOND := B_4, THIRD := C_6, FOURTH := D_2]

  function Contacted1(row: Row, now: Time): Row {
    row.(lastContactAt := Some(now), contactStartedAt := Some(now))
  }

  lemma AllDiffer()
    ensures FIRST != SECOND && FIRST != THIRD && SECOND != THIRD
    ensures FOURTH != FIRST && FOURTH != SECOND && FOURTH != THIRD
  {
    assert FIRST.text[0] == 'a' && SECOND.text[0] == 'b' && THIRD.text[0] == 'c' && FOURTH.text[0] == 'd';
  }

  lemma TablesAround1(t: Table)
    requires t == ROWS_1
    ensures ByCredential(t, KEY_1) == Some(FIRST) && ReplacementFor(t, FIRST).None?
    ensures |ActiveNames(t - {THIRD})| == 2
    ensures forall m | m in t ::
              t[m].credential != KEY_3 && (t[m].status.Pending? ==> t[m].replacing != Some(FIRST))
    ensures SetContactWindow(t - {THIRD}, FIRST, 10, 0)[THIRD := C_1] == ROWS_2
  {
    AllDiffer();
    KeysDiffer();
    Finds(t, FIRST, KEY_1);
    assert ActiveNames(t - {THIRD}) == {FIRST, SECOND};
  }

  /** A to C. */
  lemma RenamesFirst() returns (run: seq<Move>, s: State)
    ensures Reaches(10, run, s, []) && At(s, ROWS_2, Idle, 10, ISSUED_3, 6.0)
  {
    AllDiffer();
    KeysDiffer();
    run, s := BothAreActive(10, ALICE);
    TablesAround1(s.rows);
    hide Reaches, ReplacementFor, ActiveNames, ByCredential, SetContactWindow;
    run, s := Renames(10, run, s, FIRST, THIRD, KEY_3);
  }

  /** B and C are heard of. */
  lemma TwoAreHeard() returns (run: seq<Move>, s: State)
    ensures Reaches(10, run, s, []) && At(s, ROWS_3, Idle, 61, ISSUED_3, 6.0)
  {
    run, s := RenamesFirst();
    hide Reaches;
    run, s := TimeGoesBy(10, run, s, 51);
    TablesAround3(s.rows);
    run, s := Beats(10, run, s, THIRD);
    run, s := Beats(10, run, s, SECOND);
  }

  lemma TablesAround3(t: Table)
    requires t == ROWS_2
    ensures AfterHeartbeat(Service(10), C_1, 61) == C_2 && AfterHeartbeat(Service(10), B_1, 61) == B_2
    ensures t[THIRD := C_2][SECOND := B_2] == ROWS_3
    ensures t[SECOND] == t[THIRD := C_2][SECOND] == B_1 && t[THIRD] == C_1
    ensures ByCredential(t, KEY_3) == Some(THIRD) && ByCredential(t[THIRD := C_2], KEY_2) == Some(SECOND)
  {
    AllDiffer();
    KeysDiffer();
    Finds(t, THIRD, KEY_3);
    Finds(t[THIRD := C_2], SECOND, KEY_2);
  }

  /** A is not. */
  lemma LosesContact() returns (run: seq<Move>, s: State)
    ensures Reaches(10, run, s, []) && At(s, ROWS_4, Idle, 61, ISSUED_3, 6.0)
  {
    AllDiffer();
    run, s := TwoAreHeard();
    hide Reaches;
    run, s := IsSwept(10, run, s, FIRST);
    assert s.rows == ROWS_4;
  }

  /** The cooldown of A ends, and C goes on. */
  lemma CooldownEnds() returns (run: seq<Move>, s: State)
    ensures Reaches(10, run, s, []) && At(s, ROWS_5, Idle, 171, ISSUED_3, 6.0)
  {
    AllDiffer();
    KeysDiffer();
    run, s := LosesContact();
    hide Reaches;
    run, s := TimeGoesBy(10, run, s, 100);
    Finds(s.rows, THIRD, KEY_3);
    run, s := Beats(10, run, s, THIRD);
    assert s.rows == ROWS_5;
    run, s := TimeGoesBy(10, run, s, 10);
  }

  lemma TablesAround5(t: Table)
    requires t == ROWS_5
    ensures ByCredential(t, KEY_2) == Some(SECOND) && ReplacementFor(t, SECOND).None?
    ensures |ActiveNames(t - {FIRST})| == 2
    ensures forall m | m in t ::
              t[m].credential != KEY_4 && (t[m].status.Pending? ==> t[m].replacing != Some(SECOND))
    ensures SetContactWindow(t - {FIRST}, SECOND, 171, 171)[FIRST := A_3] == ROWS_6
  {
    AllDiffer();
    KeysDiffer();
    Finds(t, SECOND, KEY_2);
    assert ActiveNames(t - {FIRST}) == {SECOND, THIRD};
  }

  /** B to A. */
  lemma RenamesToFirst() returns (run: seq<Move>, s: State)
    ensures Reaches(10, run, s, []) && At(s, ROWS_6, Idle, 171, ISSUED_4, 5.0)
  {
    AllDiffer();
    KeysDiffer();
    run, s := CooldownEnds();
    TablesAround5(s.rows);
    hide Reaches, ReplacementFor, ActiveNames, ByCredential, SetContactWindow;
    run, s := Renames(10, run, s, SECOND, FIRST, KEY_4);
  }

  const COMPLETING := ReplacementUp(THIRD, C_3, HOME, 171)

  lemma Publishes(s: State)
    requires At(s, ROWS_6, Idle, 171, ISSUED_4, 5.0)
    ensures At(Next(Service(10), s, Heartbeat(KEY_3, Some(HOME))), ROWS_6[THIRD := C_4], COMPLETING, 171, ISSUED_4, 5.0)
  {
    AllDiffer();
    KeysDiffer();
    Finds(s.rows, THIRD, KEY_3);
  }

  lemma Completion(s: State)
    requires At(s, ROWS_6[THIRD := C_4], COMPLETING, 171, ISSUED_4, 5.0)
    ensures Enabled(Service(10), s, CALL_RETURNS)
    ensures At(Next(Service(10), s, CALL_RETURNS), ROWS_7, Idle, 171, ISSUED_4, 5.0)
  {
    AllDiffer();
    var t := SetLastKnownAddress(s.rows, THIRD, Some(HOME));
    assert t[FIRST] == A_3 && t[THIRD] == C_4.(lastKnownAddress := Some(HOME));
    assert CompleteRename(t, THIRD, FIRST, ALICE, 171) == ROWS_7;
    hide CompleteRename;
  }

  /** C's rename completes and releases the pending A. */
  lemma Completes() returns (run: seq<Move>, s: State)
    ensures Reaches(10, run, s, []) && At(s, ROWS_7, Idle, 171, ISSUED_4, 5.0)
  {
    run, s := RenamesToFirst();
    Publishes(s);
    hide Reaches, Next;
    run, s := Done(10, run, s, [], Heartbeat(KEY_3, Some(HOME)));
    Completion(s);
    run, s := Done(10, run, s, [], CALL_RETURNS);
  }

  lemma TablesAround7(t: Table)
    requires t == ROWS_7
    ensures ByCredential(t, KEY_2) == Some(SECOND) && ReplacementFor(t, SECOND).None?
    ensures |ActiveNames(t - {FOURTH})| == 2
    ensures forall m | m in t ::
              t[m].credential != KEY_5 && (t[m].status.Pending? ==> t[m].replacing != Some(SECOND))
    ensures SetContactWindow(t - {FOURTH}, SECOND, 171, 171)[FOURTH := D_1] == ROWS_8
  {
    AllDiffer();
    KeysDiffer();
    Finds(t, SECOND, KEY_2);
    assert ActiveNames(t - {FOURTH}) == {SECOND, THIRD};
  }

  /** B to D. */
  lemma RenamesSecond() returns (run: seq<Move>, s: State)
    ensures Reaches(10, run, s, []) && At(s, ROWS_8, Idle, 171, ISSUED_5, 4.0)
  {
    AllDiffer();
    KeysDiffer();
    run, s := Completes();
    TablesAround7(s.rows);
    hide Reaches, ReplacementFor, ActiveNames, ByCredential, SetContactWindow;
    run, s := Renames(10, run, s, SECOND, FOURTH, KEY_5);
  }

  /** All lose contact. */
  lemma AllAreSwept() returns (run: seq<Move>, s: State)
    ensures Reaches(10, run, s, []) && At(s, ROWS_9, Idle, 222, ISSUED_5, 4.0)
  {
    AllDiffer();
    run, s := RenamesSecond();
    hide Reaches;
    run, s := TimeGoesBy(10, run, s, 51);
    run, s := IsSwept(10, run, s, THIRD);
    run, s := IsSwept(10, run, s, SECOND);
    run, s := IsSwept(10, run, s, FOURTH);
    assert s.rows == ROWS_9;
  }

  const RECLAIM_FIRST := Register(FIRST, ALICE, false, Some(KEY_4), KEY_6, None)

  /** A is reclaimed with its own credential. */
  lemma Reclaims(s: State)
    requires At(s, ROWS_9, Idle, 222, ISSUED_5, 4.0)
    ensures Enabled(Service(10), s, RECLAIM_FIRST)
    ensures !ClaimsDistinct(Next(Service(10), s, RECLAIM_FIRST).rows)
  {
    AllDiffer();
    KeysDiffer();
    NobodyActive(Service(10), s.rows, ALICE);
    assert CanReclaim(s.rows, FIRST, false);
    var t := Next(Service(10), s, RECLAIM_FIRST).rows;
    assert t[FIRST].Claims() && t[FOURTH].Claims() && t[FIRST].replacing == t[FOURTH].replacing;
  }

  /** A run in order after which two manageable rows name the same one as replaced. */
  lemma ClaimsCollide() returns (cfg: Config, run: seq<Move>)
    ensures cfg.Valid() && InOrder(cfg, Initial(cfg), [], run)
    ensures !ClaimsDistinct(After(cfg, Initial(cfg), [], run).rows)
  {
    cfg := Service(10);
    var s: State;
    run, s := AllAreSwept();
    Reclaims(s);
    hide Next;
    run, s := Done(10, run, s, [], RECLAIM_FIRST);
  }
}
