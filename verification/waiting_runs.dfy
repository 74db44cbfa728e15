/** Runs in which the turn of a waiting reclaim breaks a promise, each in the order of the lane's lock. Alice's name
    has matured and she releases it. While the provider deletes the record, the sweep comes to its purge and waits
    for the lane. Alice asks for the name back just when the lane is free but promised to the sweep, and so her
    reclaim, whose checks have passed, waits too (services/managed_dns/server.py:791-815). */
module WaitingRuns {
  import opened Prelude
  import opened Registrations
  import opened Protocol
  import opened TableRules
  import opened LaneOrder
  import opened Scenarios

  const FIRST := Name("a")
  const SECOND := Name("b")
  const TICKET := Ticket(FIRST, KEY_1, false, None)

  // The rows Alice's name passes through.
  const ROW_1 := Fresh(KEY_1, ALICE, false, 0, None)
  const ROW_2 := ROW_1.(lastContactAt := Some(0), contactStartedAt := Some(0))
  const ROW_3 := ROW_2.(lastContactAt := Some(10), status := Matured, maturedAt := Some(10))
  const ROW_4 := ROW_3.(status := Released, releasedAt := Some(10))

  lemma NamesDiffer()
    ensures FIRST != SECOND
  {
    assert FIRST.text[0] != SECOND.text[0];
  }

  lemma HasRegistered(cap: nat) returns (run: seq<Move>, s: State)
    requires cap >= 1
    ensures Reaches(cap, run, s, []) && At(s, map[FIRST := ROW_1], Idle, 0, ISSUED_1, 8.0) && s.waiting == []
  {
    run, s := Starts(cap);
    NobodyActive(Service(cap), s.rows, ALICE);
    AcceptedRegistration(cap, s, FIRST, ALICE, KEY_1);
    assert s.rows[FIRST := ROW_1] == map[FIRST := ROW_1];
    run, s := Done(cap, run, s, [], Register(FIRST, ALICE, false, None, KEY_1, None));
  }

  lemma HasMatured(cap: nat) returns (run: seq<Move>, s: State)
    requires cap >= 1
    ensures Reaches(cap, run, s, []) && At(s, map[FIRST := ROW_3], Idle, 10, ISSUED_1, 8.0) && s.waiting == []
  {
    run, s := HasRegistered(cap);
    Finds(s.rows, FIRST, KEY_1);
    run, s := Beats(cap, run, s, FIRST);
    assert s.rows == map[FIRST := ROW_2];
    run, s := TimeGoesBy(cap, run, s, 10);
    Finds(s.rows, FIRST, KEY_1);
    run, s := Beats(cap, run, s, FIRST);
    assert s.rows == map[FIRST := ROW_3];
  }

  lemma Releases(cap: nat, s: State)
    requires At(s, map[FIRST := ROW_3], Idle, 10, ISSUED_1, 8.0)
    ensures var s1 := Next(Service(cap), s, Release(KEY_1));
            && At(s1, map[FIRST := ROW_3], Releasing(FIRST), 10, ISSUED_1, 8.0)
            && Enabled(Service(cap), s1, CALL_RETURNS)
            && At(Next(Service(cap), s1, CALL_RETURNS), map[FIRST := ROW_4], Idle, 10, ISSUED_1, 8.0)
  {
    Finds(s.rows, FIRST, KEY_1);
    assert ReplacementFor(s.rows, FIRST).None?;
    hide ReplacementFor, ByCredential;
  }

  /** The name is released, and the sweep's purge comes next. */
  lemma PurgeIsNext(cap: nat) returns (run: seq<Move>, s: State)
    requires cap >= 1
    ensures Reaches(cap, run, s, [Sweep])
    ensures At(s, map[FIRST := ROW_4], Idle, 10, ISSUED_1, 8.0) && s.waiting == []
  {
    run, s := HasMatured(cap);
    Releases(cap, s);
    hide Next, Reaches;
    run, s := Done(cap, run, s, [], Release(KEY_1));
    run := Joined(cap, run, s, [], Sweep);
    assert [] + [Sweep] == [Sweep];
    run, s := Done(cap, run, s, [Sweep], CALL_RETURNS);
  }

  /** Alice's reclaim waits behind whoever waits. */
  lemma ReclaimWaits(cap: nat, before: seq<Move>, s: State, queue: seq<Waiter>) returns (run: seq<Move>, s': State)
    requires cap >= 1 && Reaches(cap, before, s, queue) && queue != []
    requires At(s, map[FIRST := ROW_4], Idle, 10, ISSUED_1, 8.0) && s.waiting == []
    ensures Reaches(cap, run, s', queue + [Reclaim])
    ensures At(s', map[FIRST := ROW_4], Idle, 10, ISSUED_1, 8.0) && s'.waiting == [TICKET]
  {
    NobodyActive(Service(cap), s.rows, ALICE);
    hide Reaches;
    run, s' := Done(cap, before, s, queue, Wait(TICKET));
  }

  /** The purge finds nothing to delete. */
  lemma Purges(cap: nat, before: seq<Move>, s: State, rest: seq<Waiter>) returns (run: seq<Move>, s': State)
    requires Reaches(cap, before, s, [Sweep] + rest) && s.lane.Idle? && s.now == 10
    requires s.bucket.lastRefill <= 10
    requires forall m | m in s.rows && s.rows[m].releasedAt.Some? :: s.rows[m].releasedAt.value == 10
    ensures Reaches(cap, run, s', rest) && s'.waiting == s.waiting
    ensures At(s', s.rows, Idle, 10, s.issued, s.bucket.tokens)
  {
    hide Reaches;
    assert DeleteExpired(s.rows, 10 - 100) == s.rows;
    run, s' := Done(cap, before, s, [Sweep] + rest, Purge(10));
    assert ([Sweep] + rest)[1..] == rest;
  }

  // ---- the caps ----

  /** `node` registers another name before the reclaim has its turn. */
  lemma RegistrationInBetween(cap: nat, node: Node) returns (run: seq<Move>, s: State)
    requires cap >= 1
    ensures Reaches(cap, run, s, [Reclaim]) && s.waiting == [TICKET]
    ensures At(s, map[FIRST := ROW_4, SECOND := Fresh(KEY_2, node, false, 10, None)], Idle, 10, ISSUED_2, 7.0)
  {
    NamesDiffer();
    KeysDiffer();
    run, s := PurgeIsNext(cap);
    run, s := ReclaimWaits(cap, run, s, [Sweep]);
    assert [Sweep] + [Reclaim] == [Sweep, Reclaim];
    NobodyActive(Service(cap), s.rows, node);
    AcceptedRegistration(cap, s, SECOND, node, KEY_2);
    hide Reaches;
    assert s.rows[SECOND := Fresh(KEY_2, node, false, 10, None)]
        == map[FIRST := ROW_4, SECOND := Fresh(KEY_2, node, false, 10, None)];
    assert s.issued + {KEY_2} == ISSUED_2;
    run, s := Done(cap, run, s, [Sweep, Reclaim], Register(SECOND, node, false, None, KEY_2, None));
    run, s := Purges(cap, run, s, [Reclaim]);
  }

  /** Then the reclaim has its turn. */
  lemma BothAreActive(cap: nat, node: Node) returns (run: seq<Move>, s: State)
    requires cap >= 1
    ensures Reaches(cap, run, s, []) && s.waiting == []
    ensures At(s, map[FIRST := ROW_3, SECOND := Fresh(KEY_2, node, false, 10, None)], Idle, 10, ISSUED_2, 7.0)
  {
    NamesDiffer();
    run, s := RegistrationInBetween(cap, node);
    hide Reaches;
    run, s := Done(cap, run, s, [Reclaim], RunWaiting);
    assert [Reclaim][1..] == [];
    assert s.rows == map[FIRST := ROW_3, SECOND := Fresh(KEY_2, node, false, 10, None)];
  }

  /** A run that exceeds the cumulative cap. */
  lemma CapExceeded() returns (cfg: Config, run: seq<Move>)
    ensures cfg.Valid() && InOrder(cfg, Initial(cfg), [], run)
    ensures |ActiveNames(After(cfg, Initial(cfg), [], run).rows)| > cfg.cumulativeCap
  {
    cfg := Service(1);
    var s: State;
    run, s := BothAreActive(1, BOB);
    NamesDiffer();
    assert ActiveNames(s.rows) == {FIRST, SECOND};
  }

  /** A run that leaves one node with two active rows that are no rename. */
  lemma NodeCapBroken() returns (cfg: Config, run: seq<Move>)
    ensures cfg.Valid() && InOrder(cfg, Initial(cfg), [], run)
    ensures !NodeCap(After(cfg, Initial(cfg), [], run).rows, ALICE)
  {
    cfg := Service(3);
    var s: State;
    run, s := BothAreActive(3, ALICE);
    NamesDiffer();
    hide NodeCap;
    UnrelatedPair(s.rows);
  }

  lemma UnrelatedPair(t: Table)
    requires FIRST in t && t[FIRST].Active() && t[FIRST].node == ALICE && t[FIRST].replacing.None?
    requires SECOND in t && t[SECOND].Active() && t[SECOND].node == ALICE && t[SECOND].replacing.None?
    ensures !NodeCap(t, ALICE)
  {
    NamesDiffer();
    assert FIRST in ActiveNamesOf(t, ALICE) && SECOND in ActiveNamesOf(t, ALICE);
  }

  // ---- revocation ----

  /** A revocation of the name comes in before the reclaim, and waits behind the sweep as well. */
  lemma RevocationFirst() returns (run: seq<Move>, s: State)
    ensures Reaches(3, run, s, [Handler, Reclaim]) && s.waiting == [TICKET]
    ensures At(s, map[FIRST := ROW_4], Idle, 10, ISSUED_1, 8.0)
  {
    run, s := PurgeIsNext(3);
    run := Joined(3, run, s, [Sweep], Handler);
    assert [Sweep] + [Handler] == [Sweep, Handler];
    run, s := ReclaimWaits(3, run, s, [Sweep, Handler]);
    assert [Sweep, Handler] + [Reclaim] == [Sweep] + [Handler, Reclaim];
    run, s := Purges(3, run, s, [Handler, Reclaim]);
  }

  lemma Revocation(s: State)
    requires At(s, map[FIRST := ROW_4], Idle, 10, ISSUED_1, 8.0)
    ensures var s1 := Next(Service(3), s, Revoke(FIRST, "complaint", None, None));
            && s1.lane.Idle? && FIRST in s1.rows && s1.rows[FIRST].status.Revoked?
            && s1.rows[FIRST].credential == KEY_1 && s1.rows[FIRST].replacing.None?
  {
    var targets := RevocationTargets(s.rows, FIRST);
    assert targets == [Target(FIRST, ROW_4)];
    assert NextPublishable(targets, 1) == 1;
    assert NextPublishable(targets, 0) == 1;
    assert targets[1..] == [];
    var t := RevokeRow(s.rows, FIRST, 10, "complaint");
    assert RevokeAll(s.rows, targets, 10, "complaint") == RevokeAll(t, [], 10, "complaint");
    assert Next(Service(3), s, Revoke(FIRST, "complaint", None, None)).rows == t;
  }

  /** The reclaim's turn brings a revoked row back. */
  lemma RevokedTurn(cfg: Config, s: State)
    requires s.lane.Idle? && s.waiting == [TICKET]
    requires FIRST in s.rows && s.rows[FIRST].status.Revoked? && s.rows[FIRST].credential == KEY_1
    requires s.rows[FIRST].replacing.None?
    ensures Enabled(cfg, s, RunWaiting)
    ensures var t := Next(cfg, s, RunWaiting).rows; FIRST in t && t[FIRST].Active() && t[FIRST].credential == KEY_1
  {
  }

  lemma Reached(cap: nat, run: seq<Move>, s: State, queue: seq<Waiter>)
    requires Reaches(cap, run, s, queue)
    ensures InOrder(Service(cap), Initial(Service(cap)), [], run)
    ensures After(Service(cap), Initial(Service(cap)), [], run) == s
  {
  }

  /** A run in which a revoked row becomes active again: it is revoked after `before`, and active with the same
      credential a move later. */
  lemma RevokedRowReturns() returns (cfg: Config, before: seq<Move>, run: seq<Move>)
    ensures cfg.Valid() && before < run
    ensures InOrder(cfg, Initial(cfg), [], before) && InOrder(cfg, Initial(cfg), [], run)
    ensures var s, t := After(cfg, Initial(cfg), [], before), After(cfg, Initial(cfg), [], run);
            && FIRST in s.rows && s.rows[FIRST].status.Revoked?
            && FIRST in t.rows && t.rows[FIRST].Active() && t.rows[FIRST].credential == s.rows[FIRST].credential
  {
    cfg := Service(3);
    var early, s0 := RevocationFirst();
    Revocation(s0);
    hide Next, Reaches;
    var s1, s2;
    before, s1 := Done(3, early, s0, [Handler, Reclaim], Revoke(FIRST, "complaint", None, None));
    assert [Handler, Reclaim][1..] == [Reclaim];
    RevokedTurn(cfg, s1);
    run, s2 := Done(3, before, s1, [Reclaim], RunWaiting);
    Reached(3, before, s1, [Reclaim]);
    Reached(3, run, s2, []);
  }
}
