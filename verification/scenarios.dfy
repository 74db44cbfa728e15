/** Vocabulary and single steps for concrete runs of the managed-DNS service. */
module Scenarios {
  import opened Prelude
  import opened Registrations
  import opened RateLimit
  import opened Protocol
  import opened ProtocolInvariant
  import opened LaneOrder

  /** A service with a full bucket of nine tokens that never refills. */
  function Service(cap: nat): Config {
    Config(10, 100, 50, cap, Limits(9.0, 0.0))
  }

  const ALICE := Node("alice")
  const BOB := Node("bob")
  const KEY_1 := Credential("1")
  const KEY_2 := Credential("2")
  const KEY_3 := Credential("3")
  const KEY_4 := Credential("4")
  const KEY_5 := Credential("5")
  const KEY_6 := Credential("6")

  const ISSUED_1 := {KEY_1}
  const ISSUED_2 := {KEY_1, KEY_2}
  const ISSUED_3 := {KEY_1, KEY_2, KEY_3}
  const ISSUED_4 := {KEY_1, KEY_2, KEY_3, KEY_4}
  const ISSUED_5 := {KEY_1, KEY_2, KEY_3, KEY_4, KEY_5}

  const CALL_RETURNS := Resume(true, true)

  /** What matters of a state of a run; the bucket still holds `tokens`. */
  ghost predicate At(s: State, rows: Table, lane: Flight, now: Time, issued: set<Credential>, tokens: real) {
    && s.rows == rows && s.lane == lane && s.now == now && s.issued == issued
    && s.bucket.tokens == tokens && s.bucket.lastRefill <= now
  }

  lemma KeysDiffer()
    ensures KEY_6 !in {KEY_1, KEY_2, KEY_3, KEY_4, KEY_5}
    ensures KEY_5 !in {KEY_1, KEY_2, KEY_3, KEY_4} && KEY_4 !in {KEY_1, KEY_2, KEY_3}
    ensures KEY_3 !in {KEY_1, KEY_2} && KEY_1 != KEY_2
    ensures ALICE != BOB
  {
    var texts := ["1", "2", "3", "4", "5", "6"];
    assert forall i, j | 0 <= i < j < 6 :: texts[i][0] != texts[j][0];
    assert ALICE.fingerprint[0] != BOB.fingerprint[0];
  }

  /** The row with a credential is the one a lookup finds. */
  lemma Finds(t: Table, n: Name, c: Credential)
    requires n in t && t[n].credential == c
    requires forall m | m in t && m != n :: t[m].credential != c
    ensures ByCredential(t, c) == Some(n)
  {
  }

  lemma NobodyActive(cfg: Config, t: Table, node: Node)
    requires cfg.cumulativeCap > 0 && forall m | m in t :: !t[m].Active()
    ensures !NodeFull(t, node) && !AtCap(cfg, t)
  {
    assert ActiveNames(t) == {} && ActiveNamesOf(t, node) == {};
  }

  // ---- accepted requests ----

  /** Registering a free name with room everywhere. */
  lemma AcceptedRegistration(cap: nat, s: State, n: Name, node: Node, secret: Credential)
    requires n !in s.rows && !NodeFull(s.rows, node) && !AtCap(Service(cap), s.rows)
    requires s.bucket.lastRefill <= s.now && 1.0 <= s.bucket.tokens <= 9.0
    requires forall m | m in s.rows :: s.rows[m].credential != secret
    ensures var s1 := RegisterFresh(Service(cap), s, n, node, false, secret).state;
            && At(s1, s.rows[n := Fresh(secret, node, false, s.now, None)], s.lane, s.now, s.issued + {secret},
                  s.bucket.tokens - 1.0)
            && s1.contacts == s.contacts[n := []]
  {
  }

  lemma FreshRename(cap: nat, s: State, current: Name, n: Name, secret: Credential)
    requires s.lane.Idle? && current in s.rows && n != current
    requires n in s.rows ==> !s.rows[n].Active() && s.rows[n].Expired(100, s.now)
    requires s.bucket.lastRefill <= s.now && 1.0 <= s.bucket.tokens <= 9.0 && secret !in s.issued
    requires |ActiveNames(s.rows - {n})| < cap
    requires forall m | m in s.rows ::
               s.rows[m].credential != secret && (s.rows[m].status.Pending? ==> s.rows[m].replacing != Some(current))
    ensures var cfg := Service(cap);
            var row := s.rows[current];
            var contacted := SetContactWindow(s.rows - {n}, current, s.now, ContactStart(cfg, row, s.now));
            At(RenameFresh(cfg, s, current, row, n, secret).state,
               contacted[n := Fresh(secret, row.node, row.dynamic, s.now, Some(current))],
               Idle, s.now, s.issued + {secret}, s.bucket.tokens - 1.0)
  {
    hide ContactStart, ActiveNames;
  }

  /** A rename to a name that is free or past its cooldown. */
  lemma AcceptedRename(cap: nat, s: State, current: Name, n: Name, secret: Credential)
    requires s.lane.Idle? && current in s.rows && ByCredential(s.rows, s.rows[current].credential) == Some(current)
    requires s.rows[current].Active() && s.rows[current].replacing.None? && n != current
    requires ReplacementFor(s.rows, current).None?
    requires n in s.rows ==> !s.rows[n].Active() && s.rows[n].Expired(100, s.now)
    requires s.bucket.lastRefill <= s.now && 1.0 <= s.bucket.tokens <= 9.0 && secret !in s.issued
    requires |ActiveNames(s.rows - {n})| < cap
    requires forall m | m in s.rows ::
               s.rows[m].credential != secret && (s.rows[m].status.Pending? ==> s.rows[m].replacing != Some(current))
    ensures var cfg := Service(cap);
            var a := Rename(s.rows[current].credential, n, secret);
            && Enabled(cfg, s, a)
            && var row := s.rows[current];
            var contacted := SetContactWindow(s.rows - {n}, current, s.now, ContactStart(cfg, row, s.now));
            At(Next(cfg, s, a), contacted[n := Fresh(secret, row.node, row.dynamic, s.now, Some(current))],
               Idle, s.now, s.issued + {secret}, s.bucket.tokens - 1.0)
  {
    FreshRename(cap, s, current, n, secret);
    hide RenameFresh, ContactStart, At, ActiveNames;
  }

  function AfterHeartbeat(cfg: Config, row: Row, now: Time): Row {
    var x := ContactedCopy(cfg, row, now);
    if x.status.Pending? && x.replacing.None? && now - x.contactStartedAt.value >= cfg.minAge
    then x.(status := Matured, maturedAt := Some(now)) else x
  }

  /** A heartbeat of the row `n`, from no known address. */
  lemma AcceptedHeartbeat(cfg: Config, s: State, n: Name)
    requires s.lane.Idle? && s.bucket.lastRefill <= s.now
    requires n in s.rows && s.rows[n].Active() && ByCredential(s.rows, s.rows[n].credential) == Some(n)
    ensures At(Next(cfg, s, Heartbeat(s.rows[n].credential, None)),
               s.rows[n := AfterHeartbeat(cfg, s.rows[n], s.now)], Idle, s.now, s.issued, s.bucket.tokens)
  {
    HeartbeatRows(cfg, s, s.rows[n].credential, None, n);
    hide ContactStart;
  }

  predicate Stale(cfg: Config, row: Row, now: Time) {
    row.Active() && row.LatestContact() < now - cfg.abandonment
  }

  function Swept(row: Row, now: Time): Row {
    row.(status := Abandoned, releasedAt := Some(now))
  }

  /** The sweep abandons a stale row that may have a record. */
  lemma SweptWithCall(cfg: Config, s: State, n: Name)
    requires s.lane.Idle? && s.bucket.lastRefill <= s.now && n in s.rows && Stale(cfg, s.rows[n], s.now)
    requires s.rows[n].status.Matured? || s.rows[n].replacing.Some?
    ensures var s1 := Next(cfg, s, SweepVisit(n, s.now));
            && Enabled(cfg, s1, CALL_RETURNS)
            && At(Next(cfg, s1, CALL_RETURNS), s.rows[n := Swept(s.rows[n], s.now)], Idle, s.now, s.issued,
                  s.bucket.tokens)
  {
  }

  /** The sweep abandons a stale row that cannot have one. */
  lemma SweptAtOnce(cfg: Config, s: State, n: Name)
    requires s.lane.Idle? && s.bucket.lastRefill <= s.now && n in s.rows && Stale(cfg, s.rows[n], s.now)
    requires s.rows[n].status.Pending? && s.rows[n].replacing.None? && s.rows[n].lastKnownAddress.None?
    ensures At(Next(cfg, s, SweepVisit(n, s.now)), s.rows[n := Swept(s.rows[n], s.now)], Idle, s.now, s.issued,
               s.bucket.tokens)
  {
  }

  /** Going on with a run. */
  lemma Extend(cfg: Config, s: State, a: Action, rest: seq<Action>) returns (run: seq<Action>)
    requires Enabled(cfg, s, a) && Legal(cfg, Next(cfg, s, a), rest)
    ensures Legal(cfg, s, run)
    ensures Run(cfg, s, run) == Run(cfg, Next(cfg, s, a), rest)
  {
    run := [a] + rest;
    StepThen(cfg, s, a, rest);
  }

  // ---- runs in order, from the beginning, move by move ----

  /** The run is in order and ends in `s`, with `queue` waiting for the lane. */
  ghost predicate Reaches(cap: nat, run: seq<Move>, s: State, queue: seq<Waiter>) {
    var cfg := Service(cap);
    && InOrder(cfg, Initial(cfg), [], run)
    && After(cfg, Initial(cfg), [], run) == s && QueueAfter(cfg, Initial(cfg), [], run) == queue
  }

  lemma Starts(cap: nat) returns (run: seq<Move>, s: State)
    ensures Reaches(cap, run, s, []) && s == Initial(Service(cap))
  {
    run, s := [], Initial(Service(cap));
  }

  lemma Joined(cap: nat, run: seq<Move>, s: State, queue: seq<Waiter>, waiter: Waiter) returns (longer: seq<Move>)
    requires Reaches(cap, run, s, queue) && MayJoin(s, queue, waiter)
    ensures Reaches(cap, longer, s, queue + [waiter])
  {
    longer := Waits(Service(cap), run, waiter);
  }

  lemma Done(cap: nat, run: seq<Move>, s: State, queue: seq<Waiter>, a: Action)
    returns (longer: seq<Move>, s': State)
    requires Reaches(cap, run, s, queue) && Enabled(Service(cap), s, a) && InTurn(Service(cap), s, queue, a)
    ensures s' == Next(Service(cap), s, a) && Reaches(cap, longer, s', Remaining(s, queue, a))
    ensures !a.Wait? && !a.RunWaiting? && !a.Restart? ==> s'.waiting == s.waiting
    ensures longer == run + [Act(a)]
  {
    longer := Acts(Service(cap), run, a);
    s' := Next(Service(cap), s, a);
    if !a.Wait? && !a.RunWaiting? && !a.Restart? {
      TicketsStay(Service(cap), s, a);
    }
  }

  /** Only waiting, its end and a restart change the tickets that wait. */
  lemma TicketsStay(cfg: Config, s: State, a: Action)
    requires Enabled(cfg, s, a) && !a.Wait? && !a.RunWaiting? && !a.Restart?
    ensures Next(cfg, s, a).waiting == s.waiting
  {
    hide RegisterStep, ReclaimRouteStep, HeartbeatStep, RenameStep, CancelRenameStep, ReleaseStep, RevokeStep,
         SweepStep, Continue;
  }

  lemma TimeGoesBy(cap: nat, run: seq<Move>, s: State, elapsed: nat) returns (longer: seq<Move>, s': State)
    requires Reaches(cap, run, s, []) && s.bucket.lastRefill <= s.now
    ensures Reaches(cap, longer, s', []) && s'.waiting == s.waiting
    ensures At(s', s.rows, s.lane, s.now + elapsed, s.issued, s.bucket.tokens)
  {
    hide Reaches;
    longer, s' := Done(cap, run, s, [], Tick(elapsed));
  }

  lemma Beats(cap: nat, run: seq<Move>, s: State, n: Name) returns (longer: seq<Move>, s': State)
    requires Reaches(cap, run, s, []) && s.lane.Idle? && s.bucket.lastRefill <= s.now
    requires n in s.rows && s.rows[n].Active() && ByCredential(s.rows, s.rows[n].credential) == Some(n)
    ensures Reaches(cap, longer, s', []) && s'.waiting == s.waiting
    ensures At(s', s.rows[n := AfterHeartbeat(Service(cap), s.rows[n], s.now)], Idle, s.now, s.issued, s.bucket.tokens)
  {
    hide Reaches, Next, AfterHeartbeat;
    AcceptedHeartbeat(Service(cap), s, n);
    longer, s' := Done(cap, run, s, [], Heartbeat(s.rows[n].credential, None));
  }

  lemma IsSwept(cap: nat, run: seq<Move>, s: State, n: Name) returns (longer: seq<Move>, s': State)
    requires Reaches(cap, run, s, []) && s.lane.Idle? && s.bucket.lastRefill <= s.now
    requires n in s.rows && Stale(Service(cap), s.rows[n], s.now)
    requires s.rows[n].status.Matured? || s.rows[n].replacing.Some? || s.rows[n].lastKnownAddress.None?
    ensures Reaches(cap, longer, s', []) && s'.waiting == s.waiting
    ensures At(s', s.rows[n := Swept(s.rows[n], s.now)], Idle, s.now, s.issued, s.bucket.tokens)
  {
    hide Reaches, Next;
    longer, s' := Done(cap, run, s, [], SweepVisit(n, s.now));
    if s.rows[n].status.Matured? || s.rows[n].replacing.Some? {
      SweptWithCall(Service(cap), s, n);
      longer, s' := Done(cap, longer, s', [], CALL_RETURNS);
    } else {
      SweptAtOnce(Service(cap), s, n);
    }
  }

  lemma Renames(cap: nat, run: seq<Move>, s: State, current: Name, n: Name, secret: Credential)
    returns (longer: seq<Move>, s': State)
    requires Reaches(cap, run, s, []) && s.lane.Idle?
    requires current in s.rows && ByCredential(s.rows, s.rows[current].credential) == Some(current)
    requires s.rows[current].Active() && s.rows[current].replacing.None? && n != current
    requires ReplacementFor(s.rows, current).None?
    requires n in s.rows ==> !s.rows[n].Active() && s.rows[n].Expired(100, s.now)
    requires s.bucket.lastRefill <= s.now && 1.0 <= s.bucket.tokens <= 9.0 && secret !in s.issued
    requires |ActiveNames(s.rows - {n})| < cap
    requires forall m | m in s.rows ::
               s.rows[m].credential != secret && (s.rows[m].status.Pending? ==> s.rows[m].replacing != Some(current))
    ensures Reaches(cap, longer, s', []) && s'.waiting == s.waiting
    ensures var row := s.rows[current];
            var contacted := SetContactWindow(s.rows - {n}, current, s.now, ContactStart(Service(cap), row, s.now));
            At(s', contacted[n := Fresh(secret, row.node, row.dynamic, s.now, Some(current))],
               Idle, s.now, s.issued + {secret}, s.bucket.tokens - 1.0)
  {
    hide Reaches, Next, ActiveNames;
    AcceptedRename(cap, s, current, n, secret);
    longer, s' := Done(cap, run, s, [], Rename(s.rows[current].credential, n, secret));
  }
}
