/** The admission rate: in any stretch of any run, the rows inserted number at most the capacity of the
    bucket plus its rate times the time that passed, whatever crashes and restarts fall in between. */
module AdmissionRate {
  import opened Prelude
  import opened Registrations
  import opened RateLimit
  import opened Protocol
  import opened ProtocolInvariant
  import opened ProtocolRuns
  import A = Answers

  /** The bucket in memory and the persisted one hold the same at any instant from now on; nothing
      persisted means that nothing was ever spent. */
  ghost predicate BucketOk(cfg: Config, s: State) {
    && s.bucket.Valid(cfg.limits, s.now)
    && match s.saved
       case None => Level(cfg.limits, s.bucket, s.now) == cfg.limits.capacity
       case Some(saved) => saved.Valid(cfg.limits, s.now)
                           && Level(cfg.limits, saved, s.now) == Level(cfg.limits, s.bucket, s.now)
  }

  function Credit(cfg: Config, s: State): real {
    Level(cfg.limits, s.bucket, s.now)
  }

  /** What the bucket earns over a stretch of time. */
  function Earnings(limits: Limits, elapsed: int): real {
    elapsed as real * limits.rate
  }

  lemma EarningsAdd(limits: Limits, a: int, b: int)
    ensures Earnings(limits, a + b) == Earnings(limits, a) + Earnings(limits, b)
    ensures Earnings(limits, 0) == 0.0
  {
    Distributes(a as real, b as real, limits.rate);
    assert (a + b) as real == a as real + b as real;
  }

  /** What a stretch of a run owes: rows inserted and credit left do not exceed the credit before and
      the earnings. */
  ghost predicate PaidFor(cfg: Config, s: State, s': State) {
    && s.now <= s'.now
    && s'.admitted as real + Credit(cfg, s')
       <= s.admitted as real + Credit(cfg, s) + Earnings(cfg.limits, s'.now - s.now)
  }

  lemma SpendSpends(cfg: Config, s: State)
    requires cfg.Valid() && BucketOk(cfg, s)
    ensures BucketOk(cfg, Spend(cfg, s))
    ensures Credit(cfg, Spend(cfg, s)) == Credit(cfg, s) - if Allows(cfg.limits, s.bucket, s.now) then 1.0 else 0.0
  {
    LevelInRange(cfg.limits, s.bucket, s.now);
  }

  lemma RestartKeepsCredit(cfg: Config, s: State)
    requires cfg.Valid() && BucketOk(cfg, s)
    ensures BucketOk(cfg, Restarted(cfg, s)) && Credit(cfg, Restarted(cfg, s)) == Credit(cfg, s)
  {
    if s.saved.Some? {
      assert Started(cfg.limits, s.saved, s.now) == s.saved.value;
    }
  }

  lemma TickEarns(cfg: Config, s: State, elapsed: nat)
    requires cfg.Valid() && BucketOk(cfg, s)
    ensures var s' := s.(now := s.now + elapsed);
            && BucketOk(cfg, s')
            && Credit(cfg, s') <= Credit(cfg, s) + Earnings(cfg.limits, elapsed)
  {
    var now := s.now + elapsed;
    LevelGrowth(cfg.limits, s.bucket, s.now, now);
    RefillTwice(cfg.limits, s.bucket, s.now, now);
    if s.saved.Some? {
      RefillTwice(cfg.limits, s.saved.value, s.now, now);
    } else {
      FullStaysFull(cfg.limits, s.bucket, s.now, now);
    }
  }

  lemma FullStaysFull(limits: Limits, b: Bucket, middle: int, now: int)
    requires limits.Valid() && b.Valid(limits, middle) && middle <= now
    requires Level(limits, b, middle) == limits.capacity
    ensures Level(limits, b, now) == limits.capacity
  {
    RefillTwice(limits, b, middle, now);
    Nonnegative((now - middle) as real, limits.rate);
  }

  lemma SpentCosts(cfg: Config, s: State, s': State)
    requires cfg.Valid() && BucketOk(cfg, s) && s'.now == s.now && (Unspent(s, s') || Spent(cfg, s, s'))
    ensures BucketOk(cfg, s') && PaidFor(cfg, s, s')
  {
    SpendSpends(cfg, s);
    EarningsAdd(cfg.limits, 0, 0);
    hide Refill, Earnings;
  }

  lemma RestartPays(cfg: Config, s: State, s1: State, spent: bool)
    requires cfg.Valid() && BucketOk(cfg, s) && s1.now == s.now && Unspent(s, s1)
    ensures var s' := Restarted(cfg, if spent then Spend(cfg, s1) else s1);
            BucketOk(cfg, s') && PaidFor(cfg, s, s')
  {
    SpendSpends(cfg, s1);
    RestartKeepsCredit(cfg, if spent then Spend(cfg, s1) else s1);
    EarningsAdd(cfg.limits, 0, 0);
    hide Refill, Earnings, Started;
  }

  /** Every row an action inserts is paid for with one token. */
  lemma StepPays(cfg: Config, s: State, a: Action)
    requires cfg.Valid() && BucketOk(cfg, s) && Enabled(cfg, s, a)
    ensures BucketOk(cfg, Next(cfg, s, a)) && PaidFor(cfg, s, Next(cfg, s, a))
  {
    hide RegisterStep, ReclaimRouteStep, HeartbeatStep, RenameStep, CancelRenameStep, ReleaseStep, RevokeStep,
         SweepStep, Continue, BucketOk, Earnings, Refill, Level, Credit;
    var s' := Next(cfg, s, a);
    match a {
      case Tick(elapsed) => TickEarns(cfg, s, elapsed);
      case Restart(applied, spent) => RestartPays(cfg, s, if applied then AfterCall(s, true) else s, spent);
      case _ => SpentCosts(cfg, s, s');
    }
  }

  lemma PaidForTwice(cfg: Config, s: State, s1: State, s2: State)
    requires PaidFor(cfg, s, s1) && PaidFor(cfg, s1, s2)
    ensures PaidFor(cfg, s, s2)
  {
    EarningsAdd(cfg.limits, s1.now - s.now, s2.now - s1.now);
    hide Earnings, Credit;
  }

  lemma {:induction false} RunPays(cfg: Config, s: State, run: seq<Action>)
    requires cfg.Valid() && BucketOk(cfg, s) && Legal(cfg, s, run)
    ensures BucketOk(cfg, Run(cfg, s, run)) && PaidFor(cfg, s, Run(cfg, s, run))
    decreases |run|
  {
    hide BucketOk, PaidFor;
    if run == [] {
      SpentCosts(cfg, s, s);
    } else {
      var s1 := Next(cfg, s, run[0]);
      StepPays(cfg, s, run[0]);
      RunPays(cfg, s1, run[1..]);
      PaidForTwice(cfg, s, s1, Run(cfg, s1, run[1..]));
    }
  }

  lemma InitialBucketOk(cfg: Config)
    requires cfg.Valid()
    ensures BucketOk(cfg, Initial(cfg))
  {
  }

  lemma StretchIsBounded(cfg: Config, s: State, s': State)
    requires cfg.Valid() && BucketOk(cfg, s) && BucketOk(cfg, s') && PaidFor(cfg, s, s')
    ensures s'.admitted as real - s.admitted as real
            <= cfg.limits.capacity + Earnings(cfg.limits, s'.now - s.now)
  {
    LevelInRange(cfg.limits, s.bucket, s.now);
    LevelInRange(cfg.limits, s'.bucket, s'.now);
    hide Level, Earnings;
  }

  // ---- the rows that are counted ----

  /** The rows an action inserts: their credentials are new, and nobody has contacted them. */
  ghost function Inserted(s: State, s': State): set<Name> {
    set n | n in s'.rows && s'.rows[n].credential !in s.issued && s'.rows[n].lastContactAt.None?
  }

  ghost predicate Known(t: Table, issued: set<Credential>) {
    forall n | n in t :: t[n].credential in issued
  }

  lemma CoreKnown(w: Promises, cfg: Config, s: State)
    requires Core(w, cfg, s)
    ensures Known(s.rows, s.issued)
  {
    forall n | n in s.rows
      ensures s.rows[n].credential in s.issued
    {
      RowFacts(w, cfg, s, n);
    }
  }

  /** The action inserts nothing, or the row under `n` alone, and counts it. */
  ghost predicate Counts(s: State, s': State, n: Name) {
    || (s'.admitted == s.admitted && Inserted(s, s') == {})
    || (s'.admitted == s.admitted + 1 && Inserted(s, s') == {n})
  }

  /** Only a registration or a rename issues a credential. */
  lemma NothingIssued(cfg: Config, s: State, a: Action)
    requires Enabled(cfg, s, a) && !a.Register? && !a.Rename?
    ensures Next(cfg, s, a).issued == s.issued && Next(cfg, s, a).admitted == s.admitted
  {
    hide Continue, AtCap, NodeFull, CanReclaim, ContactStart, PublishIfDue, ReviveRefusal, RevokeAll, Refill,
         RevocationTargets;
    if a.Resume? {
      ContinuationIssuesNothing(cfg, AfterCall(s, a.applied), a.ok);
    }
  }

  lemma ContinuationIssuesNothing(cfg: Config, s: State, ok: bool)
    requires !s.lane.Idle? && LaneWellFormed(s)
    ensures Continue(cfg, s, ok).state.issued == s.issued
  {
    hide CancelRefusal, CancelReplacement, CompleteRename, RevokeAll, NextPublishable, ContactStart;
  }

  lemma RegisterFreshCounts(cfg: Config, s: State, n: Name, node: Node, dynamic: bool, secret: Credential)
    requires Known(s.rows, s.issued) && secret !in s.issued
    ensures Counts(s, RegisterFresh(cfg, s, n, node, dynamic, secret).state, n)
  {
    hide AtCap, NodeFull, Refill;
  }

  lemma RegistrationCounts(
    cfg: Config, s: State, n: Name, node: Node, dynamic: bool, presented: Option<Credential>, secret: Credential,
    observed: Option<Address>)
    requires Known(s.rows, s.issued) && secret !in s.issued
    ensures Counts(s, RegisterStep(cfg, s, n, node, dynamic, presented, secret, observed).state, n)
  {
    hide RegisterFresh, ReactivateRow, AtCap, NodeFull, Counts;
    if n !in s.rows {
      RegisterFreshCounts(cfg, s, n, node, dynamic, secret);
    } else if !s.rows[n].Active() && s.rows[n].Expired(cfg.cooldown, s.now) {
      var s1 := s.(rows := s.rows - {n});
      RegisterFreshCounts(cfg, s1, n, node, dynamic, secret);
      CountsByIssue(s, s1, RegisterFresh(cfg, s1, n, node, dynamic, secret).state, n);
    } else {
      ReactivationCounts(cfg, s, n, dynamic, observed);
      NothingCounts(s, n);
    }
  }

  lemma CountsByIssue(s: State, s1: State, s': State, n: Name)
    requires s1.issued == s.issued && s1.admitted == s.admitted
    ensures Counts(s, s', n) <==> Counts(s1, s', n)
  {
  }

  lemma ReactivationCounts(cfg: Config, s: State, n: Name, dynamic: bool, observed: Option<Address>)
    requires Known(s.rows, s.issued) && n in s.rows
    ensures Counts(s, ReactivateRow(cfg, s, n, dynamic, observed).state, n)
  {
    hide ReactivateRow;
    ReactivateRows(cfg, s, n, dynamic, observed);
  }

  lemma NothingCounts(s: State, n: Name)
    requires Known(s.rows, s.issued)
    ensures Counts(s, s, n)
  {
  }

  lemma RenameFreshCounts(cfg: Config, s: State, current: Name, row: Row, n: Name, secret: Credential)
    requires Known(s.rows, s.issued) && secret !in s.issued && current in s.rows && n != current
    ensures Counts(s, RenameFresh(cfg, s, current, row, n, secret).state, n)
  {
    hide AtCap, ContactStart, Refill;
  }

  lemma RetryCounts(cfg: Config, s: State, current: Name, r: Name, secret: Credential)
    requires Known(s.rows, s.issued) && current in s.rows && r in s.rows && r != current && s.rows[r].Claims()
    ensures Counts(s, RetryRename(cfg, s, current, r, secret).state, r)
  {
    hide RetryRename, RetryIsRefused, ContactStart;
    if RetryIsRefused(cfg, s, r) {
      RetryRefused(cfg, s, current, r, secret);
    } else {
      RetryRenameRows(cfg, s, current, r, secret);
    }
  }

  lemma RenameCounts(w: Promises, cfg: Config, s: State, credential: Credential, n: Name, secret: Credential)
    requires Inv(w, cfg, s) && secret !in s.issued
    ensures Counts(s, RenameStep(cfg, s, credential, n, secret).state, n)
  {
    CoreKnown(w, cfg, s);
    hide Inv, RenameFresh, RetryRename;
    var found := ByCredential(s.rows, credential);
    if s.lane.Idle? && found.Some? && s.rows[found.value].Active() && n != found.value {
      var current, row := found.value, s.rows[found.value];
      var claim := ReplacementFor(s.rows, current);
      if claim.None? {
        RenameFreshCounts(cfg, s, current, row, n, secret);
      } else if s.rows[claim.value].node != row.node {
        RenameFreshCounts(
          cfg, s.(rows := DetachReplacement(s.rows, claim.value, current)), current, row, n, secret);
      } else if s.rows[claim.value].status.Abandoned? && s.rows[claim.value].Expired(cfg.cooldown, s.now) {
        RenameFreshCounts(cfg, s.(rows := s.rows - {claim.value}), current, row, n, secret);
      } else if claim.value == n {
        RetryCounts(cfg, s, current, n, secret);
      }
    }
  }

  /** An action raises the count by the number of rows it inserts. */
  lemma InsertionsAreCounted(w: Promises, cfg: Config, s: State, a: Action)
    requires Inv(w, cfg, s) && Enabled(cfg, s, a) && Harmless(w, cfg, s, a)
    ensures Next(cfg, s, a).admitted == s.admitted + |Inserted(s, Next(cfg, s, a))|
  {
    if a.Register? {
      CoreKnown(w, cfg, s);
      hide Inv, RegisterStep;
      RegistrationCounts(cfg, s, a.name, a.node, a.dynamic, a.presented, a.secret, a.observed);
    } else if a.Rename? {
      hide RenameStep;
      RenameCounts(w, cfg, s, a.credential, a.name, a.secret);
    } else {
      NothingIssued(cfg, s, a);
      StepKeeps(w, cfg, s, a);
      hide Next, Rules, LaneOk;
      CoreKnown(w, cfg, Next(cfg, s, a));
      assert Inserted(s, Next(cfg, s, a)) == {};
    }
  }

  /** How many rows the actions of a run insert. */
  ghost function Insertions(cfg: Config, s: State, run: seq<Action>): nat
    requires Legal(cfg, s, run)
    decreases |run|
  {
    if run == [] then 0
    else |Inserted(s, Next(cfg, s, run[0]))| + Insertions(cfg, Next(cfg, s, run[0]), run[1..])
  }

  lemma {:induction false} RunCounts(cfg: Config, s: State, run: seq<Action>)
    requires Inv(ANYWAY, cfg, s) && Legal(cfg, s, run)
    ensures Run(cfg, s, run).admitted == s.admitted + Insertions(cfg, s, run)
    decreases |run|
  {
    hide Inv, Inserted;
    if run != [] {
      StepKeeps(ANYWAY, cfg, s, run[0]);
      InsertionsAreCounted(ANYWAY, cfg, s, run[0]);
      RunCounts(cfg, Next(cfg, s, run[0]), run[1..]);
    }
  }

  /** After any run, the rows inserted during whatever comes next are bounded by one full bucket and what
      the bucket earns in that time. Waiting reclaims make no difference. */
  lemma AdmissionsAreBounded(cfg: Config, before: seq<Action>, window: seq<Action>)
    requires cfg.Valid() && Legal(cfg, Initial(cfg), before)
    requires Legal(cfg, Run(cfg, Initial(cfg), before), window)
    ensures var s := Run(cfg, Initial(cfg), before);
            Insertions(cfg, s, window) as real
            <= cfg.limits.capacity + Earnings(cfg.limits, Run(cfg, s, window).now - s.now)
  {
    hide BucketOk, PaidFor, Earnings, Level, Credit, Inv, Insertions;
    InitialBucketOk(cfg);
    RunPays(cfg, Initial(cfg), before);
    var s := Run(cfg, Initial(cfg), before);
    RunPays(cfg, s, window);
    StretchIsBounded(cfg, s, Run(cfg, s, window));
    ReachableAnyway(cfg, before);
    RunCounts(cfg, s, window);
  }

  // ---- what the bucket grants ----

  lemma {:induction false} RunKeepsBucket(cfg: Config, run: seq<Action>)
    requires cfg.Valid() && Legal(cfg, Initial(cfg), run)
    ensures BucketOk(cfg, Run(cfg, Initial(cfg), run))
  {
    InitialBucketOk(cfg);
    RunPays(cfg, Initial(cfg), run);
  }

  lemma NameIsGranted(
    cfg: Config, s: State, n: Name, node: Node, dynamic: bool, presented: Option<Credential>, secret: Credential,
    observed: Option<Address>)
    requires Core(ANYWAY, cfg, s) && cfg.Valid() && s.bucket.Valid(cfg.limits, s.now) && cfg.limits.capacity >= 1.0
    requires s.bucket.tokens + (s.now - s.bucket.lastRefill) as real * cfg.limits.rate >= 1.0
    requires n !in s.rows && secret !in s.issued && |ActiveNames(s.rows)| < cfg.cumulativeCap
    requires !A.NodeActive(s.rows, node)
    ensures var o := Step(cfg, s, Register(n, node, dynamic, presented, secret, observed));
            && o.reply == Http(201)
            && n in o.state.rows && o.state.rows[n].status.Pending? && o.state.rows[n].credential == secret
  {
    assert s.rows - {n} == s.rows;
    hide Core, ActiveNames, A.NodeActive, A.Priced, RegisterStep;
    A.RegistrationAnswers(ANYWAY, cfg, s, n, node, dynamic, presented, secret, observed);
  }

  lemma TokenLater(cfg: Config, s: State, elapsed: nat)
    requires cfg.Valid() && Inv(ANYWAY, cfg, s) && BucketOk(cfg, s) && elapsed as real * cfg.limits.rate >= 1.0
    ensures var later := Next(cfg, s, Tick(elapsed));
            && later == s.(now := s.now + elapsed)
            && Core(ANYWAY, cfg, later) && later.bucket.Valid(cfg.limits, later.now)
            && later.bucket.tokens + (later.now - later.bucket.lastRefill) as real * cfg.limits.rate >= 1.0
  {
    TimePasses(ANYWAY, cfg, s, elapsed);
    WaitingEarns(cfg.limits, s.bucket, s.now, elapsed);
    hide Core, Level;
  }

  /** After any run, once enough time has passed to earn a token, a registration of an unused name, with room in the
      table and nothing else of its node active, is granted. */
  lemma WaitingIsRewarded(
    cfg: Config, before: seq<Action>, elapsed: nat, n: Name, node: Node, dynamic: bool,
    presented: Option<Credential>, secret: Credential, observed: Option<Address>)
    requires cfg.Valid() && Legal(cfg, Initial(cfg), before)
    requires cfg.limits.capacity >= 1.0 && elapsed as real * cfg.limits.rate >= 1.0
    requires var s := Run(cfg, Initial(cfg), before);
             && n !in s.rows && secret !in s.issued && |ActiveNames(s.rows)| < cfg.cumulativeCap
             && !A.NodeActive(s.rows, node)
    ensures var s := Run(cfg, Initial(cfg), before);
            var o := Step(cfg, Next(cfg, s, Tick(elapsed)), Register(n, node, dynamic, presented, secret, observed));
            && o.reply == Http(201)
            && n in o.state.rows && o.state.rows[n].status.Pending? && o.state.rows[n].credential == secret
  {
    hide Inv, Core, BucketOk, Step, Run, ActiveNames, A.NodeActive;
    var s := Run(cfg, Initial(cfg), before);
    ReachableAnyway(cfg, before);
    RunKeepsBucket(cfg, before);
    TokenLater(cfg, s, elapsed);
    NameIsGranted(cfg, Next(cfg, s, Tick(elapsed)), n, node, dynamic, presented, secret, observed);
  }
}
