/** Contact that is kept counts: as long as a pending row is never out of contact for longer than the abandonment
    period, its window stands, whatever else the service does, and its next heartbeat finds it ripe exactly when the
    window spans the minimum age. */
module KeptContact {
  import opened Prelude
  import opened Registrations
  import opened Protocol
  import opened TableRules
  import opened ProtocolInvariant
  import opened Maturation
  import opened ProtocolRuns
  import A = Answers
  import R = RenameAnswers

  /** A pending row that has been contacted, not too long ago. */
  predicate InTouch(cfg: Config, s: State, n: Name) {
    && n in s.rows && s.rows[n].status.Pending? && s.rows[n].contactStartedAt.Some? && s.rows[n].lastContactAt.Some?
    && s.now <= s.rows[n].lastContactAt.value + cfg.abandonment
  }

  /** The window of the row still starts where it did, if the row is still pending. */
  predicate Stands(s: State, s': State, n: Name)
    requires n in s.rows
  {
    n in s'.rows && s'.rows[n].status.Pending? ==> s'.rows[n].contactStartedAt == s.rows[n].contactStartedAt
  }

  lemma SameRowsStand(s: State, s': State, n: Name)
    requires n in s.rows && (n in s'.rows ==> s'.rows[n] == s.rows[n])
    ensures Stands(s, s', n)
  {
  }

  lemma ViewStands(s: State, s': State, n: Name)
    requires n in s.rows && AuditView(s, s')
    ensures Stands(s, s', n)
  {
  }

  /** Contact within the period does not move the start of the window. */
  lemma ContactStands(cfg: Config, s: State, n: Name)
    requires InTouch(cfg, s, n)
    ensures ContactedCopy(cfg, s.rows[n], s.now).contactStartedAt == s.rows[n].contactStartedAt
  {
  }

  // ---- each action ----

  /** A registration does not touch an active row. */
  lemma RegisterStands(cfg: Config, s: State, a: Action, n: Name)
    requires Enabled(cfg, s, a) && (a.Register? || a.ReclaimRoute? || a.RunWaiting?) && n in s.rows && s.rows[n].Active()
    ensures Stands(s, Next(cfg, s, a), n)
  {
    hide RegisterFresh, ReactivateRow, AtCap, NodeFull;
    var m := if a.RunWaiting? then s.waiting[0].name else a.name;
    if a.Register? {
      RegisterFreshRows(cfg, s, m, a.node, a.dynamic, a.secret);
      RegisterFreshRows(cfg, s.(rows := s.rows - {m}), m, a.node, a.dynamic, a.secret);
    }
    if m in s.rows && m != n {
      var s1 := if a.RunWaiting? then s.(waiting := s.waiting[1..]) else s;
      var k := if a.RunWaiting? then s.waiting[0] else Ticket(m, s.rows[m].credential, a.dynamic, a.observed);
      ReactivateRows(cfg, s1, m, k.dynamic, k.observed);
    }
  }

  lemma HeartbeatStands(cfg: Config, s: State, a: Action, n: Name)
    requires Enabled(cfg, s, a) && a.Heartbeat? && InTouch(cfg, s, n)
    ensures Stands(s, Next(cfg, s, a), n)
  {
    hide HeartbeatStep;
    var found := ByCredential(s.rows, a.credential);
    if s.lane.Idle? && found.Some? && s.rows[found.value].Active() {
      HeartbeatRows(cfg, s, a.credential, a.observed, found.value);
      if found.value == n {
        ContactStands(cfg, s, n);
      }
    } else {
      HeartbeatRefused(cfg, s, a.credential, a.observed);
    }
  }

  lemma FreshRenameStands(cfg: Config, s: State, current: Name, m: Name, secret: Credential, n: Name)
    requires InTouch(cfg, s, n) && current in s.rows && m != current
    ensures Stands(s, RenameFresh(cfg, s, current, s.rows[current], m, secret).state, n)
  {
    hide RenameFresh;
    RenameFreshRows(cfg, s, current, s.rows[current], m, secret);
    if current == n {
      ContactStands(cfg, s, n);
    }
  }

  lemma RetriedRenameStands(cfg: Config, s: State, current: Name, r: Name, secret: Credential, n: Name)
    requires InTouch(cfg, s, n) && current in s.rows && r in s.rows && r != current && s.rows[r].Claims()
    ensures Stands(s, RetryRename(cfg, s, current, r, secret).state, n)
  {
    hide RetryRename, RetryIsRefused;
    if RetryIsRefused(cfg, s, r) {
      RetryRefused(cfg, s, current, r, secret);
    } else {
      RetryRenameRows(cfg, s, current, r, secret);
      ContactStands(cfg, s, n);
    }
  }

  lemma RenameStands(cfg: Config, s: State, a: Action, n: Name)
    requires Enabled(cfg, s, a) && a.Rename? && InTouch(cfg, s, n)
    ensures Stands(s, Next(cfg, s, a), n)
  {
    hide RenameFresh, RetryRename, Stands;
    SameRowsStand(s, s, n);
    var found := ByCredential(s.rows, a.credential);
    if s.lane.Idle? && found.Some? && s.rows[found.value].Active() && a.name != found.value
       && s.rows[found.value].replacing.None? {
      var current, row := found.value, s.rows[found.value];
      var claim := ReplacementFor(s.rows, current);
      if claim.None? {
        FreshRenameStands(cfg, s, current, a.name, a.secret, n);
      } else if s.rows[claim.value].node != row.node {
        var s1 := s.(rows := DetachReplacement(s.rows, claim.value, current));
        FreshRenameStands(cfg, s1, current, a.name, a.secret, n);
        DetachedStands(s, claim.value, current, RenameFresh(cfg, s1, current, row, a.name, a.secret).state, n);
      } else if s.rows[claim.value].status.Abandoned? && s.rows[claim.value].Expired(cfg.cooldown, s.now) {
        var s1 := s.(rows := s.rows - {claim.value});
        FreshRenameStands(cfg, s1, current, a.name, a.secret, n);
        DeletedStands(s, claim.value, RenameFresh(cfg, s1, current, row, a.name, a.secret).state, n);
      } else if claim.value == a.name {
        RetriedRenameStands(cfg, s, current, a.name, a.secret, n);
      }
    }
  }

  lemma DetachedStands(s: State, r: Name, current: Name, s': State, n: Name)
    requires n in s.rows && Stands(s.(rows := DetachReplacement(s.rows, r, current)), s', n)
    ensures Stands(s, s', n)
  {
  }

  lemma DeletedStands(s: State, r: Name, s': State, n: Name)
    requires n in s.rows && n != r && Stands(s.(rows := s.rows - {r}), s', n)
    ensures Stands(s, s', n)
  {
  }

  /** A cancellation that contacts a row in touch has read that very row. */
  lemma CancellingStands(w: Promises, cfg: Config, s: State, n: Name)
    requires Inv(w, cfg, s) && LaneAudited(cfg, s) && s.lane.Cancelling? && InTouch(cfg, s, n)
    ensures Stands(s, Next(cfg, s, Resume(true, true)), n)
  {
    var read := s.lane.previousRow;
    if read.status.Abandoned? {
      R.CancelRevives(cfg, s);
      hide Next, R.RevivalRefusal;
      RevivalSpares(cfg, s, n);
    } else {
      R.CancelTakesBack(cfg, s);
      assert n == s.lane.previous ==> read == s.rows[n];
      hide Next;
    }
  }

  lemma RevivalSpares(cfg: Config, s: State, n: Name)
    requires s.lane.Cancelling? && n in s.rows && s.rows[n].status.Pending?
    ensures R.RevivalRefusal(cfg, s, s.lane.name, s.lane.previous).None? ==> n != s.lane.previous
  {
  }

  lemma CompletionStands(t: Table, m: Name, previous: Name, node: Node, at: Time, n: Name)
    requires n in t
    ensures var t' := CompleteRename(t, m, previous, node, at);
            n in t' && (t'[n].status.Pending? ==> t'[n] == t[n])
  {
  }

  lemma RenamingStands(cfg: Config, s: State, ok: bool, applied: bool, n: Name)
    requires (s.lane.ReplacementUp? || s.lane.PreviousDown?) && n in s.rows
    ensures Stands(s, Continue(cfg, AfterCall(s, applied), ok).state, n)
  {
    hide CompleteRename, FinishCancel, RevokeFrom;
    if s.lane.PreviousDown? {
      CompletionStands(s.rows, s.lane.name, s.lane.previous, s.lane.row.node, s.lane.at, n);
    } else if s.lane.row.replacing.Some? {
      var t := SetLastKnownAddress(s.rows, s.lane.name, Some(s.lane.address));
      CompletionStands(t, s.lane.name, s.lane.row.replacing.value, s.lane.row.node, s.lane.at, n);
    }
  }

  lemma FailedCancelStands(cfg: Config, s: State, applied: bool, n: Name)
    requires s.lane.Cancelling? && n in s.rows
    ensures Stands(s, Continue(cfg, AfterCall(s, applied), false).state, n)
  {
  }

  lemma ResumeStands(w: Promises, cfg: Config, s: State, ok: bool, applied: bool, n: Name)
    requires Inv(w, cfg, s) && LaneAudited(cfg, s) && InTouch(cfg, s, n)
    requires !s.lane.Idle? && LaneWellFormed(s) && (ok ==> applied)
    ensures Stands(s, Continue(cfg, AfterCall(s, applied), ok).state, n)
  {
    hide Inv, LaneAudited, Continue, Stands, AuditView;
    if s.lane.ReplacementUp? || s.lane.PreviousDown? {
      RenamingStands(cfg, s, ok, applied, n);
    } else if s.lane.Cancelling? {
      if ok {
        CancellingStands(w, cfg, s, n);
      } else {
        FailedCancelStands(cfg, s, applied, n);
      }
    } else {
      OtherCallsView(cfg, s, ok, applied);
      ViewStands(s, Continue(cfg, AfterCall(s, applied), ok).state, n);
    }
  }

  lemma OtherActionsView(cfg: Config, s: State, a: Action)
    requires Enabled(cfg, s, a) && (a.CancelRename? || a.Release? || a.Revoke? || a.SweepVisit?)
    ensures AuditView(s, Next(cfg, s, a))
  {
    hide CancelRenameStep, ReleaseStep, RevokeStep, SweepStep, AuditView;
    match a {
      case CancelRename(c, observed) => CancelView(cfg, s, c, observed);
      case Release(c) => ReleaseView(s, c);
      case Revoke(m, reason, expectedNode, expectedCreatedAt) =>
        RevokeView(s, m, reason, expectedNode, expectedCreatedAt);
      case SweepVisit(m, startedAt) => SweepView(cfg, s, m, startedAt);
    }
  }

  /** No action moves the window of a row in touch. */
  lemma StepStands(w: Promises, cfg: Config, s: State, a: Action, n: Name)
    requires Inv(w, cfg, s) && LaneAudited(cfg, s) && InTouch(cfg, s, n) && Enabled(cfg, s, a)
    ensures Stands(s, Next(cfg, s, a), n)
  {
    hide Inv, LaneAudited, RegisterStep, ReclaimRouteStep, HeartbeatStep, RenameStep, CancelRenameStep, ReleaseStep,
         RevokeStep, SweepStep, Continue, ReclaimInLane, Stands;
    if a.Register? || a.ReclaimRoute? || a.RunWaiting? {
      RegisterStands(cfg, s, a, n);
    } else if a.Heartbeat? {
      HeartbeatStands(cfg, s, a, n);
    } else if a.Rename? {
      RenameStands(cfg, s, a, n);
    } else if a.Resume? {
      ResumeStands(w, cfg, s, a.ok, a.applied, n);
    } else if a.CancelRename? || a.Release? || a.Revoke? || a.SweepVisit? {
      OtherActionsView(cfg, s, a);
      ViewStands(s, Next(cfg, s, a), n);
    } else {
      SameRowsStand(s, Next(cfg, s, a), n);
    }
  }

  // ---- runs ----

  /** The row is in touch at every moment of the run, and at its end. */
  ghost predicate KeepsInTouch(cfg: Config, s: State, run: seq<Action>, n: Name)
    requires Legal(cfg, s, run)
    decreases |run|
  {
    InTouch(cfg, s, n) && (run == [] || KeepsInTouch(cfg, Next(cfg, s, run[0]), run[1..], n))
  }

  lemma {:induction false} WindowStands(cfg: Config, s: State, run: seq<Action>, n: Name)
    requires Inv(ANYWAY, cfg, s) && Trails(s) && LaneAudited(cfg, s)
    requires Legal(cfg, s, run) && KeepsInTouch(cfg, s, run, n)
    ensures InTouch(cfg, Run(cfg, s, run), n)
    ensures Run(cfg, s, run).rows[n].contactStartedAt == s.rows[n].contactStartedAt
    decreases |run|
  {
    hide Inv, Trails, LaneAudited;
    if run != [] {
      StepKeeps(ANYWAY, cfg, s, run[0]);
      StepTrails(ANYWAY, cfg, s, run[0]);
      StepStands(ANYWAY, cfg, s, run[0], n);
      WindowStands(cfg, Next(cfg, s, run[0]), run[1..], n);
    }
  }

  /** After any run: a row whose window starts at `started`, and which from then on is always in touch, finds itself
      ripe at a heartbeat exactly when the minimum age has passed since `started`. If it replaces no other it is then
      live. */
  lemma EveryKeptContactCounts(
    cfg: Config, before: seq<Action>, run: seq<Action>, n: Name, started: Time, observed: Option<Address>)
    requires cfg.Valid() && Legal(cfg, Initial(cfg), before)
    requires var s := Run(cfg, Initial(cfg), before);
             Legal(cfg, s, run) && KeepsInTouch(cfg, s, run, n) && s.rows[n].contactStartedAt == Some(started)
    requires Run(cfg, Run(cfg, Initial(cfg), before), run).lane.Idle?
    ensures var e := Run(cfg, Run(cfg, Initial(cfg), before), run);
            && n in e.rows
            && (A.Ripe(cfg, e.rows[n], e.now) <==> e.now - started >= cfg.minAge)
            && var s' := Next(cfg, e, Heartbeat(e.rows[n].credential, observed));
            && n in s'.rows && s'.rows[n].lastContactAt == Some(e.now) && s'.rows[n].contactStartedAt == Some(started)
            && (s'.rows[n].status.Matured? <==> e.rows[n].replacing.None? && e.now - started >= cfg.minAge)
            && (s'.rows[n].status.Matured? ==> s'.rows[n].maturedAt == Some(e.now))
  {
    hide Inv, Trails, LaneAudited, KeepsInTouch, Next, A.Ripe;
    var s := Run(cfg, Initial(cfg), before);
    ReachableAnyway(cfg, before);
    InitiallyHolds(ANYWAY, cfg);
    InitiallyTrailed(cfg);
    RunKeepsTrails(cfg, Initial(cfg), before);
    WindowStands(cfg, s, run, n);
    var e := Run(cfg, s, run);
    AnyRunIsHarmless(cfg, s, run);
    RunKeepsInvariant(ANYWAY, cfg, s, run);
    InvCore(ANYWAY, cfg, e);
    R.CoreCredentials(ANYWAY, cfg, e);
    BeatInTouch(cfg, e, n, started, observed);
  }

  lemma BeatInTouch(cfg: Config, s: State, n: Name, started: Time, observed: Option<Address>)
    requires CredentialsDistinct(s.rows) && s.lane.Idle? && InTouch(cfg, s, n)
    requires s.rows[n].contactStartedAt == Some(started)
    ensures A.Ripe(cfg, s.rows[n], s.now) <==> s.now - started >= cfg.minAge
    ensures var s' := Next(cfg, s, Heartbeat(s.rows[n].credential, observed));
            && n in s'.rows && s'.rows[n].lastContactAt == Some(s.now) && s'.rows[n].contactStartedAt == Some(started)
            && (s'.rows[n].status.Matured? <==> s.rows[n].replacing.None? && s.now - started >= cfg.minAge)
            && (s'.rows[n].status.Matured? ==> s'.rows[n].maturedAt == Some(s.now))
  {
    A.HeartbeatAnswers(cfg, s, s.rows[n].credential, observed, n);
    hide HeartbeatStep, A.Calls, A.GoesOut;
  }

  lemma InitiallyTrailed(cfg: Config)
    ensures Trails(Initial(cfg)) && LaneAudited(cfg, Initial(cfg))
  {
  }
}
