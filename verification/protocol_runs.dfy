/** What holds in the runs of the managed-DNS service: in every run, or in those in which no waiting reclaim
    harms the promise in question. */
module ProtocolRuns {
  import opened Registrations
  import opened Protocol
  import opened TableRules
  import opened ProtocolInvariant
  import opened Maturation

  lemma ClockSteps(cfg: Config, s: State, a: Action)
    requires Enabled(cfg, s, a)
    ensures s.now <= Next(cfg, s, a).now
  {
    hide RegisterStep, ReclaimRouteStep, HeartbeatStep, RenameStep, CancelRenameStep, ReleaseStep, RevokeStep,
         SweepStep, Continue;
  }

  lemma CredentialsStayIssued(cfg: Config, s: State, a: Action)
    requires Enabled(cfg, s, a)
    ensures s.issued <= Next(cfg, s, a).issued
  {
    hide RegisterStep, ReclaimRouteStep, HeartbeatStep, RenameStep, CancelRenameStep, ReleaseStep, RevokeStep,
         SweepStep, Continue;
  }

  lemma {:induction false} ClockAdvances(cfg: Config, s: State, run: seq<Action>)
    requires Legal(cfg, s, run)
    ensures s.now <= Run(cfg, s, run).now
    decreases |run|
  {
    if run != [] {
      ClockSteps(cfg, s, run[0]);
      ClockAdvances(cfg, Next(cfg, s, run[0]), run[1..]);
    }
  }

  /** The invariant, with the promises it watches, holds in every run that does not harm them. */
  lemma {:induction false} RunKeepsInvariant(w: Promises, cfg: Config, s: State, run: seq<Action>)
    requires Inv(w, cfg, s) && Legal(cfg, s, run) && HarmlessTurns(w, cfg, s, run)
    ensures Inv(w, cfg, Run(cfg, s, run))
    decreases |run|
  {
    hide Inv;
    if run != [] {
      StepKeeps(w, cfg, s, run[0]);
      RunKeepsInvariant(w, cfg, Next(cfg, s, run[0]), run[1..]);
    }
  }

  lemma Reachable(w: Promises, cfg: Config, run: seq<Action>)
    requires cfg.Valid() && Legal(cfg, Initial(cfg), run) && HarmlessTurns(w, cfg, Initial(cfg), run)
    ensures Inv(w, cfg, Run(cfg, Initial(cfg), run))
  {
    InitiallyHolds(w, cfg);
    RunKeepsInvariant(w, cfg, Initial(cfg), run);
  }

  /** The invariant itself needs nothing of a run. */
  lemma ReachableAnyway(cfg: Config, run: seq<Action>)
    requires cfg.Valid() && Legal(cfg, Initial(cfg), run)
    ensures Inv(ANYWAY, cfg, Run(cfg, Initial(cfg), run))
  {
    AnyRunIsHarmless(cfg, Initial(cfg), run);
    Reachable(ANYWAY, cfg, run);
  }

  /** A row that ever matured and is released, abandoned or revoked has no record at the provider, in any run. */
  lemma EveryRunLeavesNothingBehind(cfg: Config, run: seq<Action>, n: Name)
    requires cfg.Valid() && Legal(cfg, Initial(cfg), run)
    ensures var s := Run(cfg, Initial(cfg), run);
            n in s.rows && s.rows[n].maturedAt.Some? && !s.rows[n].Active() ==> n !in s.records
  {
    ReachableAnyway(cfg, run);
  }

  /** At most two active rows for a node, and two only as the halves of a rename, in every run in which each
      waiting reclaim of the node that is carried out finds at most one active row of the node, the other half of
      its rename. */
  lemma EveryRunObeysNodeCap(cfg: Config, run: seq<Action>, node: Node)
    requires cfg.Valid() && Legal(cfg, Initial(cfg), run) && HarmlessTurns(CapOf(node), cfg, Initial(cfg), run)
    ensures NodeCap(Run(cfg, Initial(cfg), run).rows, node)
  {
    Reachable(CapOf(node), cfg, run);
  }

  /** At most one pending or abandoned row names any given row as replaced, in every run in which each waiting
      reclaim that is carried out leaves the links of renames whole. */
  lemma EveryRunKeepsClaimsDistinct(cfg: Config, run: seq<Action>)
    requires cfg.Valid() && Legal(cfg, Initial(cfg), run) && HarmlessTurns(LINKS, cfg, Initial(cfg), run)
    ensures ClaimsDistinct(Run(cfg, Initial(cfg), run).rows)
  {
    Reachable(LINKS, cfg, run);
  }

  /** The active rows never exceed the cap, in every run in which each waiting reclaim that is carried out finds
      room in the table. */
  lemma EveryRunObeysCumulativeCap(cfg: Config, run: seq<Action>)
    requires cfg.Valid() && Legal(cfg, Initial(cfg), run) && HarmlessTurns(CAP, cfg, Initial(cfg), run)
    ensures |ActiveNames(Run(cfg, Initial(cfg), run).rows)| <= cfg.cumulativeCap
  {
    Reachable(CAP, cfg, run);
  }

  // ---- maturation ----

  /** Every cancellation that lands on `n` in the run does so soundly. */
  ghost predicate SoundLandings(cfg: Config, s: State, run: seq<Action>, n: Name)
    requires Legal(cfg, s, run)
    decreases |run|
  {
    run == [] || (SoundLanding(cfg, s, run[0], n) && SoundLandings(cfg, Next(cfg, s, run[0]), run[1..], n))
  }

  /** A landing that is not sound leaves its row with a window it does not deserve. */
  lemma UnsoundSpoils(w: Promises, cfg: Config, s: State)
    requires Inv(w, cfg, s) && LaneAudited(cfg, s) && s.lane.Cancelling? && Audited(cfg, s, s.lane.previous)
    requires !SoundLanding(cfg, s, Resume(true, true), s.lane.previous)
    ensures !Audited(cfg, Continue(cfg, AfterCall(s, true), true).state, s.lane.previous)
  {
    var previous := s.lane.previous;
    var f := AfterCall(s, true).(lane := Idle);
    RowFacts(w, cfg, s, previous);
    hide Rules, FinishCancel, Deserved;
    LandingDeserves(cfg, f, s.lane.name, previous, s.lane.previousRow, s.lane.observed);
  }

  /** A cancellation keeps the audit of the row it contacts if and only if it lands soundly. */
  lemma SoundExactly(w: Promises, cfg: Config, s: State)
    requires Inv(w, cfg, s) && Trails(s) && LaneAudited(cfg, s) && s.lane.Cancelling?
    requires Audited(cfg, s, s.lane.previous)
    ensures Audited(cfg, Next(cfg, s, Resume(true, true)), s.lane.previous)
            <==> SoundLanding(cfg, s, Resume(true, true), s.lane.previous)
  {
    hide Audited, LaneAudited, Inv, SoundLanding, Continue;
    if SoundLanding(cfg, s, Resume(true, true), s.lane.previous) {
      StepAudits(w, cfg, s, Resume(true, true), s.lane.previous);
    } else {
      UnsoundSpoils(w, cfg, s);
    }
  }

  lemma {:induction false} RunKeepsTrails(cfg: Config, s: State, run: seq<Action>)
    requires Inv(ANYWAY, cfg, s) && Trails(s) && LaneAudited(cfg, s) && Legal(cfg, s, run)
    ensures Trails(Run(cfg, s, run)) && LaneAudited(cfg, Run(cfg, s, run))
    decreases |run|
  {
    hide Inv, Trails, LaneAudited;
    if run != [] {
      StepKeeps(ANYWAY, cfg, s, run[0]);
      StepTrails(ANYWAY, cfg, s, run[0]);
      RunKeepsTrails(cfg, Next(cfg, s, run[0]), run[1..]);
    }
  }

  lemma {:induction false} RunKeepsAudit(cfg: Config, s: State, run: seq<Action>, n: Name)
    requires Inv(ANYWAY, cfg, s) && Trails(s) && LaneAudited(cfg, s) && Audited(cfg, s, n)
    requires Legal(cfg, s, run) && SoundLandings(cfg, s, run, n)
    ensures Audited(cfg, Run(cfg, s, run), n)
    decreases |run|
  {
    hide Inv, Trails, Audited, LaneAudited, SoundLanding;
    if run != [] {
      StepKeeps(ANYWAY, cfg, s, run[0]);
      StepTrails(ANYWAY, cfg, s, run[0]);
      StepAudits(ANYWAY, cfg, s, run[0], n);
      RunKeepsAudit(cfg, Next(cfg, s, run[0]), run[1..], n);
    }
  }

  /** A row that has matured did so at the end of an unbroken chain of contacts by its own node, with no
      gap beyond the abandonment period, that spans at least the minimum age, if every cancellation that landed
      on it did so soundly. */
  lemma EveryMaturationIsEarned(cfg: Config, run: seq<Action>, n: Name)
    requires cfg.Valid() && Legal(cfg, Initial(cfg), run) && SoundLandings(cfg, Initial(cfg), run, n)
    ensures var s := Run(cfg, Initial(cfg), run);
            n in s.rows && s.rows[n].maturedAt.Some? ==>
              n in s.contacts
              && Earned(s.contacts[n], s.rows[n].node, cfg.abandonment, cfg.minAge, s.rows[n].maturedAt.value)
  {
    InitiallyHolds(ANYWAY, cfg);
    RunKeepsAudit(cfg, Initial(cfg), run, n);
  }

  /** Pending always means not matured, in any run. */
  lemma PendingIsNotMatured(cfg: Config, run: seq<Action>, n: Name)
    requires cfg.Valid() && Legal(cfg, Initial(cfg), run)
    ensures var s := Run(cfg, Initial(cfg), run);
            n in s.rows ==> (s.rows[n].status.Pending? ==> s.rows[n].maturedAt.None?)
                            && (s.rows[n].status.Matured? ==> s.rows[n].maturedAt.Some?)
  {
    ReachableAnyway(cfg, run);
  }
}
