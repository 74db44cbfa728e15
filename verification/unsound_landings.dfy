/** Why EveryMaturationIsEarned asks that cancellations land soundly: whenever one does not, the row it contacts
    needs only go on with its heartbeats to mature without having earned it. */
module UnsoundLandings {
  import opened Prelude
  import opened Registrations
  import opened Protocol
  import opened ProtocolInvariant
  import opened Maturation
  import opened ProtocolRuns

  /** A pending row with a window that began at `started` and goes on now, and every contact by its own node is
      later than that. */
  ghost predicate Overrated(cfg: Config, s: State, n: Name, started: Time) {
    && Inv(ANYWAY, cfg, s) && s.lane.Idle? && started <= s.now
    && n in s.rows && s.rows[n].status.Pending? && s.rows[n].replacing.None?
    && s.rows[n].lastContactAt == Some(s.now) && s.rows[n].contactStartedAt == Some(started)
    && n in s.contacts && Late(cfg, s.contacts[n], s.rows[n].node, started, s.now)
  }

  ghost predicate Late(cfg: Config, log: seq<Contact>, node: Node, started: Time, now: Time) {
    forall i | 0 <= i < |log| && log[i].node == node ::
      log[i].at > started && (now - started > cfg.minAge ==> log[i].at >= now)
  }

  /** The row has matured and not earned it. */
  ghost predicate Unearned(cfg: Config, s: State, n: Name) {
    && n in s.rows && s.rows[n].maturedAt.Some? && n in s.contacts
    && !Earned(s.contacts[n], s.rows[n].node, cfg.abandonment, cfg.minAge, s.rows[n].maturedAt.value)
  }

  /** What a landing does to the active row it contacts. */
  lemma LandingContacts(cfg: Config, s: State, n: Name, previous: Name, read: Row, observed: Option<Address>)
    requires n != previous && !read.status.Abandoned? && CanCancel(s.rows, n)
    requires previous in s.rows && s.rows[previous].status.Pending?
    requires previous in s.contacts && s.contacts[previous] == []
    ensures var s' := FinishCancel(cfg, s, n, previous, read, observed).state;
            && s'.lane == s.lane && s'.now == s.now && previous in s'.rows && previous in s'.contacts
            && s'.rows[previous] == s.rows[previous].(lastContactAt := Some(s.now),
                                                      contactStartedAt := Some(ContactStart(cfg, read, s.now)))
            && s'.contacts[previous] == [Contact(read.node, s.now)]
  {
    hide ContactStart;
    assert [] + [Contact(read.node, s.now)] == [Contact(read.node, s.now)];
  }

  lemma LandsOverrated(cfg: Config, s: State)
    requires Inv(ANYWAY, cfg, s) && LaneAudited(cfg, s) && s.lane.Cancelling?
    requires !SoundLanding(cfg, s, Resume(true, true), s.lane.previous)
    ensures Enabled(cfg, s, Resume(true, true))
    ensures Overrated(cfg, Next(cfg, s, Resume(true, true)), s.lane.previous,
                      ContactStart(cfg, s.lane.previousRow, s.now))
  {
    var n, previous, read := s.lane.name, s.lane.previous, s.lane.previousRow;
    RowFacts(ANYWAY, cfg, s, previous);
    StepKeeps(ANYWAY, cfg, s, Resume(true, true));
    assert s.rows[previous] != read && Untrodden(s, previous);
    hide Rules, FinishCancel, Late;
    LandingContacts(cfg, AfterCall(s, true).(lane := Idle), n, previous, read, s.lane.observed);
    FirstIsLate(cfg, s.rows[previous].node, read.node, ContactStart(cfg, read, s.now), s.now);
  }

  lemma FirstIsLate(cfg: Config, node: Node, other: Node, started: Time, now: Time)
    requires started <= now && (node != other || started != now)
    ensures Late(cfg, [Contact(other, now)], node, started, now)
  {
  }

  lemma FoundByCredential(cfg: Config, s: State, n: Name)
    requires Core(ANYWAY, cfg, s) && n in s.rows
    ensures ByCredential(s.rows, s.rows[n].credential) == Some(n)
  {
  }

  lemma QuietHeartbeat(cfg: Config, s: State, n: Name)
    requires s.lane.Idle? && n in s.rows && ByCredential(s.rows, s.rows[n].credential) == Some(n)
    requires s.rows[n].Active() && s.rows[n].replacing.None?
    ensures HeartbeatStep(cfg, s, s.rows[n].credential, None).state.lane.Idle?
  {
    hide ContactStart;
  }

  lemma NotEarnedSoon(cfg: Config, log: seq<Contact>, node: Node, started: Time, now: Time)
    requires Late(cfg, log, node, started, now) && cfg.minAge > 0
    ensures !Earned(log, node, cfg.abandonment, cfg.minAge, now)
  {
    forall i, j | Unbroken(log, i, j, node, cfg.abandonment) && log[j].at == now
      ensures now - log[i].at < cfg.minAge
    {
      assert log[i].node == node;
    }
  }

  lemma LateGrows(cfg: Config, log: seq<Contact>, node: Node, started: Time, now: Time, later: Time)
    requires Late(cfg, log, node, started, now) && now <= later
    requires later > started && (now < later ==> later - started <= cfg.minAge)
    ensures Late(cfg, log + [Contact(node, later)], node, started, later)
  {
  }

  /** One heartbeat, `elapsed` later: the row matures unearned, or goes on as overrated as before. */
  lemma OneMoreHeartbeat(cfg: Config, s: State, n: Name, started: Time, elapsed: nat)
    requires cfg.Valid() && cfg.minAge > 0 && elapsed <= cfg.abandonment && Overrated(cfg, s, n, started)
    requires s.now + elapsed > started && (elapsed > 0 ==> s.now + elapsed - started <= cfg.minAge)
    ensures Enabled(cfg, s, Tick(elapsed))
    ensures var s1 := Next(cfg, s, Tick(elapsed));
            var a := Heartbeat(s.rows[n].credential, None);
            && Enabled(cfg, s1, a)
            && if s1.now - started >= cfg.minAge then Unearned(cfg, Next(cfg, s1, a), n)
               else Overrated(cfg, Next(cfg, s1, a), n, started) && Next(cfg, s1, a).now == s.now + elapsed
  {
    var s1 := Next(cfg, s, Tick(elapsed));
    var row := s.rows[n];
    var a := Heartbeat(row.credential, None);
    hide Inv, Late, HeartbeatStep;
    StepKeeps(ANYWAY, cfg, s, Tick(elapsed));
    InvCore(ANYWAY, cfg, s1);
    FoundByCredential(cfg, s1, n);
    HeartbeatRows(cfg, s1, row.credential, None, n);
    QuietHeartbeat(cfg, s1, n);
    StepKeeps(ANYWAY, cfg, s1, a);
    ClockStands(cfg, s1, a);
    LateGrows(cfg, s.contacts[n], row.node, started, s.now, s1.now);
    var s2 := Next(cfg, s1, a);
    assert s2.contacts[n] == s.contacts[n] + [Contact(row.node, s1.now)];
    NotEarnedSoon(cfg, s2.contacts[n], row.node, started, s1.now);
  }

  /** So heartbeats alone let it mature unearned. */
  lemma {:induction false} HeartbeatsMature(cfg: Config, s: State, n: Name, started: Time) returns (run: seq<Action>)
    requires cfg.Valid() && cfg.minAge > 0 && cfg.abandonment > 0 && Overrated(cfg, s, n, started)
    ensures Legal(cfg, s, run) && Unearned(cfg, Run(cfg, s, run), n)
    decreases started + cfg.minAge - s.now
  {
    var left := started + cfg.minAge - s.now;
    var elapsed := if left <= 0 then 0 else Min(left, cfg.abandonment);
    var a := Heartbeat(s.rows[n].credential, None);
    OneMoreHeartbeat(cfg, s, n, started, elapsed);
    var s1 := Next(cfg, s, Tick(elapsed));
    hide Overrated, Unearned, Next, Enabled;
    run := [];
    if s1.now - started < cfg.minAge {
      run := HeartbeatsMature(cfg, Next(cfg, s1, a), n, started);
    }
    StepThen(cfg, s1, a, run);
    StepThen(cfg, s, Tick(elapsed), [a] + run);
    run := [Tick(elapsed)] + ([a] + run);
  }

  /** After any run, when a cancellation is about to land unsoundly, the run can go on so that the row it contacts
      matures unearned, whatever the minimum age and the abandonment period, as long as there are any. */
  lemma EveryUnsoundLandingSpoils(cfg: Config, before: seq<Action>) returns (after: seq<Action>)
    requires cfg.Valid() && cfg.minAge > 0 && cfg.abandonment > 0 && Legal(cfg, Initial(cfg), before)
    requires var s := Run(cfg, Initial(cfg), before);
             s.lane.Cancelling? && !SoundLanding(cfg, s, Resume(true, true), s.lane.previous)
    ensures var s := Run(cfg, Initial(cfg), before);
            && |after| > 0 && after[0] == Resume(true, true) && Legal(cfg, s, after)
            && Unearned(cfg, Run(cfg, s, after), s.lane.previous)
  {
    InitiallyHolds(ANYWAY, cfg);
    ReachableAnyway(cfg, before);
    RunKeepsTrails(cfg, Initial(cfg), before);
    var s := Run(cfg, Initial(cfg), before);
    LandsOverrated(cfg, s);
    hide Inv, Overrated, Unearned, Next, SoundLanding, Trails, LaneAudited;
    after := HeartbeatsMature(cfg, Next(cfg, s, Resume(true, true)), s.lane.previous,
                              ContactStart(cfg, s.lane.previousRow, s.now));
    StepThen(cfg, s, Resume(true, true), after);
    after := [Resume(true, true)] + after;
  }
}
