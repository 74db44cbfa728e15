/** A rename never goes dark: when no deletion of the live record takes effect that is reported failed or lost in
    a crash, and the live name is neither swept nor revoked, it stays published until the replacement's record is
    up, and one step releases the one row and matures the other. */
module RenameContinuity {
  import opened Prelude
  import opened Registrations
  import opened DnsProvider
  import opened Protocol
  import opened ProtocolInvariant

  /** `r` is the outstanding replacement of the live name `p`, of the same node. */
  ghost predicate Outstanding(s: State, p: Name, r: Name) {
    && MaturedRow(s, p)
    && r in s.rows && s.rows[r].Claims() && s.rows[r].replacing == Some(p) && s.rows[r].node == s.rows[p].node
  }

  ghost predicate Live(s: State, p: Name) {
    MaturedRow(s, p) && p in s.records
  }

  /** The rename to `q` is over: the replacement is matured and published, the live row released. */
  ghost predicate Completed(s: State, p: Name, q: Name) {
    && MaturedRow(s, q) && q in s.records
    && p in s.rows && s.rows[p].status.Released?
  }

  /** Some rename of `p` is over. */
  ghost predicate HandedOver(s: State, p: Name) {
    exists q :: Completed(s, p, q)
  }

  /** No deletion of `p`'s record takes effect without being answered as done, and nobody sweeps or revokes `p`. */
  ghost predicate Undisturbing(s: State, a: Action, p: Name) {
    && ((a.Resume? && !a.ok && a.applied) || (a.Restart? && a.applied) ==>
          !s.lane.Idle? && LaneWellFormed(s) ==> s.lane.Pending() != Delete(p))
    && (a.Revoke? && a.name in s.rows ==> Spares(RevocationTargets(s.rows, a.name), p))
    && (s.lane.Revoking? ==> Spares(s.lane.targets, p))
    && !(a.SweepVisit? && a.name == p) && !(s.lane.Sweeping? && s.lane.name == p)
  }

  predicate Spares(targets: seq<Target>, p: Name) {
    forall i | 0 <= i < |targets| :: targets[i].name != p
  }

  lemma {:induction false} RevokeAllSpares(t: Table, targets: seq<Target>, at: Time, reason: string, p: Name)
    requires p in t && Spares(targets, p)
    ensures p in RevokeAll(t, targets, at, reason) && RevokeAll(t, targets, at, reason)[p] == t[p]
    decreases |targets|
  {
    if targets != [] {
      var t1 := if StillThere(t, targets[0]) then RevokeRow(t, targets[0].name, at, reason) else t;
      assert targets[0].name != p;
      RevokeAllSpares(t1, targets[1..], at, reason, p);
    }
  }

  lemma RevocationSpares(s: State, targets: seq<Target>, i: nat, reason: string, p: Name)
    requires MaturedRow(s, p) && Spares(targets, p) && i <= |targets|
    ensures Untouched(s, RevokeFrom(s, targets, i, reason).state, p)
  {
    RevokeAllSpares(s.rows, targets, s.now, reason, p);
    hide RevokeAll;
  }

  lemma FinishCancelLeavesLive(
    cfg: Config, s: State, n: Name, previous: Name, read: Row, observed: Option<Address>, p: Name)
    requires MaturedRow(s, p) && n != p && n != previous
    ensures MaturedRow(FinishCancel(cfg, s, n, previous, read, observed).state, p)
  {
    hide FinishCancel;
    FinishCancelRows(cfg, s, n, previous, read, observed);
  }

  /** The deletion of the live record is followed at once by the completion of the rename in the lane, which is
      the outstanding one when claims are distinct. */
  lemma CompletionEndsRename(w: Promises, cfg: Config, s: State, p: Name, r: Name)
    requires Inv(w, cfg, s) && Outstanding(s, p, r) && s.lane.PreviousDown? && s.lane.previous == p
    ensures Completed(Continue(cfg, AfterCall(s, true), true).state, p, s.lane.name)
    ensures w.links ==> s.lane.name == r
  {
    if w.links {
      OnlyClaim(w, cfg, s, r);
    }
    RowFacts(w, cfg, s, p);
    RowFacts(w, cfg, s, s.lane.name);
    hide Rules;
  }

  lemma CompleteRenameSpares(t: Table, n: Name, previous: Name, node: Node, at: Time, p: Name)
    requires p in t && p != n && (p != previous || t[p].node != node)
    ensures p in CompleteRename(t, n, previous, node, at) && CompleteRename(t, n, previous, node, at)[p] == t[p]
  {
  }

  /** While the replacement's record goes up, or another rename completes, the live row is not touched. */
  lemma OtherCompletions(cfg: Config, s: State, p: Name, r: Name)
    requires LaneOk(cfg, s) && Outstanding(s, p, r) && Live(s, p)
    requires s.lane.ReplacementUp? || (s.lane.PreviousDown? && s.lane.previous != p)
    ensures Live(Continue(cfg, AfterCall(s, true), true).state, p)
  {
    hide CompleteRename;
    var row := s.lane.row;
    if s.lane.PreviousDown? {
      CompleteRenameSpares(s.rows, s.lane.name, s.lane.previous, row.node, s.lane.at, p);
    } else {
      var t := SetLastKnownAddress(s.rows, s.lane.name, Some(s.lane.address));
      if !(p == row.replacing.value && t[p].node == row.node) {
        CompleteRenameSpares(t, s.lane.name, row.replacing.value, row.node, s.lane.at, p);
      }
    }
  }

  lemma ResumeStaysLive(w: Promises, cfg: Config, s: State, ok: bool, applied: bool, p: Name, r: Name)
    requires Inv(w, cfg, s) && Outstanding(s, p, r) && Live(s, p)
    requires !s.lane.Idle? && LaneWellFormed(s) && (ok ==> applied) && Undisturbing(s, Resume(ok, applied), p)
    ensures var s' := Continue(cfg, AfterCall(s, applied), ok).state;
            || Live(s', p)
            || (s.lane.PreviousDown? && Completed(s', p, s.lane.name) && (w.links ==> s.lane.name == r))
  {
    RowFacts(w, cfg, s, p);
    hide Rules, FinishCancel, CompleteRename, RevokeFrom;
    var a := AfterCall(s, applied);
    if s.lane.PreviousDown? && s.lane.previous == p && ok {
      CompletionEndsRename(w, cfg, s, p, r);
    } else if s.lane.ReplacementUp? || s.lane.PreviousDown? {
      if ok {
        OtherCompletions(cfg, s, p, r);
      }
    } else if s.lane.Cancelling? && ok {
      FinishCancelLeavesLive(cfg, a.(lane := Idle), s.lane.name, s.lane.previous, s.lane.previousRow,
                             s.lane.observed, p);
    } else if s.lane.Revoking? && ok {
      assert s.lane.targets[s.lane.next].name != p;
      RevocationSpares(a, s.lane.targets, s.lane.next + 1, s.lane.reason, p);
    }
  }

  // ---- the actions that do not wait for the provider ----

  /** The live row stays matured and the records are not touched. */
  ghost predicate Untouched(s: State, s': State, p: Name) {
    MaturedRow(s', p) && s'.records == s.records
  }

  lemma ReactivateStaysLive(cfg: Config, s: State, n: Name, dynamic: bool, observed: Option<Address>, p: Name)
    requires MaturedRow(s, p) && n in s.rows && !s.rows[n].Active()
    ensures Untouched(s, ReactivateRow(cfg, s, n, dynamic, observed).state, p)
  {
    hide ReactivateRow;
    ReactivateRows(cfg, s, n, dynamic, observed);
  }

  lemma RegisterStaysLive(
    cfg: Config, s: State, n: Name, node: Node, dynamic: bool, presented: Option<Credential>,
    secret: Credential, observed: Option<Address>, p: Name)
    requires MaturedRow(s, p)
    ensures Untouched(s, RegisterStep(cfg, s, n, node, dynamic, presented, secret, observed).state, p)
  {
    hide AtCap, NodeFull, RegisterFresh, ReactivateRow;
    RegisterFreshRows(cfg, s, n, node, dynamic, secret);
    RegisterFreshRows(cfg, s.(rows := s.rows - {n}), n, node, dynamic, secret);
    if n in s.rows && !s.rows[n].Active() {
      ReactivateStaysLive(cfg, s, n, dynamic, observed, p);
    }
  }

  lemma ReclaimStaysLive(
    cfg: Config, s: State, n: Name, credential: Credential, dynamic: bool, observed: Option<Address>, p: Name)
    requires MaturedRow(s, p)
    ensures Untouched(s, ReclaimRouteStep(cfg, s, n, credential, dynamic, observed).state, p)
  {
    hide AtCap, NodeFull, ReactivateRow;
    if n in s.rows && !s.rows[n].Active() {
      ReactivateStaysLive(cfg, s, n, dynamic, observed, p);
    }
  }

  lemma HeartbeatStaysLive(cfg: Config, s: State, credential: Credential, observed: Option<Address>, p: Name)
    requires MaturedRow(s, p)
    ensures Untouched(s, HeartbeatStep(cfg, s, credential, observed).state, p)
  {
    hide ContactStart;
  }

  lemma RenameFreshStaysLive(cfg: Config, s: State, current: Name, row: Row, n: Name, secret: Credential, p: Name)
    requires MaturedRow(s, p) && current in s.rows && s.rows[current] == row
    ensures Untouched(s, RenameFresh(cfg, s, current, row, n, secret).state, p)
  {
    hide AtCap, ContactStart;
  }

  lemma RenameStaysLive(
    w: Promises, cfg: Config, s: State, credential: Credential, n: Name, secret: Credential, p: Name)
    requires Inv(w, cfg, s) && MaturedRow(s, p)
    ensures Untouched(s, RenameStep(cfg, s, credential, n, secret).state, p)
  {
    hide Rules, RenameFresh, RetryRename;
    var found := ByCredential(s.rows, credential);
    if s.lane.Idle? && found.Some? && s.rows[found.value].Active() && s.rows[found.value].replacing.None?
       && n != found.value {
      var current := found.value;
      var row := s.rows[current];
      var claim := ReplacementFor(s.rows, current);
      RenameFreshStaysLive(cfg, s, current, row, n, secret, p);
      if claim.Some? {
        RowFacts(w, cfg, s, current);
        RenameFreshStaysLive(
          cfg, s.(rows := DetachReplacement(s.rows, claim.value, current)), current,
          DetachReplacement(s.rows, claim.value, current)[current], n, secret, p);
        if s.rows[claim.value].status.Abandoned? {
          RenameFreshStaysLive(cfg, s.(rows := s.rows - {claim.value}), current, row, n, secret, p);
        }
        RetryRenameStaysLive(cfg, s, current, claim.value, secret, p);
      }
    }
  }

  lemma RetryRenameStaysLive(cfg: Config, s: State, current: Name, r: Name, secret: Credential, p: Name)
    requires MaturedRow(s, p) && current in s.rows && r in s.rows && s.rows[r].Claims()
    ensures Untouched(s, RetryRename(cfg, s, current, r, secret).state, p)
  {
    hide AtCap, ContactStart;
  }

  lemma ReleaseStaysLive(cfg: Config, s: State, credential: Credential, p: Name)
    requires MaturedRow(s, p)
    ensures Untouched(s, ReleaseStep(s, credential).state, p)
  {
  }

  lemma OtherActionsStayLive(w: Promises, cfg: Config, s: State, a: Action, p: Name)
    requires Inv(w, cfg, s) && MaturedRow(s, p) && Enabled(cfg, s, a) && Undisturbing(s, a, p)
    requires !a.Resume? && !(a.Restart? && a.applied)
    ensures Untouched(s, Next(cfg, s, a), p)
  {
    hide Inv, Untouched, RegisterStep, ReclaimRouteStep, HeartbeatStep, RenameStep, ReleaseStep, RevokeStep,
         Undisturbing;
    match a {
      case Register(n, node, dynamic, presented, secret, observed) =>
        RegisterStaysLive(cfg, s, n, node, dynamic, presented, secret, observed, p);
      case ReclaimRoute(n, credential, dynamic, observed) =>
        ReclaimStaysLive(cfg, s, n, credential, dynamic, observed, p);
      case Heartbeat(credential, observed) => HeartbeatStaysLive(cfg, s, credential, observed, p);
      case Rename(credential, n, secret) => RenameStaysLive(w, cfg, s, credential, n, secret, p);
      case Release(credential) => ReleaseStaysLive(cfg, s, credential, p);
      case Revoke(n, reason, expectedNode, expectedCreatedAt) =>
        RevokeStaysLive(cfg, s, n, reason, expectedNode, expectedCreatedAt, p);
      case _ => QuietActionsStayLive(cfg, s, a, p);
    }
  }

  lemma RevokeStaysLive(
    cfg: Config, s: State, n: Name, reason: string, expectedNode: Option<Node>, expectedCreatedAt: Option<Time>,
    p: Name)
    requires MaturedRow(s, p) && Undisturbing(s, Revoke(n, reason, expectedNode, expectedCreatedAt), p)
    ensures Untouched(s, RevokeStep(s, n, reason, expectedNode, expectedCreatedAt).state, p)
  {
    hide RevocationTargets, RevokeFrom;
    if n in s.rows {
      RevocationSpares(s, RevocationTargets(s.rows, n), 0, reason, p);
    }
  }

  /** A crash may let any call take effect but the deletion of the live record. */
  lemma CrashStaysLive(cfg: Config, s: State, a: Action, p: Name)
    requires Live(s, p) && a.Restart? && a.applied && Enabled(cfg, s, a) && Undisturbing(s, a, p)
    ensures Live(Next(cfg, s, a), p)
  {
    var call := s.lane.Pending();
    assert call != Delete(p);
    assert p in Applied(s.records, call);
    assert Next(cfg, s, a).records == Applied(s.records, call);
    assert Next(cfg, s, a).rows == s.rows;
  }

  lemma QuietActionsStayLive(cfg: Config, s: State, a: Action, p: Name)
    requires MaturedRow(s, p) && Enabled(cfg, s, a) && Undisturbing(s, a, p)
    requires a.Tick? || a.CancelRename? || a.SweepVisit? || a.Purge? || a.Wait? || a.RunWaiting?
             || (a.Restart? && !a.applied)
    ensures Untouched(s, Next(cfg, s, a), p)
  {
    hide ReviveRefusal;
  }

  lemma StepStaysLive(w: Promises, cfg: Config, s: State, a: Action, p: Name, r: Name)
    requires Inv(w, cfg, s) && Outstanding(s, p, r) && Live(s, p)
    requires Enabled(cfg, s, a) && Undisturbing(s, a, p)
    ensures Live(Next(cfg, s, a), p) || HandedOver(Next(cfg, s, a), p)
    ensures w.links ==> Live(Next(cfg, s, a), p) || Completed(Next(cfg, s, a), p, r)
  {
    hide Inv, Undisturbing;
    if a.Resume? {
      ResumeStaysLive(w, cfg, s, a.ok, a.applied, p, r);
    } else if a.Restart? && a.applied {
      CrashStaysLive(cfg, s, a, p);
    } else {
      OtherActionsStayLive(w, cfg, s, a, p);
    }
  }

  // ---- every run ----

  /** Before each action of the run the rename is outstanding, and no action disturbs it. */
  ghost predicate OutstandingThroughout(cfg: Config, s: State, run: seq<Action>, p: Name, r: Name)
    requires Legal(cfg, s, run)
    decreases |run|
  {
    run == []
    || (&& Outstanding(s, p, r) && Undisturbing(s, run[0], p)
        && OutstandingThroughout(cfg, Next(cfg, s, run[0]), run[1..], p, r))
  }

  /** As long as a rename is outstanding its live name is published, in any run; the action that ends it leaves
      the live name matured and published, or has just released it with a replacement matured and
      published. */
  lemma {:induction false} RenameNeverGoesDark(cfg: Config, s: State, run: seq<Action>, p: Name, r: Name)
    requires Inv(ANYWAY, cfg, s) && Live(s, p)
    requires Legal(cfg, s, run) && OutstandingThroughout(cfg, s, run, p, r)
    ensures Live(Run(cfg, s, run), p) || HandedOver(Run(cfg, s, run), p)
    decreases |run|
  {
    if run != [] {
      StepStaysLive(ANYWAY, cfg, s, run[0], p, r);
      hide Inv, HandedOver;
      StepKeeps(ANYWAY, cfg, s, run[0]);
      if run[1..] != [] {
        StillMatured(cfg, Next(cfg, s, run[0]), p, r);
        RenameNeverGoesDark(cfg, Next(cfg, s, run[0]), run[1..], p, r);
      }
    }
  }

  /** A rename that is still outstanding has not been handed over. */
  lemma StillMatured(cfg: Config, s: State, p: Name, r: Name)
    requires Outstanding(s, p, r)
    ensures !HandedOver(s, p)
  {
  }
}
