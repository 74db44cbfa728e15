/** Revocation is final, maturation happens once and the cooldown holds: a revoked row is frozen, a row keeps the
    time it matured, and an inactive name stays with its registrant until its cooldown is over, unless the
    registrant's own node cancels the rename it was reserved for. `store.reclaim` has no guard on the status, so
    this rests on every caller. */
module Cooldown {
  import opened Prelude
  import opened Registrations
  import opened Protocol
  import opened TableRules
  import opened ProtocolInvariant
  import opened ProtocolRuns

  /** Since when the row has been in its present half of life: its last contact while active, the end of
      its activity otherwise. */
  function Since(row: Row): Option<Time> {
    if row.Active() then row.lastContactAt else row.releasedAt
  }

  /** The same registration, no earlier in life; once it has matured, it keeps the time and its credential; if it
      is to be `final`, a revocation freezes it. */
  predicate Kept(final: bool, x: Row, y: Row) {
    && y.node == x.node && y.createdAt == x.createdAt
    && (x.maturedAt.Some? ==> y.maturedAt == x.maturedAt && y.credential == x.credential)
    && (final && x.status.Revoked? ==> y == x)
    && (Since(x).Some? ==> Since(y).Some? && Since(x).value <= Since(y).value)
  }

  predicate CooldownOver(cfg: Config, row: Row, now: Time) {
    !row.Active() && row.Expired(cfg.cooldown, now)
  }

  /** A credential that is the row's own still, or was never issued before. */
  predicate OwnOrNew(s: State, x: Row, y: Row) {
    y.credential == x.credential || y.credential !in s.issued
  }

  /** The row under the name is the same registration still. */
  predicate KeptAs(w: Promises, s: State, t: Table, n: Name)
    requires n in s.rows
  {
    n in t && Kept(w.final == Some(n), s.rows[n], t[n]) && OwnOrNew(s, s.rows[n], t[n])
  }

  /** The row has gone, or given way to a newly issued one, and its cooldown is over. */
  predicate Freed(cfg: Config, s: State, t: Table, n: Name)
    requires n in s.rows
  {
    CooldownOver(cfg, s.rows[n], s.now) && (n in t ==> t[n].credential !in s.issued)
  }

  /** Every row but those in `spent` is kept or freed, and every new row is newly issued. */
  ghost predicate KeepsAll(w: Promises, cfg: Config, s: State, t: Table, spent: set<Name>) {
    && (forall n | n in s.rows && n !in spent :: KeptAs(w, s, t, n) || Freed(cfg, s, t, n))
    && (forall n | n in t && n !in s.rows :: t[n].credential !in s.issued)
  }

  /** Nobody ends the activity of a row as of a time before its last contact. */
  ghost predicate LaneTimely(cfg: Config, s: State) {
    match s.lane
    case Sweeping(n, startedAt) => n in s.rows ==> s.rows[n].LatestContact() <= startedAt
    case ReplacementUp(_, row, _, at) => Before(s, row.replacing, at)
    case PreviousDown(_, row, _, at) => Before(s, row.replacing, at)
    case _ => true
  }

  ghost predicate Before(s: State, n: Option<Name>, at: Time) {
    n.Some? && n.value in s.rows && s.rows[n.value].Active() && s.rows[n.value].lastContactAt.Some? ==>
      s.rows[n.value].lastContactAt.value <= at
  }

  /** Rows are sound and their time stamps past, which every reachable state guarantees. */
  ghost predicate Past(t: Table, now: Time) {
    forall n | n in t :: RowOk(t[n]) && (Since(t[n]).Some? ==> Since(t[n]).value <= now)
  }

  lemma PastRow(t: Table, now: Time, n: Name)
    requires Past(t, now) && n in t
    ensures RowOk(t[n])
  {
  }

  lemma CorePast(w: Promises, cfg: Config, s: State)
    requires Core(w, cfg, s)
    ensures Past(s.rows, s.now)
  {
    hide NothingLeftBehind, Watched;
  }

  // ---- one lemma a handler ----

  lemma ReactivateKept(w: Promises, cfg: Config, s: State, n: Name, dynamic: bool, observed: Option<Address>)
    requires Past(s.rows, s.now) && n in s.rows
    requires w.final == Some(n) && CanReclaim(s.rows, n, s.rows[n].maturedAt.Some?) ==> !s.rows[n].status.Revoked?
    ensures KeepsAll(w, cfg, s, ReactivateRow(cfg, s, n, dynamic, observed).state.rows, {})
  {
    hide ReactivateRow, KeepsAll, CanReclaim;
    ReactivateRows(cfg, s, n, dynamic, observed);
    SelfKept(w.final == Some(n), s.rows[n]);
    KeptBesides(w, cfg, s, ReactivateRow(cfg, s, n, dynamic, observed).state.rows, {n});
  }

  lemma RegisterFreshKept(w: Promises, cfg: Config, s: State, n: Name, node: Node, dynamic: bool, secret: Credential)
    requires n !in s.rows && secret !in s.issued
    ensures KeepsAll(w, cfg, s, RegisterFresh(cfg, s, n, node, dynamic, secret).state.rows, {})
  {
    hide RegisterFresh, KeepsAll;
    RegisterFreshRows(cfg, s, n, node, dynamic, secret);
    KeptBesides(w, cfg, s, RegisterFresh(cfg, s, n, node, dynamic, secret).state.rows, {});
  }

  lemma RegisterKept(
    w: Promises, cfg: Config, s: State, n: Name, node: Node, dynamic: bool, presented: Option<Credential>,
    secret: Credential, observed: Option<Address>)
    requires Past(s.rows, s.now) && secret !in s.issued
    ensures KeepsAll(w, cfg, s, RegisterStep(cfg, s, n, node, dynamic, presented, secret, observed).state.rows, {})
  {
    hide RegisterFresh, ReactivateRow, AtCap, NodeFull, KeepsAll, Past;
    KeptBesides(w, cfg, s, s.rows, {});
    if n !in s.rows {
      RegisterFreshKept(w, cfg, s, n, node, dynamic, secret);
    } else if s.rows[n].Active() {
    } else if s.rows[n].Expired(cfg.cooldown, s.now) {
      var s1 := s.(rows := s.rows - {n});
      RegisterFreshKept(w, cfg, s1, n, node, dynamic, secret);
      KeptFromView(w, cfg, s, s1, RegisterFresh(cfg, s1, n, node, dynamic, secret).state.rows);
    } else if !s.rows[n].status.Revoked? {
      ReactivateKept(w, cfg, s, n, dynamic, observed);
    }
  }

  lemma ReclaimRouteKept(
    w: Promises, cfg: Config, s: State, n: Name, credential: Credential, dynamic: bool, observed: Option<Address>)
    requires Past(s.rows, s.now)
    ensures KeepsAll(w, cfg, s, ReclaimRouteStep(cfg, s, n, credential, dynamic, observed).state.rows, {})
  {
    hide ReactivateRow, AtCap, NodeFull, KeepsAll, Past;
    KeptBesides(w, cfg, s, s.rows, {});
    if n in s.rows && !s.rows[n].status.Revoked? {
      ReactivateKept(w, cfg, s, n, dynamic, observed);
    }
  }

  /** It is enough to look at the rows an action changes. */
  lemma KeptBesides(w: Promises, cfg: Config, s: State, t: Table, changed: set<Name>)
    requires forall n | n in s.rows && n !in changed ::
               (n in t && t[n] == s.rows[n]) || Freed(cfg, s, t, n)
    requires forall n | n in s.rows && n in changed :: KeptAs(w, s, t, n) || Freed(cfg, s, t, n)
    requires forall n | n in t && n !in s.rows :: t[n].credential !in s.issued
    ensures KeepsAll(w, cfg, s, t, {})
  {
  }

  lemma SelfKept(final: bool, row: Row)
    ensures Kept(final, row, row)
  {
  }

  lemma ContactIsKept(w: Promises, s: State, n: Name, y: Row)
    requires Past(s.rows, s.now) && n in s.rows && !(w.final == Some(n) && s.rows[n].status.Revoked?)
    requires y.node == s.rows[n].node && y.createdAt == s.rows[n].createdAt
    requires s.rows[n].maturedAt.Some? ==> y.maturedAt == s.rows[n].maturedAt && y.credential == s.rows[n].credential
    requires y.Active() && y.lastContactAt == Some(s.now)
    ensures Kept(w.final == Some(n), s.rows[n], y)
  {
  }

  lemma HeartbeatKept(w: Promises, cfg: Config, s: State, credential: Credential, observed: Option<Address>)
    requires Past(s.rows, s.now)
    ensures KeepsAll(w, cfg, s, HeartbeatStep(cfg, s, credential, observed).state.rows, {})
  {
    hide KeepsAll, CooldownOver, Past, Kept, ContactStart, HeartbeatStep;
    var t := HeartbeatStep(cfg, s, credential, observed).state.rows;
    var found := ByCredential(s.rows, credential);
    if s.lane.Idle? && found.Some? && s.rows[found.value].Active() {
      HeartbeatRows(cfg, s, credential, observed, found.value);
      PastRow(s.rows, s.now, found.value);
      ContactIsKept(w, s, found.value, t[found.value]);
      KeptBesides(w, cfg, s, t, {found.value});
    } else {
      HeartbeatRefused(cfg, s, credential, observed);
      KeptBesides(w, cfg, s, t, {});
    }
  }

  lemma RenameFreshKept(w: Promises, cfg: Config, s: State, current: Name, row: Row, n: Name, secret: Credential)
    requires Past(s.rows, s.now) && current in s.rows && s.rows[current] == row && row.Active() && n != current
    requires secret !in s.issued
    ensures KeepsAll(w, cfg, s, RenameFresh(cfg, s, current, row, n, secret).state.rows, {})
  {
    hide KeepsAll, RenameFresh, Kept, Past, ContactStart;
    var t := RenameFresh(cfg, s, current, row, n, secret).state.rows;
    RenameFreshRows(cfg, s, current, row, n, secret);
    SelfKept(w.final == Some(current), row);
    if t[current] != row {
      ContactIsKept(w, s, current, t[current]);
    }
    KeptBesides(w, cfg, s, t, {current});
  }

  lemma RetryRenameKept(w: Promises, cfg: Config, s: State, current: Name, r: Name, secret: Credential)
    requires Past(s.rows, s.now) && current in s.rows && s.rows[current].Active()
    requires r in s.rows && r != current && s.rows[r].Claims() && secret !in s.issued
    ensures KeepsAll(w, cfg, s, RetryRename(cfg, s, current, r, secret).state.rows, {})
  {
    hide AtCap, ContactStart, KeepsAll, Past, Kept, CooldownOver, RetryRename, RetryIsRefused;
    var t := RetryRename(cfg, s, current, r, secret).state.rows;
    if RetryIsRefused(cfg, s, r) {
      RetryRefused(cfg, s, current, r, secret);
      KeptBesides(w, cfg, s, t, {});
    } else {
      RetryRenameRows(cfg, s, current, r, secret);
      PastRow(s.rows, s.now, r);
      ContactIsKept(w, s, current, t[current]);
      ContactIsKept(w, s, r, t[r]);
      KeptBesides(w, cfg, s, t, {current, r});
    }
  }

  /** What was kept from a table that had lost only expired rows, or claims, is kept from the whole. */
  lemma KeptFromView(w: Promises, cfg: Config, s: State, s1: State, t: Table)
    requires s1.now == s.now && s1.issued == s.issued && s1.rows.Keys <= s.rows.Keys && KeepsAll(w, cfg, s1, t, {})
    requires forall n | n in s.rows ::
               || (n !in s1.rows && CooldownOver(cfg, s.rows[n], s.now))
               || (n in s1.rows && s1.rows[n] == s.rows[n])
               || (n in s1.rows && s.rows[n].Claims() && s1.rows[n] == s.rows[n].(replacing := None))
    ensures KeepsAll(w, cfg, s, t, {})
  {
  }

  /** A rename that first withdraws a claim of another node, or deletes an expired replacement. */
  lemma ClearedRenameKept(
    w: Promises, cfg: Config, s: State, s1: State, current: Name, claim: Name, n: Name, secret: Credential)
    requires Past(s.rows, s.now) && current in s.rows && s.rows[current].Active() && s.rows[current].replacing.None?
    requires n != current && claim in s.rows && s.rows[claim].Claims() && secret !in s.issued
    requires || s1 == s.(rows := DetachReplacement(s.rows, claim, current))
             || (s1 == s.(rows := s.rows - {claim}) && CooldownOver(cfg, s.rows[claim], s.now))
    ensures KeepsAll(w, cfg, s, RenameFresh(cfg, s1, current, s.rows[current], n, secret).state.rows, {})
  {
    hide KeepsAll, RenameFresh;
    RenameFreshKept(w, cfg, s1, current, s.rows[current], n, secret);
    KeptFromView(w, cfg, s, s1, RenameFresh(cfg, s1, current, s.rows[current], n, secret).state.rows);
  }

  lemma RenameKept(w: Promises, cfg: Config, s: State, credential: Credential, n: Name, secret: Credential)
    requires Inv(w, cfg, s) && Past(s.rows, s.now) && secret !in s.issued
    ensures KeepsAll(w, cfg, s, RenameStep(cfg, s, credential, n, secret).state.rows, {})
  {
    hide Rules, Past, KeepsAll, RenameFresh, RetryRename, DetachReplacement;
    var found := ByCredential(s.rows, credential);
    KeptBesides(w, cfg, s, s.rows, {});
    if s.lane.Idle? && found.Some? && s.rows[found.value].Active() && s.rows[found.value].replacing.None?
       && n != found.value {
      var current := found.value;
      var claim := ReplacementFor(s.rows, current);
      if claim.None? {
        RenameFreshKept(w, cfg, s, current, s.rows[current], n, secret);
      } else if s.rows[claim.value].node != s.rows[current].node {
        var s1 := s.(rows := DetachReplacement(s.rows, claim.value, current));
        ClearedRenameKept(w, cfg, s, s1, current, claim.value, n, secret);
      } else if s.rows[claim.value].status.Abandoned? && s.rows[claim.value].Expired(cfg.cooldown, s.now) {
        ClearedRenameKept(w, cfg, s, s.(rows := s.rows - {claim.value}), current, claim.value, n, secret);
      } else if claim.value == n {
        RetryRenameKept(w, cfg, s, current, n, secret);
      }
    }
  }

  lemma RevokeAllKept(w: Promises, cfg: Config, s: State, t: Table, targets: seq<Target>, at: Time, reason: string)
    requires Past(t, at)
    ensures RevokeAll(t, targets, at, reason).Keys == t.Keys
    ensures forall n | n in t :: Kept(w.final == Some(n), t[n], RevokeAll(t, targets, at, reason)[n])
                               && RevokeAll(t, targets, at, reason)[n].credential == t[n].credential
    decreases |targets|
  {
    if targets != [] {
      var t1 := if StillThere(t, targets[0]) then RevokeRow(t, targets[0].name, at, reason) else t;
      assert forall n | n in t :: Kept(w.final == Some(n), t[n], t1[n]) && t1[n].credential == t[n].credential;
      RevokeAllKept(w, cfg, s, t1, targets[1..], at, reason);
      assert forall n | n in t :: Kept(w.final == Some(n), t1[n], RevokeAll(t1, targets[1..], at, reason)[n]);
    }
  }

  lemma RevokeFromKept(w: Promises, cfg: Config, s: State, targets: seq<Target>, i: nat, reason: string)
    requires Past(s.rows, s.now) && i <= |targets|
    ensures KeepsAll(w, cfg, s, RevokeFrom(s, targets, i, reason).state.rows, {})
  {
    RevokeAllKept(w, cfg, s, s.rows, targets, s.now, reason);
    hide RevokeAll, NextPublishable;
  }

  lemma DeactivateKept(w: Promises, cfg: Config, s: State, n: Name, status: Status, at: Time)
    requires n in s.rows && s.rows[n].Active() && s.rows[n].LatestContact() <= at
    requires !status.Pending? && !status.Matured?
    ensures KeepsAll(w, cfg, s, Deactivate(s.rows, n, status, at), {})
  {
  }

  lemma SweepKept(w: Promises, cfg: Config, s: State, n: Name, startedAt: Time)
    requires cfg.Valid()
    ensures KeepsAll(w, cfg, s, SweepStep(cfg, s, n, startedAt).state.rows, {})
    ensures s.lane.Idle? ==> LaneTimely(cfg, SweepStep(cfg, s, n, startedAt).state)
  {
  }

  lemma FinishCancelKept(
    w: Promises, cfg: Config, s: State, n: Name, previous: Name, read: Row, observed: Option<Address>)
    requires Past(s.rows, s.now) && n != previous
    ensures KeepsAll(w, cfg, s, FinishCancel(cfg, s, n, previous, read, observed).state.rows, {n})
  {
    var t := FinishCancel(cfg, s, n, previous, read, observed).state.rows;
    FinishCancelRows(cfg, s, n, previous, read, observed);
    hide FinishCancel, KeepsAll, Kept, Past;
    if t == s.rows {
      KeptBesides(w, cfg, s, t, {});
    } else {
      var s1 := s.(rows := s.rows - {n});
      if previous in t && t[previous] != s.rows[previous] {
        ContactIsKept(w, s, previous, t[previous]);
      } else if previous in s.rows {
        SelfKept(w.final == Some(previous), s.rows[previous]);
      }
      KeptBut(w, cfg, s, t, n, previous);
    }
  }

  lemma KeptBut(w: Promises, cfg: Config, s: State, t: Table, n: Name, previous: Name)
    requires t.Keys == s.rows.Keys - {n}
    requires forall m | m in t && m != previous :: t[m] == s.rows[m]
    requires previous in t ==> KeptAs(w, s, t, previous)
    ensures KeepsAll(w, cfg, s, t, {n})
  {
  }

  lemma CompleteRenameKept(w: Promises, cfg: Config, s: State, n: Name, previous: Name, node: Node, at: Time)
    requires n in s.rows && Before(s, Some(previous), at) && RowOk(s.rows[n])
    ensures KeepsAll(w, cfg, s, CompleteRename(s.rows, n, previous, node, at), {})
  {
  }

  /** The address columns are no part of a registration's standing; nobody sets a revoked row's. */
  lemma AddressKept(w: Promises, cfg: Config, s: State, n: Name, address: Option<Address>)
    requires n in s.rows ==> !s.rows[n].status.Revoked?
    ensures KeepsAll(w, cfg, s, SetLastKnownAddress(s.rows, n, address), {})
  {
  }

  lemma KeptTwice(w: Promises, cfg: Config, s: State, t: Table, t': Table)
    requires KeepsAll(w, cfg, s, t, {}) && KeepsAll(w, cfg, s.(rows := t), t', {})
    requires t.Keys == s.rows.Keys && forall n | n in t :: t[n].credential == s.rows[n].credential
    requires forall n | n in t && CooldownOver(cfg, t[n], s.now) :: CooldownOver(cfg, s.rows[n], s.now)
    ensures KeepsAll(w, cfg, s, t', {})
  {
  }

  /** What a handler does once its provider call has returned. */
  lemma ContinueKept(w: Promises, cfg: Config, s: State, ok: bool, applied: bool)
    requires Inv(w, cfg, s) && Past(s.rows, s.now) && LaneTimely(cfg, s)
    requires !s.lane.Idle? && LaneWellFormed(s) && (ok ==> applied)
    ensures KeepsAll(w, cfg, s, Continue(cfg, AfterCall(s, applied), ok).state.rows,
                     if ok && s.lane.Cancelling? then {s.lane.name} else {})
  {
    hide Rules, KeepsAll, FinishCancel, RevokeFrom, CompleteRename, Deactivate;
    var a := AfterCall(s, applied);
    var t := Continue(cfg, a, ok).state.rows;
    if !ok && !s.lane.Restoring? {
      KeptBesides(w, cfg, s, t, {});
    } else {
      match s.lane {
        case Sweeping(n, startedAt) => DeactivateKept(w, cfg, s, n, Abandoned, startedAt);
        case Publishing(n, address) => AddressKept(w, cfg, s, n, Some(address));
        case Restoring(n, address, _) => AddressKept(w, cfg, s, n, if ok then Some(address) else None);
        case ReplacementUp(n, row, address, at) =>
          PastRow(s.rows, s.now, n);
          ReplacementUpKept(w, cfg, s, n, row, address, at);
        case PreviousDown(n, row, previous, at) => CompleteRenameKept(w, cfg, s, n, previous, row.node, at);
        case Cancelling(n, previous, read, observed) =>
          FinishCancelKept(w, cfg, a.(lane := Idle), n, previous, read, observed);
          KeptElsewhere(w, cfg, s, a.(lane := Idle), t, {n});
        case Releasing(n) =>
          LatestIsPast(w, cfg, s, n);
          DeactivateKept(w, cfg, s, n, Released, s.now);
        case Revoking(targets, next, reason) =>
          RevokeFromKept(w, cfg, a, targets, next + 1, reason);
          KeptElsewhere(w, cfg, s, a, t, {});
      }
    }
  }

  lemma KeptElsewhere(w: Promises, cfg: Config, s: State, s1: State, t: Table, spent: set<Name>)
    requires s1.rows == s.rows && s1.now == s.now && s1.issued == s.issued && KeepsAll(w, cfg, s1, t, spent)
    ensures KeepsAll(w, cfg, s, t, spent)
  {
  }

  lemma LatestIsPast(w: Promises, cfg: Config, s: State, n: Name)
    requires Core(w, cfg, s) && n in s.rows
    ensures s.rows[n].LatestContact() <= s.now
  {
  }

  lemma ReplacementUpKept(w: Promises, cfg: Config, s: State, n: Name, row: Row, address: Address, at: Time)
    requires s.lane == ReplacementUp(n, row, address, at) && ReplacementOk(s, n, row) && LaneTimely(cfg, s)
    requires RowOk(s.rows[n])
    ensures KeepsAll(w, cfg, s, Continue(cfg, AfterCall(s, true), true).state.rows, {})
  {
    hide KeepsAll, CompleteRename;
    var t := SetLastKnownAddress(s.rows, n, Some(address));
    var s1 := s.(rows := t);
    var previous := row.replacing.value;
    AddressKept(w, cfg, s, n, Some(address));
    if previous in t && t[previous].status.Matured? && t[previous].node == row.node {
      AddressKept(w, cfg, s1, previous, None);
      KeptTwice(w, cfg, s, t, SetLastKnownAddress(t, previous, None));
    } else {
      CompleteRenameKept(w, cfg, s1, n, previous, row.node, at);
      KeptTwice(w, cfg, s, t, CompleteRename(t, n, previous, row.node, at));
    }
  }

  // ---- every action ----

  /** The rows an action may take away before their cooldown: the replacement whose cancellation
      completes. */
  function Cancelled(s: State, a: Action): set<Name> {
    if a.Resume? && a.ok && s.lane.Cancelling? then {s.lane.name} else {}
  }

  lemma ReleaseKept(w: Promises, cfg: Config, s: State, credential: Credential)
    requires Core(w, cfg, s)
    ensures KeepsAll(w, cfg, s, ReleaseStep(s, credential).state.rows, {})
  {
    hide KeepsAll, Rules;
    var t := ReleaseStep(s, credential).state.rows;
    if t == s.rows {
      KeptBesides(w, cfg, s, t, {});
    } else {
      var n := ByCredential(s.rows, credential).value;
      LatestIsPast(w, cfg, s, n);
      DeactivateKept(w, cfg, s, n, Released, s.now);
    }
  }

  lemma RevokeKept(
    w: Promises, cfg: Config, s: State, n: Name, reason: string, expectedNode: Option<Node>,
    expectedCreatedAt: Option<Time>)
    requires Past(s.rows, s.now)
    ensures KeepsAll(w, cfg, s, RevokeStep(s, n, reason, expectedNode, expectedCreatedAt).state.rows, {})
  {
    hide KeepsAll, RevokeFrom, RevocationTargets;
    KeptBesides(w, cfg, s, s.rows, {});
    if n in s.rows {
      RevokeFromKept(w, cfg, s, RevocationTargets(s.rows, n), 0, reason);
    }
  }

  lemma PurgeKept(w: Promises, cfg: Config, s: State, startedAt: Time)
    requires startedAt <= s.now
    ensures KeepsAll(w, cfg, s, DeleteExpired(s.rows, startedAt - cfg.cooldown), {})
  {
  }

  lemma RequestKept(w: Promises, cfg: Config, s: State, a: Action)
    requires Inv(w, cfg, s) && cfg.Valid() && Enabled(cfg, s, a)
    requires a.Register? || a.ReclaimRoute? || a.Heartbeat? || a.Rename? || a.CancelRename? || a.Release? || a.Revoke?
    ensures KeepsAll(w, cfg, s, Next(cfg, s, a).rows, Cancelled(s, a))
  {
    CorePast(w, cfg, s);
    hide KeepsAll, Inv, Past, RegisterStep, ReclaimRouteStep, HeartbeatStep, RenameStep, ReleaseStep,
         RevokeStep, CancelRenameStep;
    match a {
      case Register(n, node, dynamic, presented, secret, observed) =>
        RegisterKept(w, cfg, s, n, node, dynamic, presented, secret, observed);
      case ReclaimRoute(n, credential, dynamic, observed) =>
        ReclaimRouteKept(w, cfg, s, n, credential, dynamic, observed);
      case Heartbeat(credential, observed) => HeartbeatKept(w, cfg, s, credential, observed);
      case Rename(credential, n, secret) => RenameKept(w, cfg, s, credential, n, secret);
      case CancelRename(credential, observed) =>
        CancelAdmissionKept(w, cfg, s, credential, observed);
      case Release(credential) => ReleaseKept(w, cfg, s, credential);
      case Revoke(n, reason, expectedNode, expectedCreatedAt) =>
        RevokeKept(w, cfg, s, n, reason, expectedNode, expectedCreatedAt);
    }
  }

  lemma ActionKept(w: Promises, cfg: Config, s: State, a: Action)
    requires Inv(w, cfg, s) && LaneTimely(cfg, s) && cfg.Valid() && Enabled(cfg, s, a) && Harmless(w, cfg, s, a)
    ensures KeepsAll(w, cfg, s, Next(cfg, s, a).rows, Cancelled(s, a))
  {
    CorePast(w, cfg, s);
    hide KeepsAll, Inv, Past, LaneTimely, RegisterStep, ReclaimRouteStep, HeartbeatStep, RenameStep, ReleaseStep,
         RevokeStep, SweepStep, Continue, CancelRenameStep, DeleteExpired;
    if a.Resume? {
      ContinueKept(w, cfg, s, a.ok, a.applied);
    } else if a.RunWaiting? {
      TurnKept(w, cfg, s);
    } else if a.SweepVisit? {
      SweepKept(w, cfg, s, a.name, a.startedAt);
    } else if a.Purge? {
      PurgeKept(w, cfg, s, a.startedAt);
    } else if a.Tick? || a.Restart? || a.Wait? {
      KeptBesides(w, cfg, s, s.rows, {});
    } else {
      RequestKept(w, cfg, s, a);
    }
  }

  lemma TurnKept(w: Promises, cfg: Config, s: State)
    requires Past(s.rows, s.now) && Enabled(cfg, s, RunWaiting) && Harmless(w, cfg, s, RunWaiting)
    ensures KeepsAll(w, cfg, s, Next(cfg, s, RunWaiting).rows, {})
  {
    hide KeepsAll, AtCap, NodeFull, CanReclaim;
    var k := s.waiting[0];
    var s1 := s.(waiting := s.waiting[1..]);
    if k.name in s.rows && !s.rows[k.name].Active() && s.rows[k.name].credential == k.credential {
      ReactivateKept(w, cfg, s1, k.name, k.dynamic, k.observed);
      KeptElsewhere(w, cfg, s, s1, Next(cfg, s, RunWaiting).rows, {});
    } else {
      KeptBesides(w, cfg, s, s.rows, {});
    }
  }

  lemma CancelAdmissionKept(w: Promises, cfg: Config, s: State, credential: Credential, observed: Option<Address>)
    ensures KeepsAll(w, cfg, s, CancelRenameStep(cfg, s, credential, observed).state.rows, {})
  {
    hide ReviveRefusal;
  }

  // ---- the owner of the lane ----

  lemma HeartbeatTimely(cfg: Config, s: State, credential: Credential, observed: Option<Address>)
    requires Past(s.rows, s.now) && s.lane.Idle?
    ensures LaneTimely(cfg, HeartbeatStep(cfg, s, credential, observed).state)
  {
    hide ContactStart;
  }

  lemma ContinueTimely(cfg: Config, s: State, ok: bool, applied: bool)
    requires LaneTimely(cfg, s) && !s.lane.Idle? && LaneWellFormed(s)
    ensures LaneTimely(cfg, Continue(cfg, AfterCall(s, applied), ok).state)
  {
    hide CompleteRename, FinishCancel, RevokeFrom;
  }

  lemma TimelySurvives(cfg: Config, s: State, s': State)
    requires LaneOk(cfg, s) && LaneTimely(cfg, s) && Beside(s, s')
    ensures LaneTimely(cfg, s')
  {
  }

  lemma HeldTimely(cfg: Config, s: State, a: Action)
    requires LaneOk(cfg, s) && LaneTimely(cfg, s)
    requires Enabled(cfg, s, a) && !s.lane.Idle? && !a.Resume? && !a.Restart?
    ensures LaneTimely(cfg, Next(cfg, s, a))
  {
    hide Beside;
    HeldLane(cfg, s, a);
    TimelySurvives(cfg, s, Next(cfg, s, a));
  }

  lemma TimelyStep(w: Promises, cfg: Config, s: State, a: Action)
    requires Inv(w, cfg, s) && LaneTimely(cfg, s) && cfg.Valid() && Enabled(cfg, s, a)
    ensures LaneTimely(cfg, Next(cfg, s, a))
  {
    CorePast(w, cfg, s);
    hide Rules, Past;
    if a.Resume? {
      ContinueTimely(cfg, s, a.ok, a.applied);
    } else if !s.lane.Idle? && !a.Restart? {
      HeldTimely(cfg, s, a);
    } else if a.Heartbeat? {
      HeartbeatTimely(cfg, s, a.credential, a.observed);
    } else if a.SweepVisit? {
      SweepKept(w, cfg, s, a.name, a.startedAt);
    } else {
      hide RegisterStep, ReclaimRouteStep, RenameStep, ReleaseStep, RevokeStep, CancelRenameStep, ReclaimInLane;
    }
  }

  // ---- every run ----

  /** A cancellation takes the replacement's row or leaves it as it is, and never takes a revoked one. */
  lemma CancellationTakesOrLeaves(cfg: Config, s: State, a: Action, n: Name)
    requires LaneOk(cfg, s) && Enabled(cfg, s, a) && n in Cancelled(s, a) && n in s.rows
    ensures var t := Next(cfg, s, a).rows;
            n in t ==> t[n] == s.rows[n]
    ensures s.rows[n].status.Revoked? ==> n in Next(cfg, s, a).rows
  {
    hide ReviveRefusal, ContactStart;
  }

  /** A cancellation that takes a row was asked for by the row's own node. */
  lemma CancellationIsOwn(w: Promises, cfg: Config, s: State, credential: Credential, observed: Option<Address>)
    requires Inv(w, cfg, s) && s.lane.Idle?
    ensures var s' := CancelRenameStep(cfg, s, credential, observed).state;
            s'.lane.Cancelling? ==>
              && ByCredential(s.rows, credential).Some?
              && s.rows[ByCredential(s.rows, credential).value].node == s'.lane.previousRow.node
              && s.rows[s'.lane.name].node == s'.lane.previousRow.node
  {
    hide Rules, ReviveRefusal;
  }

  /** What it takes when the provider has answered still belongs to that node. */
  lemma CancellationTakesOwn(w: Promises, cfg: Config, s: State, a: Action, n: Name)
    requires Inv(w, cfg, s) && Enabled(cfg, s, a) && n in Cancelled(s, a)
    requires n in s.rows && n !in Next(cfg, s, a).rows
    ensures s.rows[n].Claims() && s.rows[n].node == s.lane.previousRow.node
  {
    hide Rules, ReviveRefusal, ContactStart;
  }

  // ---- who asked for a cancellation ----

  /** The node that asked for the cancellation which now holds the lane, if one does. */
  ghost function Asker(s: State, a: Action, asker: Option<Node>): Option<Node> {
    if a.CancelRename? && s.lane.Idle? then
      var found := ByCredential(s.rows, a.credential);
      if found.Some? then Some(s.rows[found.value].node) else None
    else asker
  }

  ghost function LastAsker(cfg: Config, s: State, run: seq<Action>, asker: Option<Node>): Option<Node>
    requires Legal(cfg, s, run)
    decreases |run|
  {
    if run == [] then asker else LastAsker(cfg, Next(cfg, s, run[0]), run[1..], Asker(s, run[0], asker))
  }

  ghost predicate AskerOk(s: State, asker: Option<Node>) {
    s.lane.Cancelling? ==> asker == Some(s.lane.previousRow.node)
  }

  lemma ContinuesNoCancellation(cfg: Config, s: State, ok: bool)
    requires !s.lane.Idle? && LaneWellFormed(s)
    ensures !Continue(cfg, s, ok).state.lane.Cancelling?
  {
    hide FinishCancel, CompleteRename;
  }

  lemma AskerStep(w: Promises, cfg: Config, s: State, a: Action, asker: Option<Node>)
    requires Inv(w, cfg, s) && Enabled(cfg, s, a) && AskerOk(s, asker)
    ensures AskerOk(Next(cfg, s, a), Asker(s, a, asker))
  {
    hide Inv;
    if a.Resume? {
      ContinuesNoCancellation(cfg, AfterCall(s, a.applied), a.ok);
    } else if !s.lane.Idle? && !a.Restart? {
      HeldLane(cfg, s, a);
    } else if a.CancelRename? {
      CancellationIsOwn(w, cfg, s, a.credential, a.observed);
    } else {
      hide RegisterStep, ReclaimRouteStep, HeartbeatStep, RenameStep, ReleaseStep, RevokeStep, SweepStep, ReclaimInLane;
    }
  }

  lemma {:induction false} RunKeepsAsker(cfg: Config, s: State, run: seq<Action>, asker: Option<Node>)
    requires cfg.Valid() && Inv(ANYWAY, cfg, s) && Legal(cfg, s, run) && AskerOk(s, asker)
    ensures AskerOk(Run(cfg, s, run), LastAsker(cfg, s, run, asker))
    decreases |run|
  {
    hide Inv, AskerOk;
    if run != [] {
      StepKeeps(ANYWAY, cfg, s, run[0]);
      AskerStep(ANYWAY, cfg, s, run[0], asker);
      RunKeepsAsker(cfg, Next(cfg, s, run[0]), run[1..], Asker(s, run[0], asker));
    }
  }

  // ---- every run ----

  /** The action is the end of a cancellation that deletes the row named `n`. */
  ghost predicate Takes(cfg: Config, s: State, a: Action, n: Name)
    requires Enabled(cfg, s, a)
  {
    n in s.rows && n in Cancelled(s, a) && n !in Next(cfg, s, a).rows
  }

  predicate SameRegistration(x: Row, y: Row) {
    x.node == y.node && x.createdAt == y.createdAt
  }

  /** Somewhere in the run a cancellation takes the registration `row` of `n`, and the row's own node has asked
      for that cancellation. */
  ghost predicate OwnNodeCancels(cfg: Config, s: State, run: seq<Action>, n: Name, row: Row, asker: Option<Node>)
    requires Legal(cfg, s, run)
    decreases |run|
  {
    run != [] &&
    (|| (Takes(cfg, s, run[0], n) && SameRegistration(s.rows[n], row) && asker == Some(row.node))
     || OwnNodeCancels(cfg, Next(cfg, s, run[0]), run[1..], n, row, Asker(s, run[0], asker)))
  }

  /** A name whose row is inactive belongs to the same registration, of the same node, until the
      cooldown is over, whatever is requested meanwhile, unless its own node cancels it. */
  lemma {:induction false} CooldownHolds(
    cfg: Config, s: State, run: seq<Action>, n: Name, row: Row, since: Time, asker: Option<Node>)
    requires cfg.Valid() && Inv(ANYWAY, cfg, s) && LaneTimely(cfg, s) && AskerOk(s, asker) && Legal(cfg, s, run)
    requires n in s.rows && SameRegistration(s.rows[n], row)
    requires Since(s.rows[n]).Some? && Since(s.rows[n]).value >= since
    requires Run(cfg, s, run).now - since < cfg.cooldown
    ensures var t := Run(cfg, s, run).rows;
            || (n in t && SameRegistration(t[n], row))
            || OwnNodeCancels(cfg, s, run, n, row, asker)
    decreases |run|
  {
    if run != [] {
      var s' := Next(cfg, s, run[0]);
      if n in Cancelled(s, run[0]) {
        CancellationTakesOrLeaves(cfg, s, run[0], n);
        if n !in s'.rows {
          CancellationTakesOwn(ANYWAY, cfg, s, run[0], n);
          assert Takes(cfg, s, run[0], n);
          return;
        }
      }
      hide Inv, LaneTimely, AskerOk;
      StepKeeps(ANYWAY, cfg, s, run[0]);
      TimelyStep(ANYWAY, cfg, s, run[0]);
      AskerStep(ANYWAY, cfg, s, run[0], asker);
      ActionKept(ANYWAY, cfg, s, run[0]);
      ClockAdvances(cfg, s', run[1..]);
      ClockSteps(cfg, s, run[0]);
      CooldownHolds(cfg, s', run[1..], n, row, since, Asker(s, run[0], asker));
    }
  }

  /** A revoked row never changes again: it stays as it is at least until its cooldown is over, and any
      other row found under its name later is a newly issued one. */
  lemma {:induction false} RevokedIsFinal(
    cfg: Config, s: State, run: seq<Action>, n: Name, row: Row, issued: set<Credential>)
    requires cfg.Valid() && Inv(FinalityOf(n), cfg, s) && LaneTimely(cfg, s)
    requires Legal(cfg, s, run) && HarmlessTurns(FinalityOf(n), cfg, s, run)
    requires row.status.Revoked? && row.releasedAt.Some? && issued <= s.issued
    requires n in s.rows ==> s.rows[n] == row || s.rows[n].credential !in issued
    requires Run(cfg, s, run).now - row.releasedAt.value < cfg.cooldown ==> n in s.rows && s.rows[n] == row
    ensures var t := Run(cfg, s, run).rows;
            && (n in t ==> t[n] == row || t[n].credential !in issued)
            && (Run(cfg, s, run).now - row.releasedAt.value < cfg.cooldown ==> n in t && t[n] == row)
    decreases |run|
  {
    if run != [] {
      var s' := Next(cfg, s, run[0]);
      if n in s.rows && n in Cancelled(s, run[0]) {
        CancellationTakesOrLeaves(cfg, s, run[0], n);
      }
      hide Inv, LaneTimely;
      StepKeeps(FinalityOf(n), cfg, s, run[0]);
      TimelyStep(FinalityOf(n), cfg, s, run[0]);
      ActionKept(FinalityOf(n), cfg, s, run[0]);
      CredentialsStayIssued(cfg, s, run[0]);
      ClockAdvances(cfg, s', run[1..]);
      ClockSteps(cfg, s, run[0]);
      RevokedIsFinal(cfg, s', run[1..], n, row, issued);
    }
  }

  lemma {:induction false} RunKeepsTimely(cfg: Config, s: State, run: seq<Action>)
    requires cfg.Valid() && Inv(ANYWAY, cfg, s) && LaneTimely(cfg, s) && Legal(cfg, s, run)
    ensures LaneTimely(cfg, Run(cfg, s, run))
    decreases |run|
  {
    hide Inv, LaneTimely;
    if run != [] {
      StepKeeps(ANYWAY, cfg, s, run[0]);
      TimelyStep(ANYWAY, cfg, s, run[0]);
      RunKeepsTimely(cfg, Next(cfg, s, run[0]), run[1..]);
    }
  }

  lemma ReachableStates(cfg: Config, run: seq<Action>)
    requires cfg.Valid() && Legal(cfg, Initial(cfg), run)
    ensures var s := Run(cfg, Initial(cfg), run);
            Inv(ANYWAY, cfg, s) && LaneTimely(cfg, s) && AskerOk(s, LastAsker(cfg, Initial(cfg), run, None))
  {
    InitiallyHolds(ANYWAY, cfg);
    ReachableAnyway(cfg, run);
    RunKeepsTimely(cfg, Initial(cfg), run);
    RunKeepsAsker(cfg, Initial(cfg), run, None);
  }

  /** After any run, whatever happens next, a revoked row is never active again and stays put until its
      cooldown is over, and only a newly issued registration can take its name, as long as no waiting reclaim
      of the name that is carried out from then on finds its row revoked. */
  lemma EveryRevocationIsFinal(cfg: Config, before: seq<Action>, after: seq<Action>, n: Name)
    requires cfg.Valid() && Legal(cfg, Initial(cfg), before)
    requires Legal(cfg, Run(cfg, Initial(cfg), before), after)
    requires HarmlessTurns(FinalityOf(n), cfg, Run(cfg, Initial(cfg), before), after)
    requires var s := Run(cfg, Initial(cfg), before); n in s.rows && s.rows[n].status.Revoked?
    ensures var s := Run(cfg, Initial(cfg), before);
            var t := Run(cfg, s, after);
            && (n in t.rows ==> t.rows[n] == s.rows[n] || t.rows[n].credential !in s.issued)
            && (s.rows[n].releasedAt.Some? && t.now - s.rows[n].releasedAt.value < cfg.cooldown ==>
                  n in t.rows && t.rows[n] == s.rows[n])
  {
    ReachableStates(cfg, before);
    var s := Run(cfg, Initial(cfg), before);
    RowFacts(ANYWAY, cfg, s, n);
    assert Inv(FinalityOf(n), cfg, s);
    hide Inv, LaneTimely;
    RevokedIsFinal(cfg, s, after, n, s.rows[n], s.issued);
  }

  /** After any run, whatever happens next, an inactive name stays with its registration until its cooldown is
      over, unless a cancellation takes it that its own node has asked for. */
  lemma EveryCooldownHolds(cfg: Config, before: seq<Action>, after: seq<Action>, n: Name)
    requires cfg.Valid() && Legal(cfg, Initial(cfg), before)
    requires Legal(cfg, Run(cfg, Initial(cfg), before), after)
    requires var s := Run(cfg, Initial(cfg), before); n in s.rows && !s.rows[n].Active()
    ensures var s := Run(cfg, Initial(cfg), before);
            var t := Run(cfg, s, after);
            && s.rows[n].releasedAt.Some?
            && (t.now - s.rows[n].releasedAt.value < cfg.cooldown ==>
                  || (n in t.rows && SameRegistration(t.rows[n], s.rows[n]))
                  || OwnNodeCancels(cfg, s, after, n, s.rows[n], LastAsker(cfg, Initial(cfg), before, None)))
  {
    ReachableStates(cfg, before);
    var s := Run(cfg, Initial(cfg), before);
    RowFacts(ANYWAY, cfg, s, n);
    hide Inv, LaneTimely, AskerOk;
    if Run(cfg, s, after).now - s.rows[n].releasedAt.value < cfg.cooldown {
      CooldownHolds(cfg, s, after, n, s.rows[n], s.rows[n].releasedAt.value,
                    LastAsker(cfg, Initial(cfg), before, None));
    }
  }

  // ---- maturation happens once ----

  /** The row keeps the credential and the time of a matured one, or is newly issued. */
  predicate MaturedAs(row: Row, x: Row, issued: set<Credential>) {
    (x.maturedAt == row.maturedAt && x.credential == row.credential) || x.credential !in issued
  }

  lemma {:induction false} MaturedStays(
    cfg: Config, s: State, run: seq<Action>, n: Name, row: Row, issued: set<Credential>)
    requires cfg.Valid() && Inv(ANYWAY, cfg, s) && LaneTimely(cfg, s) && Legal(cfg, s, run)
    requires row.maturedAt.Some? && issued <= s.issued && (n in s.rows ==> MaturedAs(row, s.rows[n], issued))
    ensures var t := Run(cfg, s, run).rows; n in t ==> MaturedAs(row, t[n], issued)
    decreases |run|
  {
    if run != [] {
      var s' := Next(cfg, s, run[0]);
      if n in s.rows && n in Cancelled(s, run[0]) {
        CancellationTakesOrLeaves(cfg, s, run[0], n);
      }
      hide Inv, LaneTimely;
      StepKeeps(ANYWAY, cfg, s, run[0]);
      TimelyStep(ANYWAY, cfg, s, run[0]);
      ActionKept(ANYWAY, cfg, s, run[0]);
      CredentialsStayIssued(cfg, s, run[0]);
      MaturedStays(cfg, s', run[1..], n, row, issued);
    }
  }

  /** After any run, whatever happens next, a set `maturedAt` stays as it is, with the credential, as long as the
      registration is there: only a newly issued row can have another. */
  lemma MaturedAtIsSetOnce(cfg: Config, before: seq<Action>, after: seq<Action>, n: Name)
    requires cfg.Valid() && Legal(cfg, Initial(cfg), before)
    requires Legal(cfg, Run(cfg, Initial(cfg), before), after)
    requires var s := Run(cfg, Initial(cfg), before); n in s.rows && s.rows[n].maturedAt.Some?
    ensures var s := Run(cfg, Initial(cfg), before);
            var t := Run(cfg, s, after).rows;
            n in t ==>
              || (t[n].maturedAt == s.rows[n].maturedAt && t[n].credential == s.rows[n].credential)
              || t[n].credential !in s.issued
  {
    ReachableStates(cfg, before);
    hide Inv, LaneTimely;
    var s := Run(cfg, Initial(cfg), before);
    MaturedStays(cfg, s, after, n, s.rows[n], s.issued);
  }
}
