/** Maturation is earned: a row matures only at the end of an unbroken chain of contacts, each made by
    the row's own node, that spans the minimum age. */
module Maturation {
  import opened Prelude
  import opened Registrations
  import opened Protocol
  import opened TableRules
  import opened ProtocolInvariant

  /** The contacts `i` to `j` are all by `node`, in order, with no gap longer than `gap`. */
  ghost predicate Unbroken(log: seq<Contact>, i: int, j: int, node: Node, gap: Time) {
    && 0 <= i <= j < |log|
    && (forall k | i <= k <= j :: log[k].node == node)
    && (forall k | i <= k < j :: 0 <= log[k + 1].at - log[k].at <= gap)
  }

  /** The contacts end with an unbroken chain from `started` to `last`. */
  ghost predicate Chain(log: seq<Contact>, node: Node, gap: Time, started: Time, last: Time) {
    exists i :: Unbroken(log, i, |log| - 1, node, gap) && log[i].at == started && log[|log| - 1].at == last
  }

  /** Some unbroken chain of contacts by `node` ends at `at` and spans `minAge`. */
  ghost predicate Earned(log: seq<Contact>, node: Node, gap: Time, minAge: Time, at: Time) {
    exists i, j :: Unbroken(log, i, j, node, gap) && log[j].at == at && at - log[i].at >= minAge
  }

  /** What the audit trail must show for a row: the window of a row that has not matured, or that a
      matured row earned it. */
  ghost predicate Deserved(cfg: Config, row: Row, log: seq<Contact>) {
    match row.maturedAt
    case Some(at) => Earned(log, row.node, cfg.abandonment, cfg.minAge, at)
    case None =>
      && row.contactStartedAt.Some? == row.lastContactAt.Some?
      && (row.lastContactAt.Some? ==>
            Chain(log, row.node, cfg.abandonment, row.contactStartedAt.value, row.lastContactAt.value))
  }

  ghost predicate Audited(cfg: Config, s: State, n: Name) {
    n in s.rows ==> n in s.contacts && Deserved(cfg, s.rows[n], s.contacts[n])
  }

  /** The columns of a contact window are set together, in the past. */
  predicate Windowed(row: Row, now: Time) {
    && (row.maturedAt.None? ==> row.contactStartedAt.Some? == row.lastContactAt.Some?)
    && (row.contactStartedAt.Some? ==> row.contactStartedAt.value <= now)
  }

  /** Contacts are kept for every row, so a row that is carried over carries its trail. */
  ghost predicate Trails(s: State) {
    forall n | n in s.rows :: n in s.contacts && Windowed(s.rows[n], s.now)
  }

  /** The replacement whose rename is in flight has earned its maturation, up to contact at `at`. */
  ghost predicate Ripe(cfg: Config, row: Row, at: Time) {
    row.lastContactAt == Some(at) && row.contactStartedAt.Some? && at - row.contactStartedAt.value >= cfg.minAge
  }

  /** A row nobody has contacted yet. */
  ghost predicate Untrodden(s: State, n: Name)
    requires n in s.rows
  {
    && Unstarted(s.rows[n]) && s.rows[n].status.Pending? && s.rows[n].replacing.None?
    && n in s.contacts && s.contacts[n] == []
  }

  /** What the owner of the lane relies on for the audit. A cancellation may find that the previous row has given
      way to another, and then nobody has contacted that one. */
  ghost predicate LaneAudited(cfg: Config, s: State) {
    match s.lane
    case ReplacementUp(n, _, _, at) => n in s.rows && Ripe(cfg, s.rows[n], at)
    case PreviousDown(n, _, _, at) => n in s.rows && Ripe(cfg, s.rows[n], at)
    case Cancelling(_, previous, read, _) =>
      && (read.contactStartedAt.Some? ==> read.contactStartedAt.value <= s.now)
      && (previous in s.rows && s.rows[previous].Active() && s.rows[previous] != read ==> Untrodden(s, previous))
    case _ => true
  }

  // ---- chains grow ----

  lemma UnbrokenGrows(log: seq<Contact>, i: int, node: Node, gap: Time, now: Time)
    requires Unbroken(log, i, |log| - 1, node, gap) && 0 <= now - log[|log| - 1].at <= gap
    ensures Unbroken(log + [Contact(node, now)], i, |log|, node, gap)
  {
    var longer := log + [Contact(node, now)];
    forall k | i <= k < |log|
      ensures longer[k].node == node && 0 <= longer[k + 1].at - longer[k].at <= gap
    {
      assert longer[k] == log[k];
      if k + 1 < |log| {
        assert longer[k + 1] == log[k + 1];
      }
    }
  }

  lemma ChainGrows(log: seq<Contact>, node: Node, gap: Time, started: Time, last: Time, now: Time)
    requires Chain(log, node, gap, started, last) && 0 <= now - last <= gap
    ensures Chain(log + [Contact(node, now)], node, gap, started, now)
  {
    var i :| Unbroken(log, i, |log| - 1, node, gap) && log[i].at == started && log[|log| - 1].at == last;
    var longer := log + [Contact(node, now)];
    UnbrokenGrows(log, i, node, gap, now);
    assert longer[i] == log[i] && |longer| - 1 == |log|;
    hide Unbroken;
    assert Unbroken(longer, i, |longer| - 1, node, gap);
  }

  lemma ChainStarts(log: seq<Contact>, node: Node, gap: Time, now: Time)
    ensures Chain(log + [Contact(node, now)], node, gap, now, now)
  {
    var longer := log + [Contact(node, now)];
    assert Unbroken(longer, |log|, |longer| - 1, node, gap) && longer[|log|].at == now;
  }

  lemma EarnedStays(log: seq<Contact>, node: Node, gap: Time, minAge: Time, at: Time, c: Contact)
    requires Earned(log, node, gap, minAge, at)
    ensures Earned(log + [c], node, gap, minAge, at)
  {
    var i, j :| Unbroken(log, i, j, node, gap) && log[j].at == at && at - log[i].at >= minAge;
    assert Unbroken(log + [c], i, j, node, gap);
  }

  lemma ChainEarns(log: seq<Contact>, node: Node, gap: Time, started: Time, last: Time, minAge: Time)
    requires Chain(log, node, gap, started, last) && last - started >= minAge
    ensures Earned(log, node, gap, minAge, last)
  {
  }

  // ---- what one action does to one row ----

  predicate SameAudit(a: Row, b: Row) {
    && a.node == b.node && a.maturedAt == b.maturedAt
    && a.lastContactAt == b.lastContactAt && a.contactStartedAt == b.contactStartedAt
  }

  /** The row's node makes contact at `now`: the window goes on if the gap allows it, or starts anew. */
  predicate ContactedRow(cfg: Config, a: Row, b: Row, now: Time) {
    && a.node == b.node && a.maturedAt == b.maturedAt && b.lastContactAt == Some(now)
    && (b.contactStartedAt == Some(now) || b.contactStartedAt == a.contactStartedAt)
    && (a.maturedAt.None? ==>
          || b.contactStartedAt == Some(now)
          || (b.contactStartedAt == a.contactStartedAt && a.contactStartedAt.Some? && a.lastContactAt.Some?
              && now - a.lastContactAt.value <= cfg.abandonment))
  }

  predicate Unstarted(row: Row) {
    row.maturedAt.None? && row.lastContactAt.None? && row.contactStartedAt.None?
  }

  /** The row matures at its last contact, old enough. */
  predicate MaturedRowOf(cfg: Config, a: Row, b: Row) {
    && a.maturedAt.None? && a.node == b.node && b.maturedAt.Some?
    && a.lastContactAt == b.maturedAt && a.contactStartedAt.Some? && b.contactStartedAt == a.contactStartedAt
    && b.maturedAt.value - a.contactStartedAt.value >= cfg.minAge
  }

  /** Every row after the action is one of: not contacted, contacted, newly inserted, matured. */
  ghost predicate RowFate(cfg: Config, s: State, s': State, n: Name)
    requires n in s'.rows
  {
    var b := s'.rows[n];
    && n in s'.contacts
    && (|| (Unstarted(b) && b.credential !in s.issued)
        || (n in s.rows && n in s.contacts && SameAudit(s.rows[n], b) && s'.contacts[n] == s.contacts[n])
        || (n in s.rows && n in s.contacts && ContactedRow(cfg, s.rows[n], b, s.now)
            && s'.contacts[n] == s.contacts[n] + [Contact(b.node, s.now)])
        || (n in s.rows && n in s.contacts && MaturedRowOf(cfg, s.rows[n], b) && s'.contacts[n] == s.contacts[n])
        || (n in s.rows && n in s.contacts && s'.contacts[n] == s.contacts[n] + [Contact(b.node, s.now)]
            && exists m: Row :: ContactedRow(cfg, s.rows[n], m, s.now) && MaturedRowOf(cfg, m, b)))
  }

  lemma ContactDeserves(cfg: Config, a: Row, b: Row, log: seq<Contact>, now: Time)
    requires Deserved(cfg, a, log) && ContactedRow(cfg, a, b, now)
    requires a.lastContactAt.Some? ==> a.lastContactAt.value <= now
    ensures Deserved(cfg, b, log + [Contact(b.node, now)])
  {
    if a.maturedAt.Some? {
      EarnedStays(log, a.node, cfg.abandonment, cfg.minAge, a.maturedAt.value, Contact(b.node, now));
    } else if b.contactStartedAt == Some(now) {
      ChainStarts(log, b.node, cfg.abandonment, now);
    } else {
      ChainGrows(log, a.node, cfg.abandonment, a.contactStartedAt.value, a.lastContactAt.value, now);
    }
  }

  lemma MaturationDeserves(cfg: Config, a: Row, b: Row, log: seq<Contact>)
    requires Deserved(cfg, a, log) && MaturedRowOf(cfg, a, b)
    ensures Deserved(cfg, b, log)
  {
    ChainEarns(log, a.node, cfg.abandonment, a.contactStartedAt.value, a.lastContactAt.value, cfg.minAge);
  }

  lemma FateDeserves(w: Promises, cfg: Config, s: State, s': State, n: Name)
    requires Core(w, cfg, s) && Audited(cfg, s, n) && n in s'.rows && RowFate(cfg, s, s', n)
    ensures n in s'.contacts && Deserved(cfg, s'.rows[n], s'.contacts[n])
  {
    hide Rules, Deserved;
    var b := s'.rows[n];
    if Unstarted(b) && b.credential !in s.issued {
      UnstartedDeserves(cfg, b, s'.contacts[n]);
    } else {
      var a := s.rows[n];
      var log := s.contacts[n];
      RowFacts(w, cfg, s, n);
      if SameAudit(a, b) && s'.contacts[n] == log {
        SameDeserves(cfg, a, b, log);
      } else if ContactedRow(cfg, a, b, s.now) && s'.contacts[n] == log + [Contact(b.node, s.now)] {
        ContactDeserves(cfg, a, b, log, s.now);
      } else if MaturedRowOf(cfg, a, b) && s'.contacts[n] == log {
        MaturationDeserves(cfg, a, b, log);
      } else {
        var m: Row :| ContactedRow(cfg, a, m, s.now) && MaturedRowOf(cfg, m, b);
        ContactDeserves(cfg, a, m, log, s.now);
        MaturationDeserves(cfg, m, b, s'.contacts[n]);
      }
    }
  }

  lemma UnstartedDeserves(cfg: Config, row: Row, log: seq<Contact>)
    requires Unstarted(row)
    ensures Deserved(cfg, row, log)
  {
  }

  lemma SameDeserves(cfg: Config, a: Row, b: Row, log: seq<Contact>)
    requires Deserved(cfg, a, log) && SameAudit(a, b)
    ensures Deserved(cfg, b, log)
  {
  }

  // ---- each action ----

  /** A cancellation that lands on `n` does so soundly. */
  ghost predicate SoundLanding(cfg: Config, s: State, a: Action, n: Name) {
    a.Resume? && a.ok && s.lane.Cancelling? && s.lane.previous == n ==>
      LandsSoundly(cfg, s, s.lane.name, n, s.lane.previousRow)
  }

  /** When it lands on a pending row, which it contacts, that is the row that was read, or one of the same node
      whose window starts now. */
  predicate LandsSoundly(cfg: Config, s: State, n: Name, previous: Name, read: Row) {
    !read.status.Abandoned? && CanCancel(s.rows, n) && previous in s.rows && s.rows[previous].status.Pending? ==>
      Earns(cfg, s, s.rows[previous], read)
  }

  predicate Earns(cfg: Config, s: State, row: Row, read: Row) {
    row.node == read.node && (row == read || ContactStart(cfg, read, s.now) == s.now)
  }

  /** Every row but those in `spoiled` has one of the fates. */
  ghost predicate FatesBut(cfg: Config, s: State, s': State, spoiled: set<Name>) {
    forall n | n in s'.rows && n !in spoiled :: RowFate(cfg, s, s', n)
  }

  ghost predicate Fates(cfg: Config, s: State, s': State) {
    FatesBut(cfg, s, s', {})
  }

  /** The row, if any, that a landing leaves with a window it does not deserve. */
  ghost function Spoiled(cfg: Config, s: State, a: Action): set<Name> {
    if s.lane.Cancelling? && !SoundLanding(cfg, s, a, s.lane.previous) then {s.lane.previous} else {}
  }

  lemma ReclaimFates(cfg: Config, s: State, n: Name, dynamic: bool, observed: Option<Address>)
    requires Trails(s) && n in s.rows
    ensures Fates(cfg, s, ReactivateRow(cfg, s, n, dynamic, observed).state)
  {
    if !CanReclaim(s.rows, n, s.rows[n].maturedAt.Some?) {
      NothingChanges(cfg, s, s);
      return;
    }
    hide CanReclaim;
    var row := s.rows[n];
    var s' := ReactivateRow(cfg, s, n, dynamic, observed).state;
    assert ContactedRow(cfg, row, s'.rows[n], s.now);
  }

  lemma DeservedWindow(cfg: Config, row: Row, log: seq<Contact>)
    requires Deserved(cfg, row, log)
    ensures row.maturedAt.None? ==> row.contactStartedAt.Some? == row.lastContactAt.Some?
  {
  }

  lemma RegisterFreshFates(cfg: Config, s: State, n: Name, node: Node, dynamic: bool, secret: Credential)
    requires Trails(s) && secret !in s.issued
    ensures Fates(cfg, s, RegisterFresh(cfg, s, n, node, dynamic, secret).state)
  {
  }

  lemma RegisterFates(
    cfg: Config, s: State, n: Name, node: Node, dynamic: bool, presented: Option<Credential>,
    secret: Credential, observed: Option<Address>)
    requires Trails(s) && secret !in s.issued
    ensures Fates(cfg, s, RegisterStep(cfg, s, n, node, dynamic, presented, secret, observed).state)
  {
    NothingChanges(cfg, s, s);
    hide Fates, Trails, RegisterFresh, ReactivateRow, AtCap, NodeFull;
    if n !in s.rows {
      RegisterFreshFates(cfg, s, n, node, dynamic, secret);
    } else if !s.rows[n].Active() && s.rows[n].Expired(cfg.cooldown, s.now) {
      var s1 := s.(rows := s.rows - {n});
      FewerTrails(s, n);
      RegisterFreshFates(cfg, s1, n, node, dynamic, secret);
      FatesCarry(cfg, s, s1, RegisterFresh(cfg, s1, n, node, dynamic, secret).state);
    } else {
      ReclaimFates(cfg, s, n, dynamic, observed);
    }
  }

  lemma FewerTrails(s: State, n: Name)
    requires Trails(s)
    ensures Trails(s.(rows := s.rows - {n})) && AuditView(s, s.(rows := s.rows - {n}))
  {
  }

  /** An action that leaves all other rows alone, or deletes them, is judged by the rows it changes. */
  lemma OnlyTheseRows(cfg: Config, s: State, s': State, changed: set<Name>)
    requires Trails(s)
    requires forall m | m in s'.rows && m !in changed :: m in s.rows && m in s'.contacts
               && SameAudit(s.rows[m], s'.rows[m]) && s'.contacts[m] == s.contacts[m]
    requires forall m | m in s'.rows && m in changed :: RowFate(cfg, s, s', m)
    ensures Fates(cfg, s, s')
  {
  }

  /** The audit of `s'` sees nothing but rows of `s`, with their trails. */
  ghost predicate AuditView(s: State, s': State) {
    && s'.now == s.now && s'.contacts == s.contacts && s'.issued == s.issued
    && forall m | m in s'.rows :: m in s.rows && SameAudit(s.rows[m], s'.rows[m])
  }

  lemma FatesCarry(cfg: Config, s: State, s1: State, s': State)
    requires AuditView(s, s1) && Fates(cfg, s1, s')
    ensures Fates(cfg, s, s')
  {
    SomeFatesCarry(cfg, s, s1, s', {});
  }

  lemma SomeFatesCarry(cfg: Config, s: State, s1: State, s': State, spoiled: set<Name>)
    requires AuditView(s, s1) && FatesBut(cfg, s1, s', spoiled)
    ensures FatesBut(cfg, s, s', spoiled)
  {
    forall n | n in s'.rows && n !in spoiled
      ensures RowFate(cfg, s, s', n)
    {
      FateCarries(cfg, s, s1, s', n);
    }
  }

  lemma FateCarries(cfg: Config, s: State, s1: State, s': State, n: Name)
    requires AuditView(s, s1) && n in s'.rows && RowFate(cfg, s1, s', n)
    ensures RowFate(cfg, s, s', n)
  {
    if n in s1.rows {
      assert SameAudit(s.rows[n], s1.rows[n]);
      assert forall m: Row :: ContactedRow(cfg, s1.rows[n], m, s.now) ==> ContactedRow(cfg, s.rows[n], m, s.now);
    }
  }

  lemma NothingChanges(cfg: Config, s: State, s': State)
    requires Trails(s) && AuditView(s, s')
    ensures Fates(cfg, s, s')
  {
  }

  lemma HeartbeatFates(w: Promises, cfg: Config, s: State, credential: Credential, observed: Option<Address>)
    requires Inv(w, cfg, s) && Trails(s)
    ensures Fates(cfg, s, HeartbeatStep(cfg, s, credential, observed).state)
  {
    hide Inv, RowFate, Fates, HeartbeatStep;
    var found := ByCredential(s.rows, credential);
    var s' := HeartbeatStep(cfg, s, credential, observed).state;
    if s.lane.Idle? && found.Some? && s.rows[found.value].Active() {
      HeartbeatRows(cfg, s, credential, observed, found.value);
      HeartbeatFate(w, cfg, s, credential, observed, found.value);
      OnlyTheseRows(cfg, s, s', {found.value});
    } else {
      HeartbeatRefused(cfg, s, credential, observed);
      NothingChanges(cfg, s, s');
    }
  }

  lemma HeartbeatFate(w: Promises, cfg: Config, s: State, credential: Credential, observed: Option<Address>, n: Name)
    requires Inv(w, cfg, s) && Trails(s) && s.lane.Idle? && ByCredential(s.rows, credential) == Some(n)
    requires s.rows[n].Active()
    ensures RowFate(cfg, s, HeartbeatStep(cfg, s, credential, observed).state, n)
  {
    hide Rules, HeartbeatStep;
    RowFacts(w, cfg, s, n);
    HeartbeatRows(cfg, s, credential, observed, n);
    var x := ContactedCopy(cfg, s.rows[n], s.now);
    assert ContactedRow(cfg, s.rows[n], x, s.now);
    var s' := HeartbeatStep(cfg, s, credential, observed).state;
    if s'.rows[n] != x {
      assert MaturedRowOf(cfg, x, s'.rows[n]);
    }
  }

  // ---- rename ----

  lemma RenameFreshFates(cfg: Config, s: State, current: Name, row: Row, n: Name, secret: Credential)
    requires Trails(s) && current in s.rows && s.rows[current] == row && n != current && secret !in s.issued
    ensures Fates(cfg, s, RenameFresh(cfg, s, current, row, n, secret).state)
  {
    hide Fates, RowFate, RenameFresh, ContactStart;
    var s' := RenameFresh(cfg, s, current, row, n, secret).state;
    RenameFreshRows(cfg, s, current, row, n, secret);
    if s'.rows == s.rows && s'.contacts == s.contacts {
      UnchangedFates(cfg, s, s');
    } else if s'.rows == s.rows - {n} && s'.contacts == s.contacts {
      UnchangedFates(cfg, s, s');
    } else {
      assert ContactedRow(cfg, row, s'.rows[current], s.now) by {
        ContactedCopyIsContact(cfg, row, s.now);
      }
      RenamedRowFate(cfg, s, s', current);
      if n in s'.rows {
        FreshRowFate(cfg, s, s', n);
      }
      OnlyTheseRows(cfg, s, s', {current, n});
    }
  }

  lemma ContactedCopyIsContact(cfg: Config, row: Row, now: Time)
    ensures ContactedRow(cfg, row, ContactedCopy(cfg, row, now), now)
  {
  }

  lemma UnchangedFates(cfg: Config, s: State, s': State)
    requires Trails(s) && s'.contacts == s.contacts
    requires s'.rows.Keys <= s.rows.Keys && forall m | m in s'.rows :: s'.rows[m] == s.rows[m]
    ensures Fates(cfg, s, s')
  {
  }

  lemma RenamedRowFate(cfg: Config, s: State, s': State, n: Name)
    requires Trails(s) && n in s.rows && n in s'.rows
    requires ContactedRow(cfg, s.rows[n], s'.rows[n], s.now)
    requires n in s'.contacts && s'.contacts[n] == s.contacts[n] + [Contact(s'.rows[n].node, s.now)]
    ensures RowFate(cfg, s, s', n)
  {
  }

  lemma FreshRowFate(cfg: Config, s: State, s': State, n: Name)
    requires n in s'.rows && Unstarted(s'.rows[n]) && s'.rows[n].credential !in s.issued && n in s'.contacts
    ensures RowFate(cfg, s, s', n)
  {
  }

  lemma RetryRenameFates(cfg: Config, s: State, current: Name, r: Name, secret: Credential)
    requires Trails(s) && current in s.rows && r in s.rows && s.rows[r].node == s.rows[current].node && r != current
    requires s.rows[r].Claims()
    ensures Fates(cfg, s, RetryRename(cfg, s, current, r, secret).state)
  {
    var s' := RetryRename(cfg, s, current, r, secret).state;
    var row := s.rows[r];
    assert s'.contacts == if RetryIsRefused(cfg, s, r)
                          then s.contacts
                          else Log(Log(s.contacts, current, Contact(s.rows[current].node, s.now)), r,
                                   Contact(s.rows[current].node, s.now));
    hide Fates, RowFate, AtCap, RetryRename, RetryIsRefused;
    if RetryIsRefused(cfg, s, r) {
      RetryRefused(cfg, s, current, r, secret);
      NothingChanges(cfg, s, s');
    } else {
      RetryRenameRows(cfg, s, current, r, secret);
      RenamedRowFate(cfg, s, s', current);
      RenamedRowFate(cfg, s, s', r);
      OnlyTheseRows(cfg, s, s', {current, r});
    }
  }

  lemma RenameFates(w: Promises, cfg: Config, s: State, credential: Credential, n: Name, secret: Credential)
    requires Inv(w, cfg, s) && Trails(s) && secret !in s.issued
    ensures Fates(cfg, s, RenameStep(cfg, s, credential, n, secret).state)
  {
    hide Rules, Fates, RenameFresh, RetryRename;
    var found := ByCredential(s.rows, credential);
    var s' := RenameStep(cfg, s, credential, n, secret).state;
    NothingChanges(cfg, s, s);
    if s.lane.Idle? && found.Some? && s.rows[found.value].Active() {
      var current := found.value;
      var row := s.rows[current];
      if row.replacing.None? && n != current {
        var claim := ReplacementFor(s.rows, current);
        if claim.None? {
          RenameFreshFates(cfg, s, current, row, n, secret);
        } else if s.rows[claim.value].node != row.node {
          var s1 := s.(rows := DetachReplacement(s.rows, claim.value, current));
          RenameFreshFates(cfg, s1, current, row, n, secret);
          FatesCarry(cfg, s, s1, s');
        } else if s.rows[claim.value].status.Abandoned? && s.rows[claim.value].Expired(cfg.cooldown, s.now) {
          RowFacts(w, cfg, s, current);
          var s1 := s.(rows := s.rows - {claim.value});
          RenameFreshFates(cfg, s1, current, row, n, secret);
          FatesCarry(cfg, s, s1, s');
        } else if claim.value == n {
          RetryRenameFates(cfg, s, current, n, secret);
        }
      }
    }
  }

  // ---- what follows a provider call ----

  /** A finished cancellation touches the trail of the previous row alone. */
  lemma FinishCancelElsewhere(cfg: Config, s: State, n: Name, previous: Name, read: Row, observed: Option<Address>)
    requires Trails(s) && n != previous
    ensures FatesBut(cfg, s, FinishCancel(cfg, s, n, previous, read, observed).state, {previous})
  {
    var s' := FinishCancel(cfg, s, n, previous, read, observed).state;
    FinishCancelRows(cfg, s, n, previous, read, observed);
    FinishCancelTrails(cfg, s, n, previous, read, observed);
    hide FinishCancel, Windowed, RowFate;
    forall m | m in s'.rows && m != previous
      ensures RowFate(cfg, s, s', m)
    {
      SameFate(cfg, s, s', m);
    }
  }

  lemma SameFate(cfg: Config, s: State, s': State, n: Name)
    requires n in s.rows && n in s'.rows && SameAudit(s.rows[n], s'.rows[n])
    requires n in s.contacts && n in s'.contacts && s'.contacts[n] == s.contacts[n]
    ensures RowFate(cfg, s, s', n)
  {
  }

  lemma FinishCancelTrails(cfg: Config, s: State, n: Name, previous: Name, read: Row, observed: Option<Address>)
    ensures var s' := FinishCancel(cfg, s, n, previous, read, observed).state;
            forall m | m in s.contacts && m != previous :: m in s'.contacts && s'.contacts[m] == s.contacts[m]
  {
    hide CancelRefusal, CancelReplacement, ContactStart;
  }

  /** The previous row is revived: contacted, with a window that starts now. */
  lemma RevivalFate(cfg: Config, s: State, n: Name, previous: Name, read: Row, observed: Option<Address>)
    requires Trails(s) && n != previous && read.status.Abandoned?
    requires previous in s.rows && s.rows[previous].status.Abandoned? ==> s.rows[previous] == read
    ensures var s' := FinishCancel(cfg, s, n, previous, read, observed).state;
            previous in s'.rows ==> RowFate(cfg, s, s', previous)
  {
    hide CanRevive, ReviveRefusal;
    var s' := FinishCancel(cfg, s, n, previous, read, observed).state;
    if CancelRefusal(cfg, s, n, previous, read).None? {
      assert ContactedRow(cfg, read, s'.rows[previous], s.now);
    }
  }

  /** The previous row is contacted if it is active: soundly, or at least so that the columns of its window stay
      together. */
  lemma LandingFate(cfg: Config, s: State, n: Name, previous: Name, read: Row, observed: Option<Address>)
    requires Trails(s) && n != previous && (previous in s.rows ==> RowOk(s.rows[previous]))
    requires !read.status.Abandoned? && (read.contactStartedAt.Some? ==> read.contactStartedAt.value <= s.now)
    requires previous in s.rows && s.rows[previous].Active() && s.rows[previous] != read ==> Untrodden(s, previous)
    ensures var s' := FinishCancel(cfg, s, n, previous, read, observed).state;
            && (previous in s'.rows ==> previous in s'.contacts && Windowed(s'.rows[previous], s.now))
            && (previous in s'.rows && LandsSoundly(cfg, s, n, previous, read) ==> RowFate(cfg, s, s', previous))
  {
    hide CanRevive, ReviveRefusal;
    var s' := FinishCancel(cfg, s, n, previous, read, observed).state;
    if CanCancel(s.rows, n) && previous in s'.rows && s.rows[previous].Active() && s.rows[previous] != read {
      assert s'.contacts[previous] == [] + [Contact(read.node, s.now)];
    }
  }

  lemma FinishCancelFates(cfg: Config, s: State, n: Name, previous: Name, read: Row, observed: Option<Address>)
    requires Trails(s) && n != previous && (previous in s.rows ==> RowOk(s.rows[previous]))
    requires read.contactStartedAt.Some? ==> read.contactStartedAt.value <= s.now
    requires previous in s.rows && s.rows[previous].Active() && s.rows[previous] != read ==> Untrodden(s, previous)
    requires previous in s.rows && s.rows[previous].status.Abandoned? ==> s.rows[previous] == read
    ensures var s' := FinishCancel(cfg, s, n, previous, read, observed).state;
            && FatesBut(cfg, s, s', {previous}) && Trailed(s', previous)
            && (previous in s'.rows && LandsSoundly(cfg, s, n, previous, read) ==> RowFate(cfg, s, s', previous))
  {
    FinishCancelElsewhere(cfg, s, n, previous, read, observed);
    hide FinishCancel, RowFate, Untrodden, CanCancel;
    if read.status.Abandoned? {
      RevivalFate(cfg, s, n, previous, read, observed);
      if previous in FinishCancel(cfg, s, n, previous, read, observed).state.rows {
        FateIsTrailed(cfg, s, FinishCancel(cfg, s, n, previous, read, observed).state, previous);
      }
    } else {
      LandingFate(cfg, s, n, previous, read, observed);
    }
  }

  /** When a cancellation that does not revive lands on a pending row, audited as it was read or fresh and
      without contacts, the row is left with a window it deserves if and only if the row is of the node that
      cancelled, and is the row that was read or has its window start now. */
  lemma LandingDeserves(cfg: Config, s: State, n: Name, previous: Name, read: Row, observed: Option<Address>)
    requires n != previous && !read.status.Abandoned? && CancelRefusal(cfg, s, n, previous, read).None?
    requires previous in s.rows && s.rows[previous].status.Pending? && s.rows[previous].maturedAt.None?
    requires s.rows[previous].lastContactAt.Some? ==> s.rows[previous].lastContactAt.value <= s.now
    requires previous in s.contacts && Deserved(cfg, s.rows[previous], s.contacts[previous])
    requires s.rows[previous] == read || Untrodden(s, previous)
    ensures var s' := FinishCancel(cfg, s, n, previous, read, observed).state;
            && previous in s'.rows && previous in s'.contacts
            && (Deserved(cfg, s'.rows[previous], s'.contacts[previous]) <==> Earns(cfg, s, s.rows[previous], read))
  {
    hide Deserved;
    var s' := FinishCancel(cfg, s, n, previous, read, observed).state;
    var row := s.rows[previous];
    var log := s'.contacts[previous];
    assert log == s.contacts[previous] + [Contact(read.node, s.now)];
    var started := ContactStart(cfg, read, s.now);
    assert s'.rows[previous].contactStartedAt == Some(started) && s'.rows[previous].lastContactAt == Some(s.now);
    if row == read {
      DeservedWindow(cfg, row, s.contacts[previous]);
      ContactDeserves(cfg, row, s'.rows[previous], s.contacts[previous], s.now);
    } else {
      assert log == [Contact(read.node, s.now)];
      FirstContactDeserves(cfg, s'.rows[previous], read.node, started, s.now);
    }
  }

  /** A row with a single contact deserves its window exactly when the contact is its own node's and starts it. */
  lemma FirstContactDeserves(cfg: Config, row: Row, node: Node, started: Time, now: Time)
    requires row.maturedAt.None? && row.contactStartedAt == Some(started) && row.lastContactAt == Some(now)
    ensures Deserved(cfg, row, [Contact(node, now)]) <==> row.node == node && started == now
  {
    if row.node == node && started == now {
      ChainStarts([], node, cfg.abandonment, now);
      assert [] + [Contact(node, now)] == [Contact(node, now)];
    }
  }

  lemma CompleteRenameFates(cfg: Config, s: State, s': State, n: Name, previous: Name, node: Node, at: Time)
    requires Trails(s) && n in s.rows && s.rows[n].status.Pending? && s.rows[n].maturedAt.None?
    requires Ripe(cfg, s.rows[n], at)
    requires s'.rows == CompleteRename(s.rows, n, previous, node, at) && s'.contacts == s.contacts && n != previous
    ensures Fates(cfg, s, s')
  {
    hide Fates;
    if s'.rows[n] != s.rows[n] {
      assert MaturedRowOf(cfg, s.rows[n], s'.rows[n]);
      OnlyTheseRows(cfg, s, s', {n});
    } else {
      OnlyTheseRows(cfg, s, s', {});
    }
  }

  lemma RevokeAllAudit(t: Table, targets: seq<Target>, at: Time, reason: string)
    ensures RevokeAll(t, targets, at, reason).Keys == t.Keys
    ensures forall m | m in t :: SameAudit(t[m], RevokeAll(t, targets, at, reason)[m])
    decreases |targets|
  {
    if targets != [] {
      var t1 := if StillThere(t, targets[0]) then RevokeRow(t, targets[0].name, at, reason) else t;
      RevokeAllAudit(t1, targets[1..], at, reason);
    }
  }

  lemma ReplacementUpLane(cfg: Config, s: State, ok: bool, applied: bool)
    requires LaneAudited(cfg, s) && s.lane.ReplacementUp?
    ensures LaneAudited(cfg, Continue(cfg, AfterCall(s, applied), ok).state)
  {
    hide FinishCancel, RevokeFrom, CompleteRename;
  }

  lemma ReplacementUpFates(w: Promises, cfg: Config, s: State, ok: bool, applied: bool)
    requires Inv(w, cfg, s) && Trails(s) && LaneAudited(cfg, s) && s.lane.ReplacementUp?
    ensures Fates(cfg, s, Continue(cfg, AfterCall(s, applied), ok).state)
  {
    hide Rules, Fates, FinishCancel, RevokeFrom, CompleteRename;
    var a := AfterCall(s, applied);
    var s' := Continue(cfg, a, ok).state;
    RowFacts(w, cfg, s, s.lane.name);
    var t := SetLastKnownAddress(s.rows, s.lane.name, Some(s.lane.address));
    if ok && s'.lane.Idle? {
      PublishedFates(cfg, s, a.(rows := t), s');
    } else {
      NothingChanges(cfg, s, s');
    }
  }

  /** The rename completes as soon as the replacement is up. */
  lemma PublishedFates(cfg: Config, s: State, s1: State, s': State)
    requires Trails(s) && LaneAudited(cfg, s) && s.lane.ReplacementUp? && ReplacementOk(s, s.lane.name, s.lane.row)
    requires RowOk(s.rows[s.lane.name]) && s.rows[s.lane.name].replacing != Some(s.lane.name)
    requires s1.rows == SetLastKnownAddress(s.rows, s.lane.name, Some(s.lane.address))
    requires s1.now == s.now && s1.contacts == s.contacts && s1.issued == s.issued && s'.contacts == s.contacts
    requires s'.rows == CompleteRename(s1.rows, s.lane.name, s.lane.row.replacing.value, s.lane.row.node, s.lane.at)
    ensures Fates(cfg, s, s')
  {
    hide Fates, CompleteRename;
    CompleteRenameFates(cfg, s1, s', s.lane.name, s.lane.row.replacing.value, s.lane.row.node, s.lane.at);
    FatesCarry(cfg, s, s1, s');
  }

  lemma CancellingFates(w: Promises, cfg: Config, s: State, ok: bool, applied: bool)
    requires Inv(w, cfg, s) && Trails(s) && LaneAudited(cfg, s) && s.lane.Cancelling?
    ensures FatesBut(cfg, s, Continue(cfg, AfterCall(s, applied), ok).state, Spoiled(cfg, s, Resume(ok, applied)))
    ensures Trailed(Continue(cfg, AfterCall(s, applied), ok).state, s.lane.previous)
    ensures LaneAudited(cfg, Continue(cfg, AfterCall(s, applied), ok).state)
  {
    hide Rules, CancelRefusal, CancelReplacement, ContactStart, FinishCancel, RowFate;
    var a := AfterCall(s, applied);
    var s' := Continue(cfg, a, ok).state;
    if ok {
      if s.lane.previous in s.rows {
        RowFacts(w, cfg, s, s.lane.previous);
      }
      FinishCancelFates(cfg, a.(lane := Idle), s.lane.name, s.lane.previous, s.lane.previousRow, s.lane.observed);
      SomeFatesCarry(cfg, s, a.(lane := Idle), s', {s.lane.previous});
      if Spoiled(cfg, s, Resume(ok, applied)) == {} && s.lane.previous in s'.rows {
        FateCarries(cfg, s, a.(lane := Idle), s', s.lane.previous);
      }
    } else {
      NothingChanges(cfg, s, s');
    }
  }

  /** The row, if there is one, has a trail and a window. */
  predicate Trailed(s: State, n: Name) {
    n in s.rows ==> n in s.contacts && Windowed(s.rows[n], s.now)
  }

  lemma PreviousDownFates(w: Promises, cfg: Config, s: State, ok: bool, applied: bool)
    requires Inv(w, cfg, s) && Trails(s) && LaneAudited(cfg, s) && s.lane.PreviousDown?
    ensures Fates(cfg, s, Continue(cfg, AfterCall(s, applied), ok).state)
  {
    hide Rules, Fates;
    var s' := Continue(cfg, AfterCall(s, applied), ok).state;
    RowFacts(w, cfg, s, s.lane.name);
    if ok {
      CompleteRenameFates(cfg, s, s', s.lane.name, s.lane.previous, s.lane.row.node, s.lane.at);
    } else {
      NothingChanges(cfg, s, s');
    }
  }

  lemma RevokeFromView(s: State, targets: seq<Target>, i: nat, reason: string)
    requires i <= |targets|
    ensures AuditView(s, RevokeFrom(s, targets, i, reason).state)
    ensures Unaudited(RevokeFrom(s, targets, i, reason).state.lane)
  {
    RevokeAllAudit(s.rows, targets, s.now, reason);
    hide RevokeAll;
  }

  lemma RevokingView(cfg: Config, s: State, ok: bool, applied: bool)
    requires s.lane.Revoking? && LaneWellFormed(s)
    ensures AuditView(s, Continue(cfg, AfterCall(s, applied), ok).state)
    ensures Unaudited(Continue(cfg, AfterCall(s, applied), ok).state.lane)
  {
    RevokeFromView(AfterCall(s, applied), s.lane.targets, s.lane.next + 1, s.lane.reason);
    hide RevokeFrom, FinishCancel, CompleteRename;
  }

  /** The other calls change addresses and statuses, never an audited column. */
  lemma OtherCallsView(cfg: Config, s: State, ok: bool, applied: bool)
    requires !s.lane.Idle? && LaneWellFormed(s)
    requires !s.lane.ReplacementUp? && !s.lane.Cancelling? && !s.lane.PreviousDown?
    ensures AuditView(s, Continue(cfg, AfterCall(s, applied), ok).state)
    ensures Unaudited(Continue(cfg, AfterCall(s, applied), ok).state.lane)
  {
    hide FinishCancel, CompleteRename, RevokeFrom;
    if s.lane.Revoking? {
      RevokingView(cfg, s, ok, applied);
    }
  }

  /** The owners of the lane the audit asks nothing of. */
  predicate Unaudited(lane: Flight) {
    !lane.ReplacementUp? && !lane.PreviousDown? && !lane.Cancelling?
  }

  lemma UnauditedLane(cfg: Config, s: State)
    requires Unaudited(s.lane)
    ensures LaneAudited(cfg, s)
  {
  }

  lemma ContinueFates(w: Promises, cfg: Config, s: State, ok: bool, applied: bool)
    requires Inv(w, cfg, s) && Trails(s) && LaneAudited(cfg, s) && !s.lane.Idle? && LaneWellFormed(s)
    ensures FatesBut(cfg, s, Continue(cfg, AfterCall(s, applied), ok).state, Spoiled(cfg, s, Resume(ok, applied)))
    ensures s.lane.Cancelling? ==> Trailed(Continue(cfg, AfterCall(s, applied), ok).state, s.lane.previous)
    ensures LaneAudited(cfg, Continue(cfg, AfterCall(s, applied), ok).state)
  {
    hide Inv, FatesBut, Continue, LaneAudited, Trails, AuditView, SoundLanding;
    if s.lane.ReplacementUp? {
      ReplacementUpFates(w, cfg, s, ok, applied);
      ReplacementUpLane(cfg, s, ok, applied);
    } else if s.lane.Cancelling? {
      CancellingFates(w, cfg, s, ok, applied);
    } else if s.lane.PreviousDown? {
      PreviousDownFates(w, cfg, s, ok, applied);
      PreviousDownEnds(cfg, s, ok, applied);
    } else {
      OtherCallsView(cfg, s, ok, applied);
      UnauditedLane(cfg, Continue(cfg, AfterCall(s, applied), ok).state);
      NothingChanges(cfg, s, Continue(cfg, AfterCall(s, applied), ok).state);
    }
  }

  lemma PreviousDownEnds(cfg: Config, s: State, ok: bool, applied: bool)
    requires s.lane.PreviousDown?
    ensures LaneAudited(cfg, Continue(cfg, AfterCall(s, applied), ok).state)
  {
  }

  // ---- every action, every run ----

  lemma RevokeView(s: State, n: Name, reason: string, expectedNode: Option<Node>, expectedCreatedAt: Option<Time>)
    ensures AuditView(s, RevokeStep(s, n, reason, expectedNode, expectedCreatedAt).state)
  {
    hide RevocationTargets, RevokeAll, NextPublishable;
    if n in s.rows {
      RevokeAllAudit(s.rows, RevocationTargets(s.rows, n), s.now, reason);
    }
  }

  lemma ReleaseView(s: State, credential: Credential)
    ensures AuditView(s, ReleaseStep(s, credential).state)
  {
  }

  lemma CancelView(cfg: Config, s: State, credential: Credential, observed: Option<Address>)
    ensures AuditView(s, CancelRenameStep(cfg, s, credential, observed).state)
  {
  }

  lemma SweepView(cfg: Config, s: State, n: Name, startedAt: Time)
    ensures AuditView(s, SweepStep(cfg, s, n, startedAt).state)
  {
  }

  lemma ReclaimRouteFates(
    cfg: Config, s: State, n: Name, credential: Credential, dynamic: bool, observed: Option<Address>)
    requires Trails(s)
    ensures Fates(cfg, s, ReclaimRouteStep(cfg, s, n, credential, dynamic, observed).state)
  {
    NothingChanges(cfg, s, s);
    hide Trails, Fates;
    if n in s.rows {
      ReclaimFates(cfg, s, n, dynamic, observed);
    }
  }

  /** An action other than a tick of the clock gives every row one of the fates, but for a row it spoils. */
  lemma ActionFates(w: Promises, cfg: Config, s: State, a: Action)
    requires Inv(w, cfg, s) && Trails(s) && LaneAudited(cfg, s) && Enabled(cfg, s, a) && !a.Tick?
    ensures FatesBut(cfg, s, Next(cfg, s, a), if a.Resume? then Spoiled(cfg, s, a) else {})
  {
    hide LaneAudited, FatesBut, Inv, AuditView, Trails, SoundLanding;
    var s' := Next(cfg, s, a);
    match a {
      case Register(n, node, dynamic, presented, secret, observed) =>
        RegisterFates(cfg, s, n, node, dynamic, presented, secret, observed);
      case ReclaimRoute(n, credential, dynamic, observed) =>
        ReclaimRouteFates(cfg, s, n, credential, dynamic, observed);
      case Heartbeat(credential, observed) => HeartbeatFates(w, cfg, s, credential, observed);
      case Rename(credential, n, secret) => RenameFates(w, cfg, s, credential, n, secret);
      case CancelRename(credential, observed) =>
        CancelView(cfg, s, credential, observed);
        NothingChanges(cfg, s, s');
      case Release(credential) =>
        ReleaseView(s, credential);
        NothingChanges(cfg, s, s');
      case Revoke(n, reason, expectedNode, expectedCreatedAt) =>
        RevokeView(s, n, reason, expectedNode, expectedCreatedAt);
        NothingChanges(cfg, s, s');
      case SweepVisit(n, startedAt) =>
        SweepView(cfg, s, n, startedAt);
        NothingChanges(cfg, s, s');
      case Resume(ok, applied) => ContinueFates(w, cfg, s, ok, applied);
      case RunWaiting => TurnFates(cfg, s);
      case _ => UnauditedFates(cfg, s, a);
    }
  }

  lemma TurnFates(cfg: Config, s: State)
    requires Trails(s) && Enabled(cfg, s, RunWaiting)
    ensures Fates(cfg, s, Next(cfg, s, RunWaiting))
  {
    var s1 := s.(waiting := s.waiting[1..]);
    assert Trails(s1);
    hide Trails, Fates;
    var k := s.waiting[0];
    if k.name in s.rows && !s.rows[k.name].Active() && s.rows[k.name].credential == k.credential {
      ReclaimFates(cfg, s1, k.name, k.dynamic, k.observed);
      FatesCarry(cfg, s, s1, Next(cfg, s, RunWaiting));
    } else {
      NothingChanges(cfg, s, Next(cfg, s, RunWaiting));
    }
  }

  lemma UnauditedFates(cfg: Config, s: State, a: Action)
    requires Enabled(cfg, s, a) && Trails(s) && (a.Purge? || a.Restart? || a.Wait?)
    ensures Fates(cfg, s, Next(cfg, s, a))
  {
    hide Fates;
    NothingChanges(cfg, s, Next(cfg, s, a));
  }

  lemma FateIsTrailed(cfg: Config, s: State, s': State, n: Name)
    requires Trails(s) && s'.now == s.now && n in s'.rows && RowFate(cfg, s, s', n)
    ensures Trailed(s', n)
  {
  }

  lemma FatesAreTrailed(cfg: Config, s: State, s': State, spoiled: set<Name>)
    requires Trails(s) && s'.now == s.now && FatesBut(cfg, s, s', spoiled)
    requires forall n | n in spoiled :: Trailed(s', n)
    ensures Trails(s')
  {
    hide RowFate;
    forall n | n in s'.rows
      ensures n in s'.contacts && Windowed(s'.rows[n], s'.now)
    {
      if n !in spoiled {
        FateIsTrailed(cfg, s, s', n);
      }
    }
  }

  lemma TimeIsTrailed(s: State, elapsed: nat)
    requires Trails(s)
    ensures Trails(s.(now := s.now + elapsed))
  {
  }

  // ---- the owner of the lane ----

  lemma LaneAuditSurvives(cfg: Config, s: State, s': State)
    requires LaneOk(cfg, s) && LaneAudited(cfg, s) && Beside(s, s')
    ensures LaneAudited(cfg, s')
  {
  }

  lemma OtherOwners(cfg: Config, s: State, a: Action)
    requires Enabled(cfg, s, a) && s.lane.Idle? && !a.Heartbeat? && !a.CancelRename?
    ensures Unaudited(Next(cfg, s, a).lane)
  {
    hide RegisterStep, ReclaimRouteStep, RenameStep, ReleaseStep, RevokeStep, SweepStep, Continue, ReclaimInLane;
  }

  lemma HeldLaneAudited(cfg: Config, s: State, a: Action)
    requires LaneOk(cfg, s) && LaneAudited(cfg, s)
    requires Enabled(cfg, s, a) && !s.lane.Idle? && !a.Resume? && !a.Restart?
    ensures LaneAudited(cfg, Next(cfg, s, a))
  {
    hide Beside;
    HeldLane(cfg, s, a);
    LaneAuditSurvives(cfg, s, Next(cfg, s, a));
  }

  lemma LaneAuditedStep(w: Promises, cfg: Config, s: State, a: Action)
    requires Inv(w, cfg, s) && Trails(s) && LaneAudited(cfg, s) && Enabled(cfg, s, a)
    ensures LaneAudited(cfg, Next(cfg, s, a))
  {
    hide Rules, Trails, Beside;
    match a {
      case Resume(ok, applied) => ContinueFates(w, cfg, s, ok, applied);
      case Heartbeat(credential, observed) => HeartbeatLane(cfg, s, credential, observed);
      case CancelRename(credential, observed) => CancelLane(cfg, s, credential, observed);
      case Restart(_, _) =>
      case _ =>
        if s.lane.Idle? {
          OtherOwners(cfg, s, a);
        } else {
          HeldLaneAudited(cfg, s, a);
        }
    }
  }

  lemma HeartbeatLane(cfg: Config, s: State, credential: Credential, observed: Option<Address>)
    requires LaneAudited(cfg, s)
    ensures LaneAudited(cfg, HeartbeatStep(cfg, s, credential, observed).state)
  {
  }

  lemma CancelLane(cfg: Config, s: State, credential: Credential, observed: Option<Address>)
    requires LaneAudited(cfg, s) && Trails(s)
    ensures LaneAudited(cfg, CancelRenameStep(cfg, s, credential, observed).state)
  {
    hide ReviveRefusal;
  }

  // ---- one step ----

  /** The trails and what the owner of the lane knows survive every action. */
  lemma StepTrails(w: Promises, cfg: Config, s: State, a: Action)
    requires Inv(w, cfg, s) && Trails(s) && LaneAudited(cfg, s) && Enabled(cfg, s, a)
    ensures Trails(Next(cfg, s, a)) && LaneAudited(cfg, Next(cfg, s, a))
  {
    LaneAuditedStep(w, cfg, s, a);
    hide Inv, Trails, LaneAudited, FatesBut, SoundLanding;
    if a.Tick? {
      TimeIsTrailed(s, a.elapsed);
    } else {
      ActionFates(w, cfg, s, a);
      if a.Resume? {
        ContinueFates(w, cfg, s, a.ok, a.applied);
      }
      ClockStands(cfg, s, a);
      FatesAreTrailed(cfg, s, Next(cfg, s, a), if a.Resume? then Spoiled(cfg, s, a) else {});
    }
  }

  lemma ClockStands(cfg: Config, s: State, a: Action)
    requires Enabled(cfg, s, a) && !a.Tick?
    ensures Next(cfg, s, a).now == s.now
  {
    hide RegisterStep, ReclaimRouteStep, HeartbeatStep, RenameStep, CancelRenameStep, ReleaseStep, RevokeStep,
         SweepStep, Continue;
  }

  /** An action under which no cancellation lands on `n` unsoundly keeps the audit of `n`. */
  lemma StepAudits(w: Promises, cfg: Config, s: State, a: Action, n: Name)
    requires Inv(w, cfg, s) && Trails(s) && LaneAudited(cfg, s) && Audited(cfg, s, n)
    requires Enabled(cfg, s, a) && SoundLanding(cfg, s, a, n)
    ensures Audited(cfg, Next(cfg, s, a), n)
  {
    var s' := Next(cfg, s, a);
    if !a.Tick? && n in s'.rows {
      ActionFates(w, cfg, s, a);
      assert RowFate(cfg, s, s', n);
      hide RowFate, Trails, LaneAudited, Inv, Next;
      InvCore(w, cfg, s);
      FateDeserves(w, cfg, s, s', n);
    }
  }

  lemma InvCore(w: Promises, cfg: Config, s: State)
    requires Inv(w, cfg, s)
    ensures Core(w, cfg, s)
  {
  }
}
