/** The invariant of the managed-DNS service: what holds between any two actions, whoever holds the
    transition lane and whatever registrations run while the lane's owner awaits the provider. It holds in every
    run; a promise it watches is kept as well, as long as no waiting reclaim harms that promise. */
module ProtocolInvariant {
  import opened Prelude
  import opened Registrations
  import opened RateLimit
  import opened DnsProvider
  import opened Protocol
  import opened TableRules

  // ---- the invariant ----

  /** The row's credential was issued, and its time stamps are past. */
  ghost predicate RowStamped(row: Row, issued: set<Credential>, now: Time) {
    && row.credential in issued
    && row.createdAt <= now
    && (row.lastContactAt.Some? ==> row.lastContactAt.value <= now)
    && (row.releasedAt.Some? ==> row.releasedAt.value <= now)
  }

  /** A row that has ever matured and is no longer active has no record left at the provider. */
  ghost predicate NothingLeftBehind(t: Table, records: Records) {
    forall n | n in t && t[n].maturedAt.Some? && !t[n].Active() :: n !in records
  }

  ghost predicate Watched(w: Promises, cap: int, t: Table) {
    && (w.cap ==> |ActiveNames(t)| <= cap)
    && (w.node.Some? ==> NodeCap(t, w.node.value))
    && (w.links ==> LinksOk(t))
  }

  ghost predicate Rules(w: Promises, cap: int, t: Table, records: Records, issued: set<Credential>, now: Time) {
    && TableOk(t)
    && Watched(w, cap, t)
    && (forall n | n in t :: RowStamped(t[n], issued, now))
    && NothingLeftBehind(t, records)
  }

  ghost predicate Core(w: Promises, cfg: Config, s: State) {
    Rules(w, cfg.cumulativeCap, s.rows, s.records, s.issued, s.now)
  }

  /** A revocation target that needs no further deletion: if its row is still there and ever matured,
      its record is gone. */
  ghost predicate Cleared(s: State, target: Target) {
    StillThere(s.rows, target) && s.rows[target.name].maturedAt.Some? ==> target.name !in s.records
  }

  ghost predicate TargetsOk(s: State, targets: seq<Target>, next: nat) {
    && (forall i | 0 <= i < |targets| ::
          targets[i].row.credential in s.issued
          && (StillThere(s.rows, targets[i]) ==> s.rows[targets[i].name] == targets[i].row))
    && (forall i | 0 <= i < |targets| && (i < next || !targets[i].Publishable()) :: Cleared(s, targets[i]))
  }

  /** The replacement being published, or just published, is still the row that was read. */
  ghost predicate ReplacementOk(s: State, n: Name, row: Row) {
    && n in s.rows && s.rows[n].status.Pending? && s.rows[n].node == row.node
    && row.replacing.Some? && s.rows[n].replacing == row.replacing
  }

  ghost predicate MaturedRow(s: State, n: Name) {
    n in s.rows && s.rows[n].status.Matured?
  }

  /** What the owner of the lane still knows about the rows it is working on. */
  ghost predicate LaneOk(cfg: Config, s: State) {
    match s.lane
    case Idle => true
    case Sweeping(n, startedAt) => n in s.rows && s.rows[n].Active() && startedAt <= s.now
    case Publishing(n, _) => MaturedRow(s, n)
    case Restoring(n, _, _) => MaturedRow(s, n)
    case ReplacementUp(n, row, _, at) => ReplacementOk(s, n, row) && at <= s.now
    case PreviousDown(n, row, previous, at) =>
      ReplacementOk(s, n, row) && row.replacing == Some(previous) && n in s.records && at <= s.now
      && MaturedRow(s, previous) && s.rows[previous].node == row.node
    case Cancelling(n, previous, read, _) =>
      && n != previous
      && (n in s.rows ==> s.rows[n].status.Pending? || s.rows[n].status.Abandoned?)
      && (n in s.rows && s.rows[n].replacing.Some? ==>
            s.rows[n].replacing == Some(previous) && s.rows[n].node == read.node)
      && (read.Active() ==> previous in s.rows && s.rows[previous] == read)
      && (previous in s.rows && s.rows[previous].status.Abandoned? ==> s.rows[previous] == read)
    case Releasing(n) =>
      MaturedRow(s, n) && forall m | m in s.rows && s.rows[m].Claims() :: s.rows[m].replacing != Some(n)
    case Revoking(targets, next, _) => next < |targets| && TargetsOk(s, targets, next)
  }

  ghost predicate Inv(w: Promises, cfg: Config, s: State) {
    Core(w, cfg, s) && LaneOk(cfg, s)
  }

  // ---- what each kind of statement does to Core ----

  lemma CoreTouches(w: Promises, cfg: Config, s: State, n: Name, row: Row)
    requires Core(w, cfg, s) && n in s.rows && SameStanding(s.rows[n], row) && RowStamped(row, s.issued, s.now)
    ensures Core(w, cfg, s.(rows := s.rows[n := row]))
  {
    hide TableOk, NodeCap, LinksOk;
    Touches(s.rows, n, row);
    ActiveAfterUpdate(s.rows, n, row);
    assert ActiveNames(s.rows[n := row]) == ActiveNames(s.rows);
  }

  lemma CoreShrinks(w: Promises, cfg: Config, s: State, t: Table)
    requires Core(w, cfg, s) && t.Keys <= s.rows.Keys && forall n | n in t :: t[n] == s.rows[n]
    ensures Core(w, cfg, s.(rows := t))
  {
    hide TableOk, NodeCap, LinksOk;
    Shrinks(s.rows, t);
    SubsetSize(ActiveNames(t), ActiveNames(s.rows));
  }

  lemma CoreDeactivates(w: Promises, cfg: Config, s: State, n: Name, row: Row)
    requires Core(w, cfg, s) && n in s.rows && RowOk(row) && !row.Active() && RowStamped(row, s.issued, s.now)
    requires row.credential == s.rows[n].credential && row.node == s.rows[n].node
    requires row.replacing == s.rows[n].replacing
    requires w.links ==> (row.Claims() ==> s.rows[n].Claims()) && (row.status.Released? ==> row.replacing.None?)
    requires row.maturedAt.Some? ==> n !in s.records
    ensures Core(w, cfg, s.(rows := s.rows[n := row]))
  {
    hide TableOk, NodeCap, LinksOk;
    Deactivates(s.rows, n, row);
    ActiveAfterUpdate(s.rows, n, row);
    SubsetSize(ActiveNames(s.rows[n := row]), ActiveNames(s.rows));
  }

  lemma CoreActivates(w: Promises, cfg: Config, s: State, n: Name, row: Row)
    requires Core(w, cfg, s) && RowOk(row) && row.Active() && row.replacing != Some(n)
    requires RowStamped(row, s.issued, s.now) && (n in s.rows ==> !s.rows[n].Active())
    requires forall m | m in s.rows && m != n :: s.rows[m].credential != row.credential
    requires w.cap ==> |ActiveNames(s.rows)| < cfg.cumulativeCap
    requires w.node == Some(row.node) ==> Capped(s.rows, n, row)
    requires w.links ==> Linked(s.rows, n, row)
    ensures Core(w, cfg, s.(rows := s.rows[n := row]))
  {
    hide TableOk, RowStamped, NodeCap, LinksOk, Capped, Linked;
    var s' := s.(rows := s.rows[n := row]);
    Activates(s.rows, n, row);
    ActiveAfterUpdate(s.rows, n, row);
    assert NothingLeftBehind(s'.rows, s'.records);
  }

  lemma CoreMatures(w: Promises, cfg: Config, s: State, n: Name, row: Row)
    requires Core(w, cfg, s) && n in s.rows && s.rows[n].status.Pending? && row.status.Matured? && RowOk(row)
    requires row.credential == s.rows[n].credential && row.node == s.rows[n].node && row.replacing.None?
    requires forall m | m in s.rows && m != n && s.rows[n].replacing == Some(m) ::
               !s.rows[m].Active() || s.rows[m].node != row.node
    requires RowStamped(row, s.issued, s.now)
    ensures Core(w, cfg, s.(rows := s.rows[n := row]))
  {
    hide TableOk, NodeCap, LinksOk;
    Matures(s.rows, n, row);
    ActiveAfterUpdate(s.rows, n, row);
    assert ActiveNames(s.rows[n := row]) == ActiveNames(s.rows);
  }

  /** Recording a contact, and setting or clearing the known address, touch one row or none. */
  lemma CoreContacts(w: Promises, cfg: Config, s: State, n: Name, started: Time)
    requires Core(w, cfg, s)
    ensures Core(w, cfg, s.(rows := SetContactWindow(s.rows, n, s.now, started)))
    ensures SetContactWindow(s.rows, n, s.now, started).Keys == s.rows.Keys
    ensures forall m | m in s.rows :: SameStanding(s.rows[m], SetContactWindow(s.rows, n, s.now, started)[m])
  {
    if n in s.rows {
      CoreTouches(w, cfg, s, n, s.rows[n].(lastContactAt := Some(s.now), contactStartedAt := Some(started)));
    }
  }

  lemma CoreAddresses(w: Promises, cfg: Config, s: State, n: Name, address: Option<Address>)
    requires Core(w, cfg, s)
    ensures Core(w, cfg, s.(rows := SetLastKnownAddress(s.rows, n, address)))
  {
    if n in s.rows {
      CoreTouches(w, cfg, s, n, s.rows[n].(lastKnownAddress := address));
    }
  }

  /** A secret never issued before is in no row, and issuing it keeps the rules. */
  lemma SecretIsNew(w: Promises, cfg: Config, s: State, secret: Credential)
    requires Core(w, cfg, s) && secret !in s.issued
    ensures forall m | m in s.rows :: s.rows[m].credential != secret
    ensures Core(w, cfg, s.(issued := s.issued + {secret}))
  {
    hide TableOk, NothingLeftBehind, Watched;
  }

  lemma RowFacts(w: Promises, cfg: Config, s: State, n: Name)
    requires Core(w, cfg, s) && n in s.rows
    ensures RowOk(s.rows[n]) && RowStamped(s.rows[n], s.issued, s.now) && s.rows[n].replacing != Some(n)
    ensures s.rows[n].maturedAt.Some? && !s.rows[n].Active() ==> n !in s.records
  {
  }

  /** An abandoned row that names another as replaced is the only manageable one to do so. */
  lemma OnlyClaim(w: Promises, cfg: Config, s: State, n: Name)
    requires Core(w, cfg, s) && w.links && n in s.rows
    ensures s.rows[n].Claims() ==>
              forall m | m in s.rows && m != n && s.rows[m].Claims() :: s.rows[m].replacing != s.rows[n].replacing
  {
  }

  // ---- register ----

  /** A newly inserted row, without a trail. */
  ghost predicate NewRow(s: State, s': State, m: Name)
    requires m in s'.rows
  {
    && s'.rows[m].status.Pending? && s'.rows[m].replacing.None? && s'.rows[m].maturedAt.None?
    && s'.rows[m].lastContactAt.None? && s'.rows[m].contactStartedAt.None? && s'.rows[m].credential !in s.issued
    && m in s'.contacts && s'.contacts[m] == []
  }

  /** What may happen while somebody holds the lane: active rows stay as they are, and any other row
      stays, goes, or gives way to a newly inserted one. */
  ghost predicate Beside(s: State, s': State) {
    && s'.lane == s.lane && s'.records == s.records && s'.now >= s.now && s.issued <= s'.issued
    && (forall m | m in s.rows && s.rows[m].Active() :: m in s'.rows && s'.rows[m] == s.rows[m])
    && (forall m | m in s'.rows ::
          || (m in s.rows && s'.rows[m] == s.rows[m]
              && (m in s.contacts ==> m in s'.contacts && s'.contacts[m] == s.contacts[m]))
          || NewRow(s, s', m))
  }

  lemma LaneSurvives(cfg: Config, s: State, s': State)
    requires LaneOk(cfg, s) && Beside(s, s')
    ensures LaneOk(cfg, s')
  {
    if s.lane.Revoking? {
      var targets := s.lane.targets;
      forall i | 0 <= i < |targets|
        ensures StillThere(s'.rows, targets[i]) ==>
                  s'.rows[targets[i].name] == targets[i].row && StillThere(s.rows, targets[i])
      {
      }
    }
  }

  lemma RegisterFreshKeeps(w: Promises, cfg: Config, s: State, n: Name, node: Node, dynamic: bool, secret: Credential)
    requires Inv(w, cfg, s) && secret !in s.issued && n !in s.rows
    ensures Inv(w, cfg, RegisterFresh(cfg, s, n, node, dynamic, secret).state)
  {
    hide Rules, LaneOk, Capped, Linked;
    NotFull(s.rows, node);
    SecretIsNew(w, cfg, s, secret);
    var row := Fresh(secret, node, dynamic, s.now, None);
    if !NodeFull(s.rows, node) && !AtCap(cfg, s.rows) {
      EmptyNode(s.rows, n, row);
      CoreActivates(w, cfg, s.(issued := s.issued + {secret}), n, row);
    }
    RegisterFreshBeside(cfg, s, n, node, dynamic, secret);
    LaneSurvives(cfg, s, RegisterFresh(cfg, s, n, node, dynamic, secret).state);
  }

  lemma RemovingExpiredKeeps(w: Promises, cfg: Config, s: State, n: Name)
    requires Inv(w, cfg, s) && n in s.rows && !s.rows[n].Active()
    ensures Inv(w, cfg, s.(rows := s.rows - {n}))
  {
    hide Rules, LaneOk;
    CoreShrinks(w, cfg, s, s.rows - {n});
    LaneSurvives(cfg, s, s.(rows := s.rows - {n}));
  }

  lemma RegisterFreshBeside(cfg: Config, s: State, n: Name, node: Node, dynamic: bool, secret: Credential)
    requires secret !in s.issued && n !in s.rows
    ensures Beside(s, RegisterFresh(cfg, s, n, node, dynamic, secret).state)
  {
    hide Refill, ActiveNames, ActiveNamesOf;
  }

  /** While the lane is held, a registration runs beside its owner. */
  lemma RegisterBeside(
    cfg: Config, s: State, n: Name, node: Node, dynamic: bool, presented: Option<Credential>,
    secret: Credential, observed: Option<Address>)
    requires !s.lane.Idle? && secret !in s.issued
    ensures Beside(s, RegisterStep(cfg, s, n, node, dynamic, presented, secret, observed).state)
  {
    hide RegisterFresh, ReclaimInLane, ActiveNames, ActiveNamesOf;
    if n !in s.rows {
      RegisterFreshBeside(cfg, s, n, node, dynamic, secret);
    } else if !s.rows[n].Active() && s.rows[n].Expired(cfg.cooldown, s.now) {
      RegisterFreshBeside(cfg, s.(rows := s.rows - {n}), n, node, dynamic, secret);
    }
  }

  /** While the lane is held, only a registration or the clock changes anything else. */
  lemma HeldLane(cfg: Config, s: State, a: Action)
    requires Enabled(cfg, s, a) && !s.lane.Idle? && !a.Resume? && !a.Restart?
    ensures Beside(s, Next(cfg, s, a))
  {
    match a {
      case Register(n, node, dynamic, presented, secret, observed) =>
        RegisterBeside(cfg, s, n, node, dynamic, presented, secret, observed);
      case _ => RefusedBeside(cfg, s, a);
    }
  }

  lemma RefusedBeside(cfg: Config, s: State, a: Action)
    requires Enabled(cfg, s, a) && !s.lane.Idle? && !a.Resume? && !a.Restart? && !a.Register?
    ensures Beside(s, Next(cfg, s, a))
  {
    hide Beside, AtCap, NodeFull, ReclaimInLane, RenameFresh, RetryRename, ReviveRefusal, RevokeFrom;
    OnlyTimePasses(s, Next(cfg, s, a));
  }

  lemma OnlyTimePasses(s: State, s': State)
    requires s' == s.(now := s'.now) && s'.now >= s.now
    ensures Beside(s, s')
  {
  }

  /** A reactivated row keeps its identity, its maturation and its claim, and is contacted now. The index may
      refuse it. */
  lemma ReactivateRows(cfg: Config, s: State, n: Name, dynamic: bool, observed: Option<Address>)
    requires n in s.rows
    ensures var o := ReactivateRow(cfg, s, n, dynamic, observed).state;
            if CanReclaim(s.rows, n, s.rows[n].maturedAt.Some?) then
              && o.rows == s.rows[n := o.rows[n]] && o.rows[n].Active()
              && SameStanding(o.rows[n], Reactivated(s.rows[n])) && o.issued == s.issued
              && o.rows[n].createdAt == s.rows[n].createdAt && o.rows[n].lastContactAt == Some(s.now)
            else o == s
  {
    hide CanReclaim;
  }

  /** A fresh registration inserts one pending row, or nothing. */
  lemma RegisterFreshRows(cfg: Config, s: State, n: Name, node: Node, dynamic: bool, secret: Credential)
    ensures var o := RegisterFresh(cfg, s, n, node, dynamic, secret).state;
            o.rows == s.rows || (n !in s.rows && o.rows == s.rows[n := Fresh(secret, node, dynamic, s.now, None)])
  {
    hide AtCap, NodeFull, Refill, Allows;
  }

  /** What the promises require of the turn of a reclaim; an admitted one meets it. */
  ghost predicate Room(w: Promises, cfg: Config, s: State, n: Name)
    requires n in s.rows
  {
    && (w.cap ==> !AtCap(cfg, s.rows))
    && (w.node == Some(s.rows[n].node) ==> Capped(s.rows, n, Reactivated(s.rows[n])))
    && (w.links ==> Linked(s.rows, n, Reactivated(s.rows[n])))
  }

  /** Only the columns of a row's standing matter to the promises. */
  lemma RoomForStanding(t: Table, n: Name, a: Row, b: Row)
    requires SameStanding(a, b)
    ensures Capped(t, n, a) ==> Capped(t, n, b)
    ensures Linked(t, n, a) ==> Linked(t, n, b)
  {
  }

  lemma ReactivateLane(cfg: Config, s: State, n: Name, dynamic: bool, observed: Option<Address>)
    requires s.lane.Idle? && n in s.rows
    ensures LaneOk(cfg, ReactivateRow(cfg, s, n, dynamic, observed).state)
  {
    hide CanReclaim;
  }

  /** The invariant looks at the rows, the records, the issued credentials and the clock. */
  lemma CoreCarries(w: Promises, cfg: Config, s: State, s': State)
    requires Core(w, cfg, s) && s'.rows == s.rows && s'.records == s.records && s'.issued == s.issued
    requires s'.now == s.now
    ensures Core(w, cfg, s')
  {
    hide Rules;
  }

  lemma ReactivateKeeps(w: Promises, cfg: Config, s: State, n: Name, dynamic: bool, observed: Option<Address>)
    requires Core(w, cfg, s) && s.lane.Idle? && n in s.rows && !s.rows[n].Active()
    requires CanReclaim(s.rows, n, s.rows[n].maturedAt.Some?) ==> Room(w, cfg, s, n)
    ensures Inv(w, cfg, ReactivateRow(cfg, s, n, dynamic, observed).state)
  {
    hide Rules, Capped, Linked, CanReclaim, ReactivateRow, LaneOk;
    ReactivateLane(cfg, s, n, dynamic, observed);
    ReactivateRows(cfg, s, n, dynamic, observed);
    if CanReclaim(s.rows, n, s.rows[n].maturedAt.Some?) {
      RowFacts(w, cfg, s, n);
      CredentialFacts(w, cfg, s, n);
      var o := ReactivateRow(cfg, s, n, dynamic, observed).state;
      RoomForStanding(s.rows, n, Reactivated(s.rows[n]), o.rows[n]);
      CoreActivates(w, cfg, s, n, o.rows[n]);
      CoreCarries(w, cfg, s.(rows := o.rows), o);
    }
  }

  /** A row that was not revoked and fits the caps can come back. */
  lemma AdmittedHasRoom(w: Promises, cfg: Config, s: State, n: Name)
    requires Core(w, cfg, s) && n in s.rows && !s.rows[n].Active() && !s.rows[n].status.Revoked?
    requires !NodeFull(s.rows, s.rows[n].node) && !AtCap(cfg, s.rows)
    ensures Room(w, cfg, s, n)
  {
    var row := Reactivated(s.rows[n]);
    NotFull(s.rows, row.node);
    EmptyNode(s.rows, n, row);
    RowFacts(w, cfg, s, n);
    if w.links {
      OnlyClaim(w, cfg, s, n);
      assert s.rows[n].status.Released? ==> s.rows[n].replacing.None?;
    }
    hide Rules, Capped, Linked;
  }

  lemma AdmitReclaimKeeps(w: Promises, cfg: Config, s: State, ticket: Ticket)
    requires Inv(w, cfg, s) && Reclaimable(cfg, s, ticket.name, ticket.credential)
    ensures Inv(w, cfg, AdmitReclaim(cfg, s, ticket).state)
  {
    if !NodeFull(s.rows, s.rows[ticket.name].node) && !AtCap(cfg, s.rows) && s.lane.Idle? {
      AdmittedHasRoom(w, cfg, s, ticket.name);
      ReactivateKeeps(w, cfg, s, ticket.name, ticket.dynamic, ticket.observed);
    }
  }

  lemma RegisterKeeps(
    w: Promises, cfg: Config, s: State, n: Name, node: Node, dynamic: bool, presented: Option<Credential>,
    secret: Credential, observed: Option<Address>)
    requires Inv(w, cfg, s) && secret !in s.issued
    ensures Inv(w, cfg, RegisterStep(cfg, s, n, node, dynamic, presented, secret, observed).state)
  {
    if n !in s.rows {
      RegisterFreshKeeps(w, cfg, s, n, node, dynamic, secret);
    } else if s.rows[n].Active() {
    } else if s.rows[n].Expired(cfg.cooldown, s.now) {
      RemovingExpiredKeeps(w, cfg, s, n);
      RegisterFreshKeeps(w, cfg, s.(rows := s.rows - {n}), n, node, dynamic, secret);
    } else if presented == Some(s.rows[n].credential) && !s.rows[n].status.Revoked? {
      AdmitReclaimKeeps(w, cfg, s, Ticket(n, s.rows[n].credential, dynamic, observed));
    }
  }

  // ---- heartbeat ----

  /** The row after contact at `now`. */
  function ContactedCopy(cfg: Config, row: Row, now: Time): Row {
    row.(lastContactAt := Some(now), contactStartedAt := Some(ContactStart(cfg, row, now)))
  }

  /** A heartbeat records contact for its row, and matures the row in place when it is old enough and
      replaces no other. */
  lemma HeartbeatRows(cfg: Config, s: State, credential: Credential, observed: Option<Address>, n: Name)
    requires s.lane.Idle? && ByCredential(s.rows, credential) == Some(n) && s.rows[n].Active()
    ensures var o := HeartbeatStep(cfg, s, credential, observed).state;
            var x := ContactedCopy(cfg, s.rows[n], s.now);
            && o.rows == s.rows[n := o.rows[n]]
            && o.contacts == Log(s.contacts, n, Contact(s.rows[n].node, s.now))
            && o.issued == s.issued
            && o.rows[n] == (
                 if x.status.Pending? && x.replacing.None? && s.now - x.contactStartedAt.value >= cfg.minAge
                 then x.(status := Matured, maturedAt := Some(s.now)) else x)
  {
    hide ContactStart, PublishIfDue;
  }

  lemma HeartbeatRefused(cfg: Config, s: State, credential: Credential, observed: Option<Address>)
    requires !s.lane.Idle? || ByCredential(s.rows, credential).None?
             || !s.rows[ByCredential(s.rows, credential).value].Active()
    ensures HeartbeatStep(cfg, s, credential, observed).state == s
  {
  }

  lemma HeartbeatKeeps(w: Promises, cfg: Config, s: State, credential: Credential, observed: Option<Address>)
    requires Inv(w, cfg, s)
    ensures Inv(w, cfg, HeartbeatStep(cfg, s, credential, observed).state)
  {
    hide Rules;
    var found := ByCredential(s.rows, credential);
    if s.lane.Idle? && found.Some? && s.rows[found.value].Active() {
      var n := found.value;
      var row := s.rows[n];
      var started := ContactStart(cfg, row, s.now);
      var s1 := Contacted(cfg, s, n, row, row.node);
      CoreContacts(w, cfg, s, n, started);
      RowFacts(w, cfg, s1, n);
      if row.status.Pending? && s.now - started >= cfg.minAge && row.replacing.None? {
        var row2 := s1.rows[n].(status := Matured, maturedAt := Some(s.now));
        CoreMatures(w, cfg, s1, n, row2);
      }
    }
  }

  // ---- rename ----

  /** With room in the table a replacement may join an active row that replaces nothing, when no pending row
      claims it yet, and for the links' sake nobody else does. */
  lemma RoomForReplacement(w: Promises, cfg: Config, s: State, current: Name, n: Name, row: Row)
    requires Core(w, cfg, s) && n != current && row.status.Pending? && row.replacing == Some(current)
    requires current in s.rows && s.rows[current].Active() && s.rows[current].replacing.None?
    requires row.node == s.rows[current].node
    requires forall m | m in s.rows && m != n && s.rows[m].status.Pending? :: s.rows[m].replacing != Some(current)
    requires w.links ==> forall m | m in s.rows && m != n && s.rows[m].Claims() :: s.rows[m].replacing != Some(current)
    ensures w.node == Some(row.node) ==> Capped(s.rows, n, row)
    ensures w.links ==> Linked(s.rows, n, row)
  {
    if w.node == Some(row.node) || w.links {
      OnlyReplacementsBeside(s.rows, current);
      assert ActiveNamesOf(s.rows, row.node) - {n} == {current};
    }
  }

  lemma ReplacementInserted(w: Promises, cfg: Config, s: State, current: Name, n: Name, secret: Credential)
    requires Core(w, cfg, s) && !AtCap(cfg, s.rows) && secret !in s.issued && n !in s.rows
    requires current in s.rows && s.rows[current].Active() && s.rows[current].replacing.None?
    requires CanInsert(s.rows, n, secret, Some(current))
    requires w.links ==> forall m | m in s.rows && s.rows[m].Claims() :: s.rows[m].replacing != Some(current)
    ensures Core(w, cfg, OneMore(s, n, Fresh(secret, s.rows[current].node, s.rows[current].dynamic, s.now,
                                             Some(current))))
  {
    hide Rules, Capped, Linked;
    var row := Fresh(secret, s.rows[current].node, s.rows[current].dynamic, s.now, Some(current));
    SecretIsNew(w, cfg, s, secret);
    RoomForReplacement(w, cfg, s, current, n, row);
    CoreActivates(w, cfg, s.(issued := s.issued + {secret}), n, row);
  }

  /** A new rename either leaves the table alone, or deletes the expired row under the new name, or
      goes on to record contact and insert the replacement. */
  lemma RenameFreshRows(cfg: Config, s: State, current: Name, row: Row, n: Name, secret: Credential)
    requires current in s.rows && s.rows[current] == row && n != current
    ensures var o := RenameFresh(cfg, s, current, row, n, secret).state;
            var x := ContactedCopy(cfg, row, s.now);
            || (o.rows == s.rows && o.contacts == s.contacts)
            || (&& (n in s.rows ==> !s.rows[n].Active() && s.rows[n].Expired(cfg.cooldown, s.now))
                && (|| (o.rows == s.rows - {n} && o.contacts == s.contacts)
                    || (&& o.contacts == Log(s.contacts, current, Contact(row.node, s.now))
                        && o.rows == (s.rows - {n})[current := x])
                    || (&& o.contacts == Log(s.contacts, current, Contact(row.node, s.now))[n := []]
                        && o.rows == (s.rows - {n})[current := x]
                             [n := Fresh(secret, row.node, row.dynamic, s.now, Some(current))])))
  {
    hide AtCap, ContactStart, Allows, Refill, CanInsert;
  }

  lemma ContactKeepsActive(t: Table, n: Name, last: Time, started: Time)
    ensures ActiveNames(SetContactWindow(t, n, last, started)) == ActiveNames(t)
  {
  }

  /** The part of a rename that spends a token: contact, then the insertion if the indexes admit it. */
  lemma PaidRenameKeeps(w: Promises, cfg: Config, s: State, current: Name, n: Name, secret: Credential)
    requires Core(w, cfg, s) && secret !in s.issued && n !in s.rows && !AtCap(cfg, s.rows)
    requires current in s.rows && s.rows[current].Active() && s.rows[current].replacing.None?
    requires w.links ==> forall m | m in s.rows && s.rows[m].Claims() :: s.rows[m].replacing != Some(current)
    ensures var row := s.rows[current];
            var t := Contacted(cfg, s, current, row, row.node);
            && Core(w, cfg, t)
            && (CanInsert(t.rows, n, secret, Some(current)) ==>
                  Core(w, cfg, OneMore(t, n, Fresh(secret, row.node, row.dynamic, t.now, Some(current)))))
  {
    hide Rules, CanInsert, ContactStart;
    var row := s.rows[current];
    var t := Contacted(cfg, s, current, row, row.node);
    CoreContacts(w, cfg, s, current, ContactStart(cfg, row, s.now));
    ContactKeepsActive(s.rows, current, s.now, ContactStart(cfg, row, s.now));
    hide ActiveNames;
    if CanInsert(t.rows, n, secret, Some(current)) {
      ReplacementInserted(w, cfg, t, current, n, secret);
    }
  }

  lemma RenameFreshKeeps(
    w: Promises, cfg: Config, s: State, current: Name, row: Row, n: Name, secret: Credential)
    requires Core(w, cfg, s) && s.lane.Idle? && secret !in s.issued && n != current
    requires current in s.rows && s.rows[current] == row && row.Active() && row.replacing.None?
    requires w.links ==> forall m | m in s.rows && s.rows[m].Claims() :: s.rows[m].replacing != Some(current)
    ensures Inv(w, cfg, RenameFresh(cfg, s, current, row, n, secret).state)
  {
    hide Rules, CanInsert, ContactStart, AtCap, Refill;
    if !(n in s.rows && (s.rows[n].Active() || !s.rows[n].Expired(cfg.cooldown, s.now))) {
      var s0 := s.(rows := s.rows - {n});
      CoreShrinks(w, cfg, s, s.rows - {n});
      if !AtCap(cfg, s0.rows) && Allows(cfg.limits, s0.bucket, s.now) {
        PaidRenameKeeps(w, cfg, Spend(cfg, s0), current, n, secret);
      }
    }
  }

  /** The abandoned replacement of a retried rename comes back. */
  lemma ReplacementReturns(w: Promises, cfg: Config, s: State, current: Name, r: Name)
    requires Core(w, cfg, s) && !AtCap(cfg, s.rows) && CanReclaim(s.rows, r, false)
    requires current in s.rows && s.rows[current].Active() && s.rows[current].replacing.None?
    requires r in s.rows && s.rows[r].status.Abandoned? && s.rows[r].replacing == Some(current)
    requires s.rows[r].node == s.rows[current].node
    ensures Core(w, cfg, s.(rows := Reclaim(s.rows, r, false, None, s.now, Some(s.now))))
  {
    hide Rules, Capped, Linked;
    RowFacts(w, cfg, s, r);
    if w.links {
      OnlyClaim(w, cfg, s, r);
    }
    var t := Reclaim(s.rows, r, false, None, s.now, Some(s.now));
    assert t == s.rows[r := t[r]];
    CredentialFacts(w, cfg, s, r);
    RoomForReplacement(w, cfg, s, current, r, t[r]);
    CoreActivates(w, cfg, s, r, t[r]);
  }

  lemma CredentialFacts(w: Promises, cfg: Config, s: State, n: Name)
    requires Core(w, cfg, s) && n in s.rows
    ensures forall m | m in s.rows && m != n :: s.rows[m].credential != s.rows[n].credential
  {
  }

  lemma CoreRotates(w: Promises, cfg: Config, s: State, n: Name, secret: Credential)
    requires Core(w, cfg, s) && n in s.rows && secret !in s.issued
    ensures Core(w, cfg, s.(rows := ReplaceCredential(s.rows, n, secret), issued := s.issued + {secret}))
  {
    hide TableOk, NodeCap, LinksOk;
    SecretIsNew(w, cfg, s, secret);
    if s.rows[n].status.Pending? {
      Rotates(s.rows, n, secret);
      ActiveAfterUpdate(s.rows, n, s.rows[n].(credential := secret));
      assert ActiveNames(ReplaceCredential(s.rows, n, secret)) == ActiveNames(s.rows);
    }
  }

  predicate RetryIsRefused(cfg: Config, s: State, r: Name)
    requires r in s.rows
  {
    && s.rows[r].status.Abandoned?
    && (s.rows[r].Expired(cfg.cooldown, s.now) || AtCap(cfg, s.rows) || !CanReclaim(s.rows, r, false))
  }

  lemma RetryRefused(cfg: Config, s: State, current: Name, r: Name, secret: Credential)
    requires current in s.rows && r in s.rows
    requires RetryIsRefused(cfg, s, r)
    ensures RetryRename(cfg, s, current, r, secret).state == s
  {
  }

  /** The two rows as a retried rename leaves them. */
  function RetriedCopy(cfg: Config, row: Row, now: Time, secret: Credential): Row {
    row.(status := Pending, releasedAt := if row.status.Abandoned? then None else row.releasedAt,
         lastContactAt := Some(now), contactStartedAt := Some(ContactStart(cfg, row, now)), credential := secret)
  }

  lemma RetryPendingRows(cfg: Config, s: State, current: Name, r: Name, secret: Credential)
    requires current in s.rows && r in s.rows && r != current && s.rows[r].status.Pending?
    ensures RetryRename(cfg, s, current, r, secret).state.rows
         == s.rows[current := ContactedCopy(cfg, s.rows[current], s.now)]
                  [r := RetriedCopy(cfg, s.rows[r], s.now, secret)]
  {
    hide AtCap, ContactStart, CanReclaim;
  }

  lemma RetryAbandonedRows(cfg: Config, s: State, current: Name, r: Name, secret: Credential)
    requires current in s.rows && r in s.rows && r != current && s.rows[r].status.Abandoned?
    requires !RetryIsRefused(cfg, s, r)
    ensures RetryRename(cfg, s, current, r, secret).state.rows
         == s.rows[current := ContactedCopy(cfg, s.rows[current], s.now)]
                  [r := RetriedCopy(cfg, s.rows[r], s.now, secret)]
  {
    hide AtCap, ContactStart, CanReclaim;
  }

  /** What a retried rename leaves of the two rows, when it is not refused. */
  lemma RetryRenameRows(cfg: Config, s: State, current: Name, r: Name, secret: Credential)
    requires current in s.rows && r in s.rows && r != current && s.rows[r].Claims()
    requires !RetryIsRefused(cfg, s, r)
    ensures RetryRename(cfg, s, current, r, secret).state.rows
         == s.rows[current := ContactedCopy(cfg, s.rows[current], s.now)]
                  [r := RetriedCopy(cfg, s.rows[r], s.now, secret)]
  {
    hide RetryRename, ContactedCopy, RetriedCopy, RetryIsRefused;
    if s.rows[r].status.Pending? {
      RetryPendingRows(cfg, s, current, r, secret);
    } else {
      RetryAbandonedRows(cfg, s, current, r, secret);
    }
  }

  lemma RetryRenameKeeps(w: Promises, cfg: Config, s: State, current: Name, r: Name, secret: Credential)
    requires Core(w, cfg, s) && s.lane.Idle? && secret !in s.issued
    requires current in s.rows && s.rows[current].Active() && s.rows[current].replacing.None?
    requires r in s.rows && s.rows[r].Claims() && s.rows[r].replacing == Some(current)
    requires s.rows[r].node == s.rows[current].node
    ensures Inv(w, cfg, RetryRename(cfg, s, current, r, secret).state)
  {
    hide Rules;
    var row := s.rows[r];
    if !RetryIsRefused(cfg, s, r) {
      var s1 := if row.status.Abandoned?
                then s.(rows := Reclaim(s.rows, r, false, None, s.now, Some(s.now))) else s;
      if row.status.Abandoned? {
        ReplacementReturns(w, cfg, s, current, r);
      }
      var s2 := Contacted(cfg, s1, current, s.rows[current], s.rows[current].node);
      CoreContacts(w, cfg, s1, current, ContactStart(cfg, s.rows[current], s.now));
      var s3 := Contacted(cfg, s2, r, row, s.rows[current].node);
      CoreContacts(w, cfg, s2, r, ContactStart(cfg, row, s.now));
      CoreRotates(w, cfg, s3, r, secret);
    }
  }

  /** A claim on a row of another node is withdrawn. */
  lemma CoreDetaches(w: Promises, cfg: Config, s: State, r: Name, current: Name)
    requires Core(w, cfg, s) && current in s.rows
    requires r in s.rows && s.rows[r].Claims() && s.rows[r].replacing == Some(current)
    requires s.rows[r].node != s.rows[current].node
    ensures Core(w, cfg, s.(rows := DetachReplacement(s.rows, r, current)))
  {
    var row := s.rows[r].(replacing := None);
    CoreLetsGo(w, cfg, s, r);
    assert DetachReplacement(s.rows, r, current) == s.rows[r := row];
    hide Rules;
  }

  lemma CoreLetsGo(w: Promises, cfg: Config, s: State, r: Name)
    requires Core(w, cfg, s) && r in s.rows && s.rows[r].Claims()
    requires forall m | m in s.rows && s.rows[r].replacing == Some(m) :: s.rows[m].node != s.rows[r].node
    ensures Core(w, cfg, s.(rows := s.rows[r := s.rows[r].(replacing := None)]))
  {
    hide TableOk, NodeCap, LinksOk;
    var row := s.rows[r].(replacing := None);
    Detaches(s.rows, r);
    ActiveAfterUpdate(s.rows, r, row);
    assert ActiveNames(s.rows[r := row]) == ActiveNames(s.rows);
    assert RowStamped(row, s.issued, s.now);
    hide RowStamped, ActiveNames;
  }

  lemma RenameKeeps(w: Promises, cfg: Config, s: State, credential: Credential, n: Name, secret: Credential)
    requires Inv(w, cfg, s) && secret !in s.issued
    ensures Inv(w, cfg, RenameStep(cfg, s, credential, n, secret).state)
  {
    hide Rules;
    var found := ByCredential(s.rows, credential);
    if s.lane.Idle? && found.Some? && s.rows[found.value].Active() {
      var current := found.value;
      var row := s.rows[current];
      if row.replacing.None? && n != current {
        var claim := ReplacementFor(s.rows, current);
        if w.links && claim.Some? {
          OnlyClaim(w, cfg, s, claim.value);
        }
        if claim.None? {
          RenameFreshKeeps(w, cfg, s, current, row, n, secret);
        } else if s.rows[claim.value].node != row.node {
          CoreDetaches(w, cfg, s, claim.value, current);
          RenameFreshKeeps(
            w, cfg, s.(rows := DetachReplacement(s.rows, claim.value, current)), current, row, n, secret);
        } else if s.rows[claim.value].status.Abandoned? && s.rows[claim.value].Expired(cfg.cooldown, s.now) {
          CoreShrinks(w, cfg, s, s.rows - {claim.value});
          RenameFreshKeeps(w, cfg, s.(rows := s.rows - {claim.value}), current, row, n, secret);
        } else if claim.value == n {
          RetryRenameKeeps(w, cfg, s, current, n, secret);
        }
      }
    }
  }

  // ---- cancel-rename ----

  lemma CancelRenameKeeps(w: Promises, cfg: Config, s: State, credential: Credential, observed: Option<Address>)
    requires Inv(w, cfg, s)
    ensures Inv(w, cfg, CancelRenameStep(cfg, s, credential, observed).state)
  {
  }

  /** Removing the replacement leaves its node with no active row when the caps allow a revival. */
  lemma RoomToRevive(cfg: Config, t: Table, n: Name, previous: Name)
    requires n in t && previous in t && n != previous && t[n].node == t[previous].node
    requires ReviveRefusal(cfg, t, t[n], t[previous]).None?
    ensures |ActiveNames(t - {n})| < cfg.cumulativeCap
    ensures forall m | m in t - {n} && t[m].node == t[previous].node :: !t[m].Active()
  {
    ActiveAfterUpdate(t, n, t[n]);
    var own := ActiveNamesOf(t, t[previous].node);
    forall m | m in t - {n} && t[m].node == t[previous].node
      ensures !t[m].Active()
    {
      if t[m].Active() {
        assert m in own;
        if t[n].Active() {
          assert {m, n} <= own;
          SubsetSize({m, n}, own);
        } else {
          SubsetSize({m}, own);
        }
      }
    }
  }

  /** A finished cancellation removes the replacement's row and at most contacts the previous one. */
  lemma FinishCancelRows(cfg: Config, s: State, n: Name, previous: Name, read: Row, observed: Option<Address>)
    requires n != previous
    ensures var t := FinishCancel(cfg, s, n, previous, read, observed).state.rows;
            || t == s.rows
            || (&& t.Keys == s.rows.Keys - {n} && CanCancel(s.rows, n)
                && (forall m | m in t && m != previous :: t[m] == s.rows[m])
                && (previous in t ==>
                      || t[previous] == s.rows[previous]
                      || (&& t[previous].Active() && t[previous].lastContactAt == Some(s.now)
                          && !s.rows[previous].status.Revoked?
                          && t[previous].createdAt == s.rows[previous].createdAt
                          && t[previous].maturedAt == s.rows[previous].maturedAt
                          && (s.rows[previous].Active() ==> t[previous].status == s.rows[previous].status)
                          && t[previous].node == s.rows[previous].node
                          && t[previous].credential == s.rows[previous].credential)))
  {
    hide CancelRefusal, ContactStart;
    if CancelRefusal(cfg, s, n, previous, read).None? {
      CancelRefusalFacts(cfg, s, n, previous, read);
    }
  }

  lemma CancelRefusalFacts(cfg: Config, s: State, n: Name, previous: Name, read: Row)
    requires CancelRefusal(cfg, s, n, previous, read).None?
    ensures CanCancel(s.rows, n)
    ensures read.status.Abandoned? ==> previous in s.rows && s.rows[previous].status.Abandoned?
  {
  }

  lemma FinishCancelKeeps(
    w: Promises, cfg: Config, s: State, n: Name, previous: Name, read: Row, observed: Option<Address>)
    requires Core(w, cfg, s) && s.lane.Idle? && n != previous
    ensures Inv(w, cfg, FinishCancel(cfg, s, n, previous, read, observed).state)
  {
    hide Rules, CanRevive, Capped, Linked;
    if CancelRefusal(cfg, s, n, previous, read).None? {
      var revive := read.status.Abandoned?;
      var t := s.rows - {n};
      var s1 := s.(rows := t);
      CoreShrinks(w, cfg, s, t);
      var kept := if revive then s.rows[previous] else read;
      var t' := CancelReplacement(s.rows, n, previous, revive, s.now, ContactStart(cfg, kept, s.now));
      if revive {
        RoomToRevive(cfg, s.rows, n, previous);
        RowFacts(w, cfg, s1, previous);
        CredentialFacts(w, cfg, s1, previous);
        if w.links {
          OnlyClaim(w, cfg, s1, previous);
        }
        EmptyNode(t, previous, t'[previous]);
        assert t' == t[previous := t'[previous]];
        CoreActivates(w, cfg, s1, previous, t'[previous]);
        CoreAddresses(w, cfg, s.(rows := t'), previous, None);
      } else if previous in t && t[previous].Active() {
        RowFacts(w, cfg, s1, previous);
        assert t' == t[previous := t'[previous]];
        CoreTouches(w, cfg, s1, previous, t'[previous]);
      }
    }
  }

  // ---- release, revoke, sweep ----

  lemma ReleaseKeeps(w: Promises, cfg: Config, s: State, credential: Credential)
    requires Inv(w, cfg, s)
    ensures Inv(w, cfg, ReleaseStep(s, credential).state)
  {
    var found := ByCredential(s.rows, credential);
    if s.lane.Idle? && found.Some? && s.rows[found.value].status.Pending? {
      var n := found.value;
      var row := s.rows[n].(status := Released, releasedAt := Some(s.now));
      if s.rows[n].replacing.None? {
        assert Deactivate(s.rows, n, Released, s.now) == s.rows[n := row];
        CoreDeactivates(w, cfg, s, n, row);
      }
    }
  }

  lemma RevokeAllKeeps(w: Promises, cfg: Config, s: State, targets: seq<Target>, reason: string)
    requires Core(w, cfg, s) && forall i | 0 <= i < |targets| :: Cleared(s, targets[i])
    ensures Core(w, cfg, s.(rows := RevokeAll(s.rows, targets, s.now, reason)))
    decreases |targets|
  {
    if targets != [] {
      var n := targets[0].name;
      if StillThere(s.rows, targets[0]) && !s.rows[n].status.Revoked? {
        var row := s.rows[n].(status := Revoked, releasedAt := Some(s.now), revokedReason := Some(reason));
        CoreDeactivates(w, cfg, s, n, row);
        RevokeAllKeeps(w, cfg, s.(rows := s.rows[n := row]), targets[1..], reason);
      } else {
        RevokeAllKeeps(w, cfg, s, targets[1..], reason);
      }
    }
  }

  lemma RevokeFromKeeps(w: Promises, cfg: Config, s: State, targets: seq<Target>, i: nat, reason: string)
    requires Core(w, cfg, s) && i <= |targets| && TargetsOk(s, targets, i)
    ensures Inv(w, cfg, RevokeFrom(s, targets, i, reason).state)
  {
    if NextPublishable(targets, i) == |targets| {
      RevokeAllKeeps(w, cfg, s, targets, reason);
    }
  }

  lemma RevokeKeeps(
    w: Promises, cfg: Config, s: State, n: Name, reason: string, expectedNode: Option<Node>,
    expectedCreatedAt: Option<Time>)
    requires Inv(w, cfg, s)
    ensures Inv(w, cfg, RevokeStep(s, n, reason, expectedNode, expectedCreatedAt).state)
  {
    if s.lane.Idle? && n in s.rows {
      var targets := RevocationTargets(s.rows, n);
      forall i | 0 <= i < |targets|
        ensures targets[i].name in s.rows && targets[i].row == s.rows[targets[i].name]
      {
      }
      RevokeFromKeeps(w, cfg, s, targets, 0, reason);
    }
  }

  lemma SweepKeeps(w: Promises, cfg: Config, s: State, n: Name, startedAt: Time)
    requires Inv(w, cfg, s) && s.lane.Idle? && startedAt <= s.now
    ensures Inv(w, cfg, SweepStep(cfg, s, n, startedAt).state)
  {
    if n in s.rows && s.rows[n].Active() {
      var row := s.rows[n].(status := Abandoned, releasedAt := Some(startedAt));
      if !s.rows[n].status.Matured? {
        CoreDeactivates(w, cfg, s, n, row);
      }
    }
  }

  // ---- what follows a provider call ----

  /** A call's effect only ever publishes active rows, so it leaves nothing behind. */
  lemma AfterCallKeeps(w: Promises, cfg: Config, s: State, applied: bool)
    requires Inv(w, cfg, s) && !s.lane.Idle?
    ensures LaneWellFormed(s)
    ensures Core(w, cfg, AfterCall(s, applied))
    ensures applied ==> match s.lane
                        case Sweeping(n, _) => n !in AfterCall(s, applied).records
                        case Releasing(n) => n !in AfterCall(s, applied).records
                        case ReplacementUp(n, _, _, _) => n in AfterCall(s, applied).records
                        case PreviousDown(n, _, p, _) =>
                          p !in AfterCall(s, applied).records
                          && (n != p ==> n in AfterCall(s, applied).records)
                        case Revoking(targets, next, _) => TargetsOk(AfterCall(s, applied), targets, next + 1)
                        case _ => true
  {
  }

  /** The row a pending replacement of the same node renames does not itself replace another. */
  lemma RenamedReplacesNothing(w: Promises, cfg: Config, s: State, n: Name, p: Name)
    requires Core(w, cfg, s) && n in s.rows && s.rows[n].status.Pending? && s.rows[n].replacing == Some(p)
    requires w.links && p in s.rows && s.rows[p].Active() && s.rows[p].node == s.rows[n].node
    ensures s.rows[p].replacing.None?
  {
    assert p != n;
    assert Renaming(s.rows, n, p) || Renaming(s.rows, p, n);
  }

  lemma CompleteRenameKeeps(w: Promises, cfg: Config, s: State, n: Name, row: Row, at: Time)
    requires Core(w, cfg, s) && ReplacementOk(s, n, row)
    requires MaturedRow(s, row.replacing.value) && s.rows[row.replacing.value].node == row.node
             ==> row.replacing.value !in s.records
    requires at <= s.now
    ensures Core(w, cfg, s.(rows := CompleteRename(s.rows, n, row.replacing.value, row.node, at)))
  {
    hide Rules;
    var p := row.replacing.value;
    var s1 := s;
    RowFacts(w, cfg, s, n);
    if p in s.rows && s.rows[p].node == row.node && s.rows[p].Active() {
      if w.links {
        RenamedReplacesNothing(w, cfg, s, n, p);
      }
      RowFacts(w, cfg, s, p);
      var down := s.rows[p].(status := Released, releasedAt := Some(at));
      CoreDeactivates(w, cfg, s, p, down);
      s1 := s.(rows := s.rows[p := down]);
    }
    var up := s1.rows[n].(status := Matured, maturedAt := Some(at), replacing := None);
    CoreMatures(w, cfg, s1, n, up);
    assert CompleteRename(s.rows, n, p, row.node, at) == s1.rows[n := up];
  }

  /** The replacement's record is up: the previous record is next, or the rename completes at once. */
  lemma AfterReplacementUp(w: Promises, cfg: Config, s: State, n: Name, row: Row, address: Address, at: Time)
    requires Core(w, cfg, s) && s.lane == ReplacementUp(n, row, address, at)
    requires ReplacementOk(s, n, row) && n in s.records && at <= s.now
    ensures Inv(w, cfg, Continue(cfg, s, true).state)
  {
    hide Rules;
    var previous := row.replacing.value;
    var t := SetLastKnownAddress(s.rows, n, Some(address));
    var s1 := s.(rows := t);
    CoreAddresses(w, cfg, s, n, Some(address));
    if MaturedRow(s1, previous) && t[previous].node == row.node {
      RowFacts(w, cfg, s1, n);
      CoreAddresses(w, cfg, s1, previous, None);
    } else {
      CompleteRenameKeeps(w, cfg, s1, n, row, at);
    }
  }

  lemma AfterDeletion(w: Promises, cfg: Config, s: State, n: Name, status: Status, at: Time)
    requires Core(w, cfg, s) && n in s.rows && s.rows[n].Active() && n !in s.records && at <= s.now
    requires status.Abandoned? || (status.Released? && s.rows[n].status.Matured?)
    ensures Core(w, cfg, s.(rows := Deactivate(s.rows, n, status, at)))
  {
    hide Rules;
    RowFacts(w, cfg, s, n);
    CoreDeactivates(w, cfg, s, n, s.rows[n].(status := status, releasedAt := Some(at)));
  }

  /** The owners that write one statement and let go. */
  lemma LettingGoKeeps(w: Promises, cfg: Config, s: State)
    requires Inv(w, cfg, s) && (s.lane.Sweeping? || s.lane.Releasing? || s.lane.Publishing? || s.lane.Restoring?)
    ensures Inv(w, cfg, Continue(cfg, AfterCall(s, true), true).state)
  {
    AfterCallKeeps(w, cfg, s, true);
    hide Rules, FinishCancel, RevokeFrom, CompleteRename, Deactivate, SetLastKnownAddress;
    var a := AfterCall(s, true);
    match s.lane {
      case Sweeping(n, startedAt) => AfterDeletion(w, cfg, a, n, Abandoned, startedAt);
      case Publishing(n, address) => CoreAddresses(w, cfg, a, n, Some(address));
      case Restoring(n, address, _) => CoreAddresses(w, cfg, a, n, Some(address));
      case Releasing(n) =>
        RowFacts(w, cfg, a, n);
        AfterDeletion(w, cfg, a, n, Released, a.now);
    }
  }

  lemma RenamingKeeps(w: Promises, cfg: Config, s: State)
    requires Inv(w, cfg, s) && (s.lane.ReplacementUp? || s.lane.PreviousDown?)
    ensures Inv(w, cfg, Continue(cfg, AfterCall(s, true), true).state)
  {
    AfterCallKeeps(w, cfg, s, true);
    hide Rules, FinishCancel, RevokeFrom, CompleteRename, Deactivate, SetLastKnownAddress;
    var a := AfterCall(s, true);
    match s.lane {
      case ReplacementUp(n, row, address, at) => AfterReplacementUp(w, cfg, a, n, row, address, at);
      case PreviousDown(n, row, previous, at) => CompleteRenameKeeps(w, cfg, a, n, row, at);
    }
  }

  lemma CommittingKeeps(w: Promises, cfg: Config, s: State)
    requires Inv(w, cfg, s) && (s.lane.Cancelling? || s.lane.Revoking?)
    ensures LaneWellFormed(s)
    ensures Inv(w, cfg, Continue(cfg, AfterCall(s, true), true).state)
  {
    AfterCallKeeps(w, cfg, s, true);
    hide Rules, FinishCancel, RevokeFrom, CompleteRename, Deactivate, SetLastKnownAddress;
    var a := AfterCall(s, true);
    match s.lane {
      case Cancelling(n, previous, read, observed) =>
        FinishCancelKeeps(w, cfg, a.(lane := Idle), n, previous, read, observed);
      case Revoking(targets, next, reason) => RevokeFromKeeps(w, cfg, a, targets, next + 1, reason);
    }
  }

  lemma FailureKeeps(w: Promises, cfg: Config, s: State, applied: bool)
    requires Inv(w, cfg, s) && !s.lane.Idle?
    ensures LaneWellFormed(s)
    ensures Inv(w, cfg, Continue(cfg, AfterCall(s, applied), false).state)
  {
    AfterCallKeeps(w, cfg, s, applied);
    hide Rules, FinishCancel, RevokeFrom, CompleteRename, Deactivate, SetLastKnownAddress, Applied;
    if s.lane.Restoring? {
      CoreAddresses(w, cfg, AfterCall(s, applied), s.lane.name, None);
    }
  }

  lemma ContinueKeeps(w: Promises, cfg: Config, s: State, ok: bool, applied: bool)
    requires Inv(w, cfg, s) && !s.lane.Idle? && (ok ==> applied)
    ensures LaneWellFormed(s)
    ensures Inv(w, cfg, Continue(cfg, AfterCall(s, applied), ok).state)
  {
    FailureKeeps(w, cfg, s, applied);
    hide Inv, Continue, AfterCall;
    if ok {
      if s.lane.Cancelling? || s.lane.Revoking? {
        CommittingKeeps(w, cfg, s);
      } else if s.lane.ReplacementUp? || s.lane.PreviousDown? {
        RenamingKeeps(w, cfg, s);
      } else {
        LettingGoKeeps(w, cfg, s);
      }
    }
  }

  lemma TimePasses(w: Promises, cfg: Config, s: State, elapsed: nat)
    requires Inv(w, cfg, s)
    ensures Inv(w, cfg, s.(now := s.now + elapsed))
  {
    hide TableOk, NothingLeftBehind, LaneOk, Watched;
    LaneSurvives(cfg, s, s.(now := s.now + elapsed));
  }

  lemma RestartKeeps(w: Promises, cfg: Config, s: State, applied: bool, spent: bool)
    requires Inv(w, cfg, s) && (applied ==> !s.lane.Idle?) && LaneWellFormed(s)
    ensures Inv(w, cfg, Next(cfg, s, Restart(applied, spent)))
  {
    if applied {
      AfterCallKeeps(w, cfg, s, true);
    }
    hide Rules;
  }

  lemma WaitKeeps(w: Promises, cfg: Config, s: State, ticket: Ticket)
    requires Inv(w, cfg, s) && s.lane.Idle?
    ensures Inv(w, cfg, s.(waiting := s.waiting + [ticket]))
  {
    hide Rules;
  }

  lemma PurgeKeeps(w: Promises, cfg: Config, s: State, olderThan: Time)
    requires Inv(w, cfg, s) && s.lane.Idle?
    ensures Inv(w, cfg, s.(rows := DeleteExpired(s.rows, olderThan)))
  {
    hide Rules;
    CoreShrinks(w, cfg, s, DeleteExpired(s.rows, olderThan));
  }

  // ---- every action, every run ----

  lemma TurnKeeps(w: Promises, cfg: Config, s: State)
    requires Inv(w, cfg, s) && Enabled(cfg, s, RunWaiting) && Harmless(w, cfg, s, RunWaiting)
    ensures Inv(w, cfg, Next(cfg, s, RunWaiting))
  {
    hide Rules;
    var k := s.waiting[0];
    var s1 := s.(waiting := s.waiting[1..]);
    if k.name in s.rows && !s.rows[k.name].Active() && s.rows[k.name].credential == k.credential {
      assert TurnAccepted(s) ==> Room(w, cfg, s1, k.name);
      ReactivateKeeps(w, cfg, s1, k.name, k.dynamic, k.observed);
    }
  }

  /** Every action keeps the invariant, and every promise watched that a waiting reclaim's turn does not harm. */
  lemma StepKeeps(w: Promises, cfg: Config, s: State, a: Action)
    requires Inv(w, cfg, s) && Enabled(cfg, s, a) && Harmless(w, cfg, s, a)
    ensures Inv(w, cfg, Next(cfg, s, a))
  {
    hide Inv;
    match a {
      case Tick(elapsed) => TimePasses(w, cfg, s, elapsed);
      case Register(n, node, dynamic, presented, secret, observed) =>
        RegisterKeeps(w, cfg, s, n, node, dynamic, presented, secret, observed);
      case ReclaimRoute(n, credential, dynamic, observed) =>
        if Reclaimable(cfg, s, n, credential) {
          AdmitReclaimKeeps(w, cfg, s, Ticket(n, credential, dynamic, observed));
        }
      case Heartbeat(credential, observed) => HeartbeatKeeps(w, cfg, s, credential, observed);
      case Rename(credential, n, secret) => RenameKeeps(w, cfg, s, credential, n, secret);
      case CancelRename(credential, observed) => CancelRenameKeeps(w, cfg, s, credential, observed);
      case Release(credential) => ReleaseKeeps(w, cfg, s, credential);
      case Revoke(n, reason, expectedNode, expectedCreatedAt) =>
        RevokeKeeps(w, cfg, s, n, reason, expectedNode, expectedCreatedAt);
      case SweepVisit(n, startedAt) => SweepKeeps(w, cfg, s, n, startedAt);
      case Purge(startedAt) => PurgeKeeps(w, cfg, s, startedAt - cfg.cooldown);
      case Resume(ok, applied) => ContinueKeeps(w, cfg, s, ok, applied);
      case Restart(applied, spent) => RestartKeeps(w, cfg, s, applied, spent);
      case Wait(ticket) => WaitKeeps(w, cfg, s, ticket);
      case RunWaiting => TurnKeeps(w, cfg, s);
    }
  }

  lemma InitiallyHolds(w: Promises, cfg: Config)
    requires cfg.Valid()
    ensures Inv(w, cfg, Initial(cfg))
  {
    assert ActiveNames(Initial(cfg).rows) == {};
    if w.node.Some? {
      assert ActiveNamesOf(Initial(cfg).rows, w.node.value) == {};
    }
  }
}
