/** What the requests of the managed-DNS service answer, exactly when, and what they bring about once the provider has
    answered, told of the columns of the rows. */
module Answers {
  import opened Prelude
  import opened Registrations
  import opened RateLimit
  import opened DnsProvider
  import opened Protocol
  import opened TableRules
  import opened ProtocolInvariant

  /** The credential is that of the active row `n`. */
  predicate Proves(t: Table, c: Credential, n: Name) {
    n in t && t[n].credential == c && t[n].Active()
  }

  lemma LooksUp(t: Table, c: Credential, n: Name)
    requires CredentialsDistinct(t) && n in t && t[n].credential == c
    ensures ByCredential(t, c) == Some(n)
  {
  }

  /** The lane's owner awaits this call. */
  predicate Calls(s: State, call: Call) {
    !s.lane.Idle? && LaneWellFormed(s) && s.lane.Pending() == call
  }

  /** Some row of the node is active. */
  ghost predicate NodeActive(t: Table, node: Node) {
    exists m :: m in t && t[m].Active() && t[m].node == node
  }

  /** The cooldown of an inactive row is over. */
  predicate CooledDown(cfg: Config, row: Row, now: Time) {
    row.releasedAt.Some? && row.releasedAt.value + cfg.cooldown <= now
  }

  /** Where the contact window of a row starts once it is contacted now: where it did, unless the row was out of contact
      for longer than the abandonment period. */
  function WindowAfter(cfg: Config, row: Row, now: Time): Time {
    if row.contactStartedAt.Some? && row.lastContactAt.Some? && now <= row.lastContactAt.value + cfg.abandonment
    then row.contactStartedAt.value else now
  }

  lemma NodeIsFull(t: Table, node: Node)
    ensures NodeFull(t, node) <==> NodeActive(t, node)
  {
    if NodeActive(t, node) {
      var m :| m in t && t[m].Active() && t[m].node == node;
      assert m in ActiveNamesOf(t, node);
    }
    if NodeFull(t, node) {
      var m := Element(ActiveNamesOf(t, node));
    }
  }

  // ---- requests that are turned away at once ----

  /** While the lane is held nobody else gets into it. */
  lemma BusyLane(cfg: Config, s: State, a: Action)
    requires Enabled(cfg, s, a) && !s.lane.Idle?
    requires a.Heartbeat? || a.Rename? || a.CancelRename? || a.Release? || a.Revoke?
    ensures Step(cfg, s, a) == Outcome(s, Http(503))
  {
    hide RenameFresh, RetryRename, RevokeFrom, ReviveRefusal, PublishIfDue, RevocationTargets;
  }

  /** A credential that no active row has is refused. */
  lemma UnprovenCredential(cfg: Config, s: State, a: Action)
    requires Enabled(cfg, s, a) && s.lane.Idle? && (a.Heartbeat? || a.Rename? || a.Release?)
    requires forall n | n in s.rows :: !Proves(s.rows, a.credential, n)
    ensures Step(cfg, s, a) == Outcome(s, Http(401))
  {
    var found := ByCredential(s.rows, a.credential);
    assert found.Some? ==> !Proves(s.rows, a.credential, found.value);
    hide RenameFresh, RetryRename, PublishIfDue;
  }

  // ---- register ----

  /** What the bucket holds, saved or not, is less by a token if one was taken, and as before otherwise. */
  ghost predicate Priced(cfg: Config, s: State, s': State, taken: bool) {
    && Level(cfg.limits, s'.bucket, s.now) == Level(cfg.limits, s.bucket, s.now) - (if taken then 1.0 else 0.0)
    && s'.saved == if taken then Some(s'.bucket) else s.saved
  }

  lemma SpendIsPriced(cfg: Config, s: State)
    ensures Priced(cfg, s, s, false) && Priced(cfg, s, Spend(cfg, s), Allows(cfg.limits, s.bucket, s.now))
  {
  }

  /** A registration of a name that is free, or whose row is past its cooldown: refused when its node has an active
      row, when the table is full, or when the bucket has no token, in this order; otherwise a pending row is there, for
      one token. */
  lemma RegistrationAnswers(
    w: Promises, cfg: Config, s: State, n: Name, node: Node, dynamic: bool, presented: Option<Credential>,
    secret: Credential, observed: Option<Address>)
    requires Core(w, cfg, s) && cfg.Valid() && s.bucket.Valid(cfg.limits, s.now) && secret !in s.issued
    requires n in s.rows ==> !s.rows[n].Active() && CooledDown(cfg, s.rows[n], s.now)
    ensures var t := s.rows - {n};
            var o := Step(cfg, s, Register(n, node, dynamic, presented, secret, observed));
            && o.state.lane == s.lane && o.state.records == s.records && Priced(cfg, s, o.state, o.reply == Http(201))
            && (o.reply == Http(403) || o.reply == Http(503) || o.reply == Http(429) || o.reply == Http(201))
            && (o.reply == Http(403) <==> NodeActive(t, node))
            && (o.reply == Http(503) <==> !NodeActive(t, node) && |ActiveNames(t)| >= cfg.cumulativeCap)
            && (o.reply == Http(201) <==>
                  && !NodeActive(t, node) && |ActiveNames(t)| < cfg.cumulativeCap && cfg.limits.capacity >= 1.0
                  && s.bucket.tokens + (s.now - s.bucket.lastRefill) as real * cfg.limits.rate >= 1.0)
            && o.state.rows == if o.reply == Http(201)
                               then t[n := Row(secret, node, Pending, dynamic, s.now, None, None, None, None, None,
                                               None, None)]
                               else t
  {
    var t := s.rows - {n};
    AllowsExactly(cfg.limits, s.bucket, s.now);
    SecretIsNew(w, cfg, s, secret);
    NodeIsFull(t, node);
    assert n !in s.rows ==> t == s.rows;
    hide Rules, Allows, ActiveNames, NodeFull, NodeActive, RegisterFresh, Refill;
    FreshRegistrationAnswers(cfg, s.(rows := t), n, node, dynamic, secret);
  }

  lemma FreshRegistrationAnswers(cfg: Config, s: State, n: Name, node: Node, dynamic: bool, secret: Credential)
    requires n !in s.rows && forall m | m in s.rows :: s.rows[m].credential != secret
    ensures var o := RegisterFresh(cfg, s, n, node, dynamic, secret);
            && o.state.lane == s.lane && o.state.records == s.records && Priced(cfg, s, o.state, o.reply == Http(201))
            && o.reply == Http(if NodeFull(s.rows, node) then 403
                               else if |ActiveNames(s.rows)| >= cfg.cumulativeCap then 503
                               else if !Allows(cfg.limits, s.bucket, s.now) then 429 else 201)
            && o.state.rows == if o.reply == Http(201)
                               then s.rows[n := Row(secret, node, Pending, dynamic, s.now, None, None, None, None, None,
                                                    None, None)]
                               else s.rows
  {
    SpendIsPriced(cfg, s);
    hide Refill, ActiveNames, NodeFull;
  }

  /** A name that is taken, or cooling down with no proof of who had it, or revoked, is refused. */
  lemma RegistrationRefused(
    cfg: Config, s: State, n: Name, node: Node, dynamic: bool, presented: Option<Credential>, secret: Credential,
    observed: Option<Address>)
    requires n in s.rows && (s.rows[n].Active() || !CooledDown(cfg, s.rows[n], s.now))
    requires s.rows[n].Active() || s.rows[n].status.Revoked? || presented != Some(s.rows[n].credential)
    ensures RegisterStep(cfg, s, n, node, dynamic, presented, secret, observed) == Outcome(s, Http(409))
  {
    hide RegisterFresh, AdmitReclaim;
  }

  // ---- reclaim ----

  /** The reclaim route refuses what `/register` must decide, and answers the retry of a reclaim that succeeded. */
  lemma ReclaimRefused(
    cfg: Config, s: State, n: Name, c: Credential, dynamic: bool, observed: Option<Address>)
    requires n in s.rows && s.rows[n].credential == c ==>
               !s.rows[n].status.Abandoned? || CooledDown(cfg, s.rows[n], s.now)
    ensures Step(cfg, s, ReclaimRoute(n, c, dynamic, observed))
         == Outcome(s, Http(if Proves(s.rows, c, n) then 201 else 409))
  {
    hide AdmitReclaim;
  }

  /** A request that reclaims the inactive row `n`, inside its cooldown and with its credential. */
  predicate Reclaims(cfg: Config, s: State, a: Action, n: Name, dynamic: bool, observed: Option<Address>) {
    && n in s.rows && !s.rows[n].Active() && !s.rows[n].status.Revoked? && !CooledDown(cfg, s.rows[n], s.now)
    && (|| (a.Register? && a == Register(n, a.node, dynamic, Some(s.rows[n].credential), a.secret, observed))
        || (a == ReclaimRoute(n, s.rows[n].credential, dynamic, observed) && s.rows[n].status.Abandoned?))
  }

  /** The row comes back: live if it ever was, `dynamic` as asked, with its window restarted if it was abandoned or
      out of contact for too long. */
  function Returned(cfg: Config, row: Row, dynamic: bool, now: Time): Row {
    row.(status := if row.maturedAt.Some? then Matured else Pending, releasedAt := None, dynamic := dynamic,
         lastContactAt := Some(now),
         contactStartedAt :=
           if row.status.Abandoned? || row.lastContactAt.None? || now > row.lastContactAt.value + cfg.abandonment
           then Some(now) else row.contactStartedAt)
  }

  /** Another pending row stands for the same rename. */
  ghost predicate ClaimTaken(t: Table, n: Name)
    requires n in t
  {
    && t[n].maturedAt.None? && t[n].replacing.Some?
    && exists m :: m in t && m != n && t[m].status.Pending? && t[m].replacing == t[n].replacing
  }

  /** Such a request is refused when its node has an active row, when the table is full, when the lane is held, or by
      the index; otherwise the row returns, and a live one is published at the observed address. */
  lemma ReclaimAnswers(cfg: Config, s: State, a: Action, n: Name, dynamic: bool, observed: Option<Address>)
    requires Enabled(cfg, s, a) && Reclaims(cfg, s, a, n, dynamic, observed)
    ensures var o := Step(cfg, s, a);
            var row := s.rows[n];
            if NodeActive(s.rows, row.node) then o == Outcome(s, Http(403))
            else if |ActiveNames(s.rows)| >= cfg.cumulativeCap || !s.lane.Idle? then o == Outcome(s, Http(503))
            else if ClaimTaken(s.rows, n) then o == Outcome(s, Http(500))
            else Answered(cfg, s, o, n, dynamic, observed)
  {
    NodeIsFull(s.rows, s.rows[n].node);
    AdmissionAnswers(cfg, s, Ticket(n, s.rows[n].credential, dynamic, observed));
    hide AdmitReclaim, RegisterFresh, NodeFull, NodeActive, ActiveNames, ClaimTaken;
  }

  /** The row is back: a live one is about to be published if an address was observed, and otherwise the next heartbeat
      publishes it. */
  predicate Answered(cfg: Config, s: State, o: Outcome, n: Name, dynamic: bool, observed: Option<Address>)
    requires n in s.rows
  {
    var row := s.rows[n];
    var back := Returned(cfg, row, dynamic, s.now);
    && o.state.records == s.records
    && (if row.maturedAt.Some? && observed.Some?
        then o.reply.Awaiting? && Calls(o.state, Upsert(n, observed.value)) && o.state.rows == s.rows[n := back]
        else o.reply == Http(201) && o.state.lane.Idle?
             && o.state.rows == s.rows[n := if row.maturedAt.Some? then back.(lastKnownAddress := None) else back])
  }

  lemma AdmissionAnswers(cfg: Config, s: State, k: Ticket)
    requires k.name in s.rows && !s.rows[k.name].Active() && s.rows[k.name].credential == k.credential
    ensures var o := AdmitReclaim(cfg, s, k);
            if NodeFull(s.rows, s.rows[k.name].node) then o == Outcome(s, Http(403))
            else if |ActiveNames(s.rows)| >= cfg.cumulativeCap || !s.lane.Idle? then o == Outcome(s, Http(503))
            else if ClaimTaken(s.rows, k.name) then o == Outcome(s, Http(500))
            else Answered(cfg, s, o, k.name, k.dynamic, k.observed)
  {
    hide NodeFull, ActiveNames;
  }

  /** A reclaim that waited looks once more whether the row is inactive and has its credential, and at nothing else. */
  lemma TurnAnswers(cfg: Config, s: State)
    requires s.lane.Idle? && s.waiting != []
    ensures var k, o := s.waiting[0], Step(cfg, s, RunWaiting);
            && o.state.waiting == s.waiting[1..]
            && (if k.name !in s.rows || s.rows[k.name].Active() || s.rows[k.name].credential != k.credential
                then o == Outcome(s.(waiting := s.waiting[1..]), Http(409))
                else if ClaimTaken(s.rows, k.name) then o == Outcome(s.(waiting := s.waiting[1..]), Http(500))
                else Answered(cfg, s, o, k.name, k.dynamic, k.observed))
  {
  }

  /** The end of a publication: the record is up and known to be. If the provider fails, a heartbeat leaves the row as
      it is, and a reclaim or a cancellation forgets the address. */
  lemma PublicationAnswers(cfg: Config, s: State)
    requires s.lane.Publishing? || s.lane.Restoring?
    ensures var n, a := s.lane.name, s.lane.address;
            var reply := Http(if s.lane.Publishing? then 200 else s.lane.code);
            && Step(cfg, s, Resume(true, true))
               == Outcome(s.(lane := Idle, records := s.records[n := a], rows := WithAddress(s.rows, n, Some(a))), reply)
            && Step(cfg, s, Resume(false, false))
               == Outcome(s.(lane := Idle, rows := if s.lane.Publishing? then s.rows else WithAddress(s.rows, n, None)),
                          reply)
  {
  }

  function WithAddress(t: Table, n: Name, a: Option<Address>): Table {
    if n in t then t[n := t[n].(lastKnownAddress := a)] else t
  }

  /** A live row that is reclaimed is published again, at the observed address, once the provider has answered; if
      the provider fails, the address is forgotten, so that the next heartbeat publishes it. */
  lemma ReclaimRestores(cfg: Config, s: State, a: Action, n: Name, dynamic: bool, address: Address)
    requires Enabled(cfg, s, a) && Reclaims(cfg, s, a, n, dynamic, Some(address)) && s.rows[n].maturedAt.Some?
    requires s.lane.Idle? && !NodeActive(s.rows, s.rows[n].node) && |ActiveNames(s.rows)| < cfg.cumulativeCap
    ensures var s1 := Next(cfg, s, a);
            var back := Returned(cfg, s.rows[n], dynamic, s.now);
            && Calls(s1, Upsert(n, address))
            && (var o := Step(cfg, s1, Resume(true, true));
                && o.reply == Http(201) && o.state.lane.Idle? && o.state.records == s.records[n := address]
                && o.state.rows == s.rows[n := back.(lastKnownAddress := Some(address))])
            && (var o := Step(cfg, s1, Resume(false, false));
                && o.reply == Http(201) && o.state.lane.Idle? && o.state.records == s.records
                && o.state.rows == s.rows[n := back.(lastKnownAddress := None)])
  {
    ReclaimAnswers(cfg, s, a, n, dynamic, Some(address));
    hide NodeActive, ActiveNames;
    ReclaimLane(cfg, s, a, n, dynamic, address);
    PublicationAnswers(cfg, Next(cfg, s, a));
    hide Step;
  }

  lemma ReclaimLane(cfg: Config, s: State, a: Action, n: Name, dynamic: bool, address: Address)
    requires Enabled(cfg, s, a) && Reclaims(cfg, s, a, n, dynamic, Some(address)) && s.rows[n].maturedAt.Some?
    requires Calls(Next(cfg, s, a), Upsert(n, address)) && s.lane.Idle?
    ensures Next(cfg, s, a).lane == Restoring(n, address, 201)
  {
    hide NodeFull, AtCap, CanReclaim, RegisterFresh;
  }

  // ---- heartbeat ----

  /** The row has been in contact long enough, now included. */
  predicate Ripe(cfg: Config, row: Row, now: Time) {
    row.status.Pending? && now - WindowAfter(cfg, row, now) >= cfg.minAge
  }

  /** The row after a heartbeat: contacted, and live if it replaces no other and has become ripe. */
  function Beaten(cfg: Config, row: Row, now: Time): Row {
    var live := Ripe(cfg, row, now) && row.replacing.None?;
    row.(lastContactAt := Some(now), contactStartedAt := Some(WindowAfter(cfg, row, now)),
         status := if live then Matured else row.status, maturedAt := if live then Some(now) else row.maturedAt)
  }

  /** Whether a heartbeat from `a` goes to the provider: a ripe replacement does; any other row if it is live afterwards
      and the address is new, and it has only just become live, or has no known address, or is dynamic. */
  predicate GoesOut(cfg: Config, row: Row, a: Address, now: Time) {
    if row.status.Pending? && row.replacing.Some? then Ripe(cfg, row, now)
    else
      && (row.status.Matured? || Ripe(cfg, row, now))
      && row.lastKnownAddress != Some(a)
      && (row.status.Pending? || row.lastKnownAddress.None? || row.dynamic)
  }

  /** A heartbeat of an active row, with the lane free: it records the contact, matures the row exactly when it is
      ripe, and goes to the provider exactly when `GoesOut` says; otherwise it is answered at once. */
  lemma HeartbeatAnswers(cfg: Config, s: State, c: Credential, observed: Option<Address>, n: Name)
    requires CredentialsDistinct(s.rows) && s.lane.Idle? && Proves(s.rows, c, n)
    ensures var o := Step(cfg, s, Heartbeat(c, observed));
            && o.state == s.(rows := s.rows[n := Beaten(cfg, s.rows[n], s.now)], contacts := o.state.contacts,
                             lane := o.state.lane)
            && (forall a :: Calls(o.state, Upsert(n, a)) <==> observed == Some(a) && GoesOut(cfg, s.rows[n], a, s.now))
            && (if observed.Some? && GoesOut(cfg, s.rows[n], observed.value, s.now)
                then o.reply.Awaiting? else o.reply == Http(200) && o.state.lane.Idle?)
  {
    LooksUp(s.rows, c, n);
    HeartbeatRows(cfg, s, c, observed, n);
  }

  /** A row that replaces no other and goes out is published at the observed address, and is known to be, once the
      provider has answered; nobody else's record changes. If the provider fails, nothing more has changed. */
  lemma HeartbeatPublishes(cfg: Config, s: State, c: Credential, a: Address, n: Name)
    requires CredentialsDistinct(s.rows) && s.lane.Idle? && Proves(s.rows, c, n)
    requires GoesOut(cfg, s.rows[n], a, s.now) && (s.rows[n].status.Matured? || s.rows[n].replacing.None?)
    ensures var s1 := Next(cfg, s, Heartbeat(c, Some(a)));
            && Calls(s1, Upsert(n, a))
            && (var o := Step(cfg, s1, Resume(true, true));
                && o.reply == Http(200) && o.state.lane.Idle?
                && o.state.records == s.records[n := a]
                && o.state.rows == s.rows[n := Beaten(cfg, s.rows[n], s.now).(lastKnownAddress := Some(a))]
                && o.state.rows[n].status.Matured?)
            && (var o := Step(cfg, s1, Resume(false, false));
                && o.reply == Http(200) && o.state.lane.Idle? && o.state.records == s.records
                && o.state.rows == s.rows[n := Beaten(cfg, s.rows[n], s.now)])
  {
    HeartbeatAnswers(cfg, s, c, Some(a), n);
    PublishingLane(cfg, s, c, a, n);
    PublicationAnswers(cfg, Next(cfg, s, Heartbeat(c, Some(a))));
    hide Step, WindowAfter;
  }

  lemma PublishingLane(cfg: Config, s: State, c: Credential, a: Address, n: Name)
    requires CredentialsDistinct(s.rows) && s.lane.Idle? && Proves(s.rows, c, n)
    requires GoesOut(cfg, s.rows[n], a, s.now) && (s.rows[n].status.Matured? || s.rows[n].replacing.None?)
    ensures Next(cfg, s, Heartbeat(c, Some(a))).lane == Publishing(n, a)
  {
    LooksUp(s.rows, c, n);
    hide ByCredential;
  }

  /** The table after a rename of `previous` to `n` by the node: the one row live, the other released, each if it still
      is what it was. */
  function HandedOver(t: Table, n: Name, previous: Name, node: Node, at: Time): Table {
    map m | m in t ::
      if m == n && t[m].node == node && t[m].status.Pending? && t[m].replacing == Some(previous)
      then t[m].(status := Matured, maturedAt := Some(at), replacing := None)
      else if m == previous && t[m].node == node && t[m].Active() then t[m].(status := Released, releasedAt := Some(at))
      else t[m]
  }

  /** The two calls of a take-over, whatever ran meanwhile. When the replacement's record is up, the old one is next if
      the old row is live and of the same node, and otherwise the rename is over; when the old one is down, it is
      over. A call that fails changes nothing more, and the next heartbeat tries again. */
  lemma TakeOverAnswers(cfg: Config, s: State)
    requires s.lane.ReplacementUp? || s.lane.PreviousDown?
    requires s.lane.row.replacing.Some? && s.lane.name != s.lane.row.replacing.value
    requires s.lane.PreviousDown? ==> s.lane.row.replacing == Some(s.lane.previous)
    ensures var n, previous, node, at := s.lane.name, s.lane.row.replacing.value, s.lane.row.node, s.lane.at;
            var o := Step(cfg, s, Resume(true, true));
            && Step(cfg, s, Resume(false, false)) == Outcome(s.(lane := Idle), Http(200))
            && (if s.lane.PreviousDown?
                then o == Outcome(s.(lane := Idle, rows := HandedOver(s.rows, n, previous, node, at),
                                     records := s.records - {previous}), Http(200))
                else
                  var t := WithAddress(s.rows, n, Some(s.lane.address));
                  && o.state.records == s.records[n := s.lane.address]
                  && (if previous in t && t[previous].status.Matured? && t[previous].node == node
                      then && o.reply.Awaiting? && Calls(o.state, Delete(previous)) && o.state.lane.PreviousDown?
                           && o.state.rows == t[previous := t[previous].(lastKnownAddress := None)]
                      else && o.reply == Http(200) && o.state.lane.Idle?
                           && o.state.rows == HandedOver(t, n, previous, node, at)))
  {
    var n, previous, node, at := s.lane.name, s.lane.row.replacing.value, s.lane.row.node, s.lane.at;
    HandsOver(s.rows, n, previous, node, at);
    if s.lane.ReplacementUp? {
      HandsOver(SetLastKnownAddress(s.rows, n, Some(s.lane.address)), n, previous, node, at);
    }
    hide CompleteRename, HandedOver, FinishCancel, RevokeFrom;
  }

  lemma HandsOver(t: Table, n: Name, previous: Name, node: Node, at: Time)
    requires n != previous
    ensures CompleteRename(t, n, previous, node, at) == HandedOver(t, n, previous, node, at)
  {
  }

  /** A ripe replacement that beats takes over, once the provider has answered: it is published before the old record
      goes, and then the one row is live and the other released, at the time of the heartbeat. */
  lemma HeartbeatTakesOver(cfg: Config, s: State, c: Credential, a: Address, n: Name, previous: Name)
    requires CredentialsDistinct(s.rows) && s.lane.Idle? && Proves(s.rows, c, n) && n != previous
    requires Ripe(cfg, s.rows[n], s.now) && s.rows[n].replacing == Some(previous)
    requires previous in s.rows && s.rows[previous].status.Matured? && s.rows[previous].node == s.rows[n].node
    ensures var s1 := Next(cfg, s, Heartbeat(c, Some(a)));
            && Calls(s1, Upsert(n, a))
            && var s2 := Next(cfg, s1, Resume(true, true));
            && s2.records == s.records[n := a] && Calls(s2, Delete(previous))
            && s2.rows[previous].status.Matured? && s2.rows[previous].lastKnownAddress.None?
            && var o := Step(cfg, s2, Resume(true, true));
            && o.reply == Http(200) && o.state.lane.Idle? && o.state.records == s.records[n := a] - {previous}
            && o.state.rows == s.rows[n := Beaten(cfg, s.rows[n], s.now).(status := Matured, maturedAt := Some(s.now),
                                                                            replacing := None,
                                                                            lastKnownAddress := Some(a))]
                                     [previous := s.rows[previous].(status := Released, releasedAt := Some(s.now),
                                                                    lastKnownAddress := None)]
  {
    FirstCall(cfg, s, c, a, n, previous);
    KeepsRipe(cfg, s.rows[n], s.now);
    TableTakenOver(s.rows, n, previous, Beaten(cfg, s.rows[n], s.now), a, s.now);
    hide Step, HandedOver, Beaten, Ripe, Proves, CredentialsDistinct;
    BothCalls(cfg, Next(cfg, s, Heartbeat(c, Some(a))), n, previous);
  }

  lemma BothCalls(cfg: Config, s: State, n: Name, previous: Name)
    requires s.lane.ReplacementUp? && s.lane.name == n && s.lane.row.replacing == Some(previous) && n != previous
    requires n in s.rows && previous in s.rows && s.rows[previous].status.Matured?
    requires s.rows[previous].node == s.lane.row.node
    ensures var s2 := Next(cfg, s, Resume(true, true));
            && Calls(s2, Delete(previous)) && s2.records == s.records[n := s.lane.address]
            && (var up := s.rows[n := s.rows[n].(lastKnownAddress := Some(s.lane.address))];
                s2.rows == up[previous := up[previous].(lastKnownAddress := None)])
            && Step(cfg, s2, Resume(true, true))
               == Outcome(s2.(lane := Idle, records := s2.records - {previous},
                              rows := HandedOver(s2.rows, n, previous, s.lane.row.node, s.lane.at)), Http(200))
  {
    TakeOverAnswers(cfg, s);
    TakeOverLane(cfg, s);
    hide Step, HandedOver;
    TakeOverAnswers(cfg, Next(cfg, s, Resume(true, true)));
  }

  lemma KeepsRipe(cfg: Config, row: Row, now: Time)
    requires Ripe(cfg, row, now) && row.replacing.Some?
    ensures var b := Beaten(cfg, row, now); b.status.Pending? && b.replacing == row.replacing && b.node == row.node
  {
  }

  /** The table after both calls. */
  lemma TableTakenOver(t: Table, n: Name, previous: Name, row: Row, a: Address, at: Time)
    requires previous in t && t[previous].status.Matured? && n != previous
    requires row.status.Pending? && row.replacing == Some(previous) && t[previous].node == row.node
    ensures var t1 := t[n := row];
            var up := t1[n := t1[n].(lastKnownAddress := Some(a))];
            HandedOver(up[previous := up[previous].(lastKnownAddress := None)], n, previous, row.node, at)
            == t[n := row.(status := Matured, maturedAt := Some(at), replacing := None, lastKnownAddress := Some(a))]
                [previous := t[previous].(status := Released, releasedAt := Some(at), lastKnownAddress := None)]
  {
  }

  lemma FirstCall(cfg: Config, s: State, c: Credential, a: Address, n: Name, previous: Name)
    requires CredentialsDistinct(s.rows) && s.lane.Idle? && Proves(s.rows, c, n)
    requires Ripe(cfg, s.rows[n], s.now) && s.rows[n].replacing == Some(previous)
    ensures var s1 := Next(cfg, s, Heartbeat(c, Some(a)));
            && Calls(s1, Upsert(n, a)) && s1.lane == ReplacementUp(n, s.rows[n], a, s.now)
            && s1.records == s.records && s1.now == s.now && s1.rows == s.rows[n := Beaten(cfg, s.rows[n], s.now)]
  {
    HeartbeatAnswers(cfg, s, c, Some(a), n);
    ReplacementLane(cfg, s, c, a, n);
    hide HeartbeatStep, Beaten;
  }

  /** When there is no live row of the same node to take over from, the replacement is live at once. */
  lemma HeartbeatTakesOverNothing(cfg: Config, s: State, c: Credential, a: Address, n: Name, previous: Name)
    requires CredentialsDistinct(s.rows) && s.lane.Idle? && Proves(s.rows, c, n) && n != previous
    requires Ripe(cfg, s.rows[n], s.now) && s.rows[n].replacing == Some(previous)
    requires previous in s.rows && s.rows[previous].status.Matured? ==> s.rows[previous].node != s.rows[n].node
    ensures var s1 := Next(cfg, s, Heartbeat(c, Some(a)));
            && Calls(s1, Upsert(n, a))
            && var o := Step(cfg, s1, Resume(true, true));
            && o.reply == Http(200) && o.state.lane.Idle? && o.state.records == s.records[n := a]
            && var t := s.rows[n := Beaten(cfg, s.rows[n], s.now).(status := Matured, maturedAt := Some(s.now),
                                                                   replacing := None, lastKnownAddress := Some(a))];
            o.state.rows == if previous in t && t[previous].Active() && t[previous].node == s.rows[n].node
                            then t[previous := t[previous].(status := Released, releasedAt := Some(s.now))] else t
  {
    FirstCall(cfg, s, c, a, n, previous);
    hide Step, HandedOver;
    var s1 := Next(cfg, s, Heartbeat(c, Some(a)));
    TakeOverAnswers(cfg, s1);
    HandedOverRows(s1.rows[n := s1.rows[n].(lastKnownAddress := Some(a))], n, previous, s.rows[n].node, s.now);
  }

  lemma ReplacementLane(cfg: Config, s: State, c: Credential, a: Address, n: Name)
    requires CredentialsDistinct(s.rows) && s.lane.Idle? && Proves(s.rows, c, n)
    requires Ripe(cfg, s.rows[n], s.now) && s.rows[n].replacing.Some?
    ensures Next(cfg, s, Heartbeat(c, Some(a))).lane == ReplacementUp(n, s.rows[n], a, s.now)
  {
    LooksUp(s.rows, c, n);
    hide ByCredential, PublishIfDue;
  }

  lemma TakeOverLane(cfg: Config, s: State)
    requires s.lane.ReplacementUp?
    ensures var s1 := Next(cfg, s, Resume(true, true));
            s1.lane.PreviousDown? ==>
              && s1.lane.name == s.lane.name && s1.lane.row == s.lane.row && s1.lane.at == s.lane.at
              && s.lane.row.replacing == Some(s1.lane.previous)
  {
    hide CompleteRename, FinishCancel, RevokeFrom;
  }

  lemma HandedOverRows(t: Table, n: Name, previous: Name, node: Node, at: Time)
    requires n in t && n != previous && t[n].node == node && t[n].status.Pending? && t[n].replacing == Some(previous)
    ensures var t1 := t[n := t[n].(status := Matured, maturedAt := Some(at), replacing := None)];
            HandedOver(t, n, previous, node, at)
            == if previous in t && t[previous].node == node && t[previous].Active()
               then t1[previous := t[previous].(status := Released, releasedAt := Some(at))] else t1
  {
  }

  // ---- release ----

  /** A release with the lane free: refused while a rename of the name is under way, on either side; a row that was
      live first loses its record. */
  lemma ReleaseAnswers(cfg: Config, s: State, c: Credential, n: Name)
    requires CredentialsDistinct(s.rows) && s.lane.Idle? && Proves(s.rows, c, n)
    ensures var o := Step(cfg, s, Release(c));
            var row := s.rows[n];
            if row.replacing.Some? || exists m :: m in s.rows && s.rows[m].Claims() && s.rows[m].replacing == Some(n)
            then o == Outcome(s, Http(409))
            else if row.status.Matured?
            then o.reply.Awaiting? && Calls(o.state, Delete(n)) && o.state == s.(lane := o.state.lane)
            else && o.reply == Http(200)
                 && o.state == s.(rows := s.rows[n := row.(status := Released, releasedAt := Some(s.now))])
  {
    LooksUp(s.rows, c, n);
  }

  /** A live row that is released is gone from the provider before it is released; if the deletion fails, it stays. */
  lemma ReleaseTakesDown(cfg: Config, s: State, c: Credential, n: Name)
    requires CredentialsDistinct(s.rows) && s.lane.Idle? && Proves(s.rows, c, n) && s.rows[n].status.Matured?
    requires Calls(Next(cfg, s, Release(c)), Delete(n))
    ensures var s1 := Next(cfg, s, Release(c));
            && Step(cfg, s1, Resume(true, true))
               == Outcome(s.(rows := s.rows[n := s.rows[n].(status := Released, releasedAt := Some(s.now))],
                             records := s.records - {n}), Http(200))
            && Step(cfg, s1, Resume(false, false)) == Outcome(s, Http(503))
  {
    LooksUp(s.rows, c, n);
  }

  // ---- sweep ----

  /** The sweep takes a row exactly when it is active and its latest contact, or its creation if there was none, lies
      before the pass by more than the abandonment period. One that may have a record loses it first. */
  lemma SweepAnswers(cfg: Config, s: State, n: Name, startedAt: Time)
    requires s.lane.Idle? && startedAt <= s.now
    ensures var s1 := Next(cfg, s, SweepVisit(n, startedAt));
            if && n in s.rows && s.rows[n].Active()
               && (if s.rows[n].lastContactAt.Some? then s.rows[n].lastContactAt.value else s.rows[n].createdAt)
                  + cfg.abandonment < startedAt
            then
              var row := s.rows[n];
              var gone := s.rows[n := row.(status := Abandoned, releasedAt := Some(startedAt))];
              if row.status.Matured? || row.replacing.Some? || row.lastKnownAddress.Some?
              then && Calls(s1, Delete(n)) && s1 == s.(lane := s1.lane)
                   && Next(cfg, s1, Resume(true, true)) == s.(rows := gone, records := s.records - {n})
                   && Next(cfg, s1, Resume(false, false)) == s
              else s1 == s.(rows := gone)
            else s1 == s
  {
  }

  /** A pass ends by deleting exactly the inactive rows whose cooldown was over when it began. */
  lemma PurgeAnswers(cfg: Config, s: State, startedAt: Time)
    requires s.lane.Idle? && startedAt <= s.now
    ensures var s1 := Next(cfg, s, Purge(startedAt));
            && s1 == s.(rows := s1.rows)
            && (forall n :: n in s1.rows <==>
                  n in s.rows && (s.rows[n].Active() || s.rows[n].releasedAt.None?
                                  || startedAt <= s.rows[n].releasedAt.value + cfg.cooldown))
            && (forall n | n in s1.rows :: s1.rows[n] == s.rows[n])
  {
  }
}
