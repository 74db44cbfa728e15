/** The managed-DNS service as a state machine (services/managed_dns/server.py).

    A handler is cut at its awaits on the DNS provider: one action runs a request up to its first
    provider call, and `Resume` delivers that call's outcome and runs on to the next call or the end.
    Between the two, any action that does not take the transition lane may happen. The lane is
    `Idle` when the lock is free, and otherwise says who holds it, with the locals captured so far.
    Requests arrive validated. A call that fails may or may not have taken effect. */
module Protocol {
  import opened Prelude
  import opened Registrations
  import opened RateLimit
  import opened DnsProvider
  import opened TableRules

  datatype Config = Config(
    minAge: Time, cooldown: Time, abandonment: Time, cumulativeCap: int, limits: Limits)
  {
    predicate Valid() {
      cooldown >= 0 && abandonment >= 0 && cumulativeCap >= 0 && limits.Valid()
    }
  }

  const MAX_REGISTRATIONS_PER_NODE := 1

  /** A request that has passed the checks of a reclaim and waits for the lane. */
  datatype Ticket = Ticket(name: Name, credential: Credential, dynamic: bool, observed: Option<Address>)

  datatype Target = Target(name: Name, row: Row) {
    /** Only such a row can still have a published record. */
    predicate Publishable() {
      row.status.Matured? || (row.status.Pending? && row.lastKnownAddress.Some?)
    }
  }

  /** Who holds the transition lane, awaiting the provider. */
  datatype Flight =
    | Idle
    | Sweeping(name: Name, startedAt: Time)
    | Publishing(name: Name, address: Address)
    | Restoring(name: Name, address: Address, code: int)
    | ReplacementUp(name: Name, row: Row, address: Address, at: Time)
    | PreviousDown(name: Name, row: Row, previous: Name, at: Time)
    | Cancelling(name: Name, previous: Name, previousRow: Row, observed: Option<Address>)
    | Releasing(name: Name)
    | Revoking(targets: seq<Target>, next: nat, reason: string)
  {
    /** The provider call being awaited. */
    function Pending(): Call
      requires !Idle?
      requires Revoking? ==> next < |targets|
    {
      match this
      case Sweeping(n, _) => Delete(n)
      case Publishing(n, a) => Upsert(n, a)
      case Restoring(n, a, _) => Upsert(n, a)
      case ReplacementUp(n, _, a, _) => Upsert(n, a)
      case PreviousDown(_, _, p, _) => Delete(p)
      case Cancelling(n, _, _, _) => Delete(n)
      case Releasing(n) => Delete(n)
      case Revoking(targets, next, _) => Delete(targets[next].name)
    }
  }

  /** One authenticated contact recorded for a row, and the node that made it. */
  datatype Contact = Contact(node: Node, at: Time)

  /** `contacts` and `admitted` are an audit trail: the contacts of each row since it was inserted,
      and how many rows were ever inserted. The service does not keep them. */
  datatype State = State(
    rows: Table,
    records: Records,
    lane: Flight,
    now: Time,
    bucket: Bucket,
    saved: Option<Bucket>,
    issued: set<Credential>,
    waiting: seq<Ticket>,
    contacts: map<Name, seq<Contact>>,
    admitted: nat)

  datatype Reply = Silent | Awaiting | Http(code: int)

  datatype Outcome = Outcome(state: State, reply: Reply)

  datatype Action =
    | Tick(elapsed: nat)
    | Register(name: Name, node: Node, dynamic: bool, presented: Option<Credential>, secret: Credential,
               observed: Option<Address>)
    | ReclaimRoute(name: Name, credential: Credential, dynamic: bool, observed: Option<Address>)
    | Heartbeat(credential: Credential, observed: Option<Address>)
    | Rename(credential: Credential, name: Name, secret: Credential)
    | CancelRename(credential: Credential, observed: Option<Address>)
    | Release(credential: Credential)
    | Revoke(name: Name, reason: string, expectedNode: Option<Node>, expectedCreatedAt: Option<Time>)
    | SweepVisit(name: Name, startedAt: Time)
    | Purge(startedAt: Time)
    | Resume(ok: bool, applied: bool)
    | Restart(applied: bool, spent: bool)
    | Wait(ticket: Ticket)
    | RunWaiting

  function Initial(cfg: Config): State {
    State(map[], map[], Idle, 0, Bucket(cfg.limits.capacity, 0), None, {}, [], map[], 0)
  }

  // ---- small steps shared by the handlers ----

  /** No handler touches the clock, the queue for the lane or, except through the provider, the records;
      none takes back a credential. */
  ghost predicate Undisturbed(s: State, s': State) {
    s'.now == s.now && s'.waiting == s.waiting && s'.records == s.records && s.issued <= s'.issued
  }

  ghost predicate Unspent(s: State, s': State) {
    s'.bucket == s.bucket && s'.saved == s.saved && s'.admitted == s.admitted
  }

  /** The bucket was asked for a token, and a row was inserted only if it gave one. */
  ghost predicate Spent(cfg: Config, s: State, s': State) {
    && s'.bucket == Spend(cfg, s).bucket && s'.saved == Spend(cfg, s).saved
    && s'.admitted <= s.admitted + if Allows(cfg.limits, s.bucket, s.now) then 1 else 0
  }

  function Answer(s: State, code: int): Outcome {
    Outcome(s, Http(code))
  }

  /** Go to the provider with the lane held. */
  function Await(s: State, lane: Flight): Outcome {
    Outcome(s.(lane := lane), Awaiting)
  }

  function Log(contacts: map<Name, seq<Contact>>, n: Name, c: Contact): map<Name, seq<Contact>> {
    contacts[n := (if n in contacts then contacts[n] else []) + [c]]
  }

  /** Preserve an uninterrupted contact window, or restart a stale one. */
  function ContactStart(cfg: Config, row: Row, now: Time): Time {
    if row.contactStartedAt.None? || row.lastContactAt.None? || now - row.lastContactAt.value > cfg.abandonment
    then now else row.contactStartedAt.value
  }

  /** Record contact by `node` for `n`, whose window is judged by the row as it was read. */
  function Contacted(cfg: Config, s: State, n: Name, read: Row, node: Node): State {
    s.(rows := SetContactWindow(s.rows, n, s.now, ContactStart(cfg, read, s.now)),
       contacts := Log(s.contacts, n, Contact(node, s.now)))
  }

  function OneMore(s: State, n: Name, row: Row): State {
    s.(rows := s.rows[n := row], issued := s.issued + {row.credential},
       contacts := s.contacts[n := []], admitted := s.admitted + 1)
  }

  /** Ask the bucket for a token; only a grant is persisted. */
  function Spend(cfg: Config, s: State): State {
    var b := AfterRequest(cfg.limits, s.bucket, s.now);
    s.(bucket := b, saved := if Allows(cfg.limits, s.bucket, s.now) then Some(b) else s.saved)
  }

  predicate AtCap(cfg: Config, t: Table) {
    |ActiveNames(t)| >= cfg.cumulativeCap
  }

  predicate NodeFull(t: Table, node: Node) {
    |ActiveNamesOf(t, node)| >= MAX_REGISTRATIONS_PER_NODE
  }

  // ---- reclaim ----

  /** `_reclaim`, with the lane held. */
  function ReactivateRow(cfg: Config, s: State, n: Name, dynamic: bool, observed: Option<Address>): (o: Outcome)
    requires n in s.rows
    ensures Undisturbed(s, o.state) && Unspent(s, o.state)
    ensures o.state.lane == s.lane || o.state.lane.Restoring?
  {
    var row := s.rows[n];
    var matured := row.maturedAt.Some?;
    if !CanReclaim(s.rows, n, matured) then Answer(s, 500)
    else
      var started := if row.status.Abandoned? || row.lastContactAt.None?
                        || s.now - row.lastContactAt.value > cfg.abandonment
                     then Some(s.now) else row.contactStartedAt;
      var s1 := s.(rows := Reclaim(s.rows, n, matured, Some(dynamic), s.now, started),
                   contacts := Log(s.contacts, n, Contact(row.node, s.now)));
      if matured && observed.Some? then Await(s1, Restoring(n, observed.value, 201))
      else if matured then Answer(s1.(rows := SetLastKnownAddress(s1.rows, n, None)), 201)
      else Answer(s1, 201)
  }

  /** What a reclaim does once it has the lane: read the row again, then reactivate it. */
  function ReclaimInLane(cfg: Config, s: State, ticket: Ticket): (o: Outcome)
    ensures Undisturbed(s, o.state) && Unspent(s, o.state)
    ensures o.state.lane == s.lane || o.state.lane.Restoring?
  {
    if ticket.name !in s.rows || s.rows[ticket.name].Active()
       || s.rows[ticket.name].credential != ticket.credential
    then Answer(s, 409)
    else ReactivateRow(cfg, s, ticket.name, ticket.dynamic, ticket.observed)
  }

  /** `_admit_reclaim`: the caps, then the lane, taken in the same step when it is free. */
  function AdmitReclaim(cfg: Config, s: State, ticket: Ticket): (o: Outcome)
    requires ticket.name in s.rows
    ensures Undisturbed(s, o.state) && Unspent(s, o.state)
    ensures o.state.lane == s.lane || o.state.lane.Restoring?
  {
    if NodeFull(s.rows, s.rows[ticket.name].node) then Answer(s, 403)
    else if AtCap(cfg, s.rows) then Answer(s, 503)
    else if !s.lane.Idle? then Answer(s, 503)
    else ReclaimInLane(cfg, s, ticket)
  }

  /** The credential proves an inactive row, inside its cooldown, that is not revoked. */
  predicate Reclaimable(cfg: Config, s: State, n: Name, credential: Credential) {
    && n in s.rows && !s.rows[n].Active() && !s.rows[n].status.Revoked?
    && !s.rows[n].Expired(cfg.cooldown, s.now) && s.rows[n].credential == credential
  }

  function ReclaimRouteStep(
    cfg: Config, s: State, n: Name, credential: Credential, dynamic: bool, observed: Option<Address>): (o: Outcome)
    ensures Undisturbed(s, o.state) && Unspent(s, o.state)
    ensures o.state.lane == s.lane || o.state.lane.Restoring?
  {
    if n !in s.rows || s.rows[n].credential != credential then Answer(s, 409)
    else if s.rows[n].Active() then Answer(s, 201)
    else if s.rows[n].status.Revoked? || s.rows[n].status.Released? then Answer(s, 409)
    else if s.rows[n].Expired(cfg.cooldown, s.now) then Answer(s, 409)
    else AdmitReclaim(cfg, s, Ticket(n, credential, dynamic, observed))
  }

  // ---- register ----

  function RegisterFresh(cfg: Config, s: State, n: Name, node: Node, dynamic: bool, secret: Credential): (o: Outcome)
    ensures Undisturbed(s, o.state) && (Unspent(s, o.state) || Spent(cfg, s, o.state))
    ensures o.state.lane == s.lane
  {
    if NodeFull(s.rows, node) then Answer(s, 403)
    else if AtCap(cfg, s.rows) then Answer(s, 503)
    else
      var s1 := Spend(cfg, s);
      if !Allows(cfg.limits, s.bucket, s.now) then Answer(s1, 429)
      else if !CanInsert(s1.rows, n, secret, None) then Answer(s1, 409)
      else Answer(OneMore(s1, n, Fresh(secret, node, dynamic, s.now, None)), 201)
  }

  function RegisterStep(
    cfg: Config, s: State, n: Name, node: Node, dynamic: bool, presented: Option<Credential>,
    secret: Credential, observed: Option<Address>): (o: Outcome)
    ensures Undisturbed(s, o.state) && (Unspent(s, o.state) || Spent(cfg, s, o.state))
    ensures o.state.lane == s.lane || o.state.lane.Restoring?
  {
    if n !in s.rows then RegisterFresh(cfg, s, n, node, dynamic, secret)
    else if s.rows[n].Active() then Answer(s, 409)
    else if s.rows[n].Expired(cfg.cooldown, s.now) then
      RegisterFresh(cfg, s.(rows := s.rows - {n}), n, node, dynamic, secret)
    else if presented != Some(s.rows[n].credential) || s.rows[n].status.Revoked? then Answer(s, 409)
    else AdmitReclaim(cfg, s, Ticket(n, s.rows[n].credential, dynamic, observed))
  }

  // ---- heartbeat ----

  /** The last part of a heartbeat: publish when the row has just matured, has no known record, or is
      dynamic, and the observed address is news. */
  function PublishIfDue(s: State, n: Name, row: Row, newlyMatured: bool, observed: Option<Address>): (o: Outcome)
    ensures o.state == s.(lane := o.state.lane)
    ensures o.state.lane == s.lane || o.state.lane.Publishing?
  {
    if (row.status.Matured? || newlyMatured)
       && (newlyMatured || row.lastKnownAddress.None? || row.dynamic)
       && observed.Some? && observed != row.lastKnownAddress
    then Await(s, Publishing(n, observed.value))
    else Answer(s, 200)
  }

  ghost function HeartbeatStep(cfg: Config, s: State, credential: Credential, observed: Option<Address>): (o: Outcome)
    ensures Undisturbed(s, o.state) && Unspent(s, o.state)
    ensures o.state.lane == s.lane || o.state.lane.Publishing? || o.state.lane.ReplacementUp?
  {
    if !s.lane.Idle? then Answer(s, 503)
    else
      var found := ByCredential(s.rows, credential);
      if found.None? || !s.rows[found.value].Active() then Answer(s, 401)
      else
        var n, row := found.value, s.rows[found.value];
        var s1 := Contacted(cfg, s, n, row, row.node);
        if row.status.Pending? && s.now - ContactStart(cfg, row, s.now) >= cfg.minAge then
          if row.replacing.None? then
            PublishIfDue(s1.(rows := MarkMatured(s1.rows, n, s.now)), n, row, true, observed)
          else if observed.Some? then Await(s1, ReplacementUp(n, row, observed.value, s.now))
          else Answer(s1, 200)
        else PublishIfDue(s1, n, row, false, observed)
  }

  // ---- rename ----

  /** A retry of the outstanding rename: the replacement comes back if it was abandoned, both rows
      are contacted, and the replacement's secret is minted anew. */
  function RetryRename(cfg: Config, s: State, current: Name, r: Name, secret: Credential): (o: Outcome)
    requires current in s.rows && r in s.rows
    ensures Undisturbed(s, o.state) && Unspent(s, o.state)
    ensures o.state.lane == s.lane
  {
    var row := s.rows[r];
    if row.status.Abandoned? && row.Expired(cfg.cooldown, s.now) then Answer(s, 409)
    else if row.status.Abandoned? && AtCap(cfg, s.rows) then Answer(s, 503)
    else if row.status.Abandoned? && !CanReclaim(s.rows, r, false) then Answer(s, 500)
    else
      var s1 := if row.status.Abandoned?
                then s.(rows := Reclaim(s.rows, r, false, None, s.now, Some(s.now))) else s;
      var s2 := Contacted(cfg, s1, current, s.rows[current], s.rows[current].node);
      var s3 := Contacted(cfg, s2, r, row, s.rows[current].node);
      Answer(s3.(rows := ReplaceCredential(s3.rows, r, secret), issued := s.issued + {secret}), 201)
  }

  function RenameFresh(cfg: Config, s: State, current: Name, row: Row, n: Name, secret: Credential): (o: Outcome)
    ensures Undisturbed(s, o.state) && (Unspent(s, o.state) || Spent(cfg, s, o.state))
    ensures o.state.lane == s.lane
  {
    if n in s.rows && (s.rows[n].Active() || !s.rows[n].Expired(cfg.cooldown, s.now)) then Answer(s, 409)
    else
      var s0 := s.(rows := s.rows - {n});
      if AtCap(cfg, s0.rows) then Answer(s0, 503)
      else
        var s1 := Spend(cfg, s0);
        if !Allows(cfg.limits, s0.bucket, s.now) then Answer(s1, 429)
        else
          var s2 := Contacted(cfg, s1, current, row, row.node);
          if !CanInsert(s2.rows, n, secret, Some(current)) then Answer(s2, 409)
          else Answer(OneMore(s2, n, Fresh(secret, row.node, row.dynamic, s.now, Some(current))), 201)
  }

  ghost function RenameStep(cfg: Config, s: State, credential: Credential, n: Name, secret: Credential): (o: Outcome)
    ensures Undisturbed(s, o.state) && (Unspent(s, o.state) || Spent(cfg, s, o.state))
    ensures o.state.lane == s.lane
  {
    if !s.lane.Idle? then Answer(s, 503)
    else
      var found := ByCredential(s.rows, credential);
      if found.None? || !s.rows[found.value].Active() then Answer(s, 401)
      else
        var current, row := found.value, s.rows[found.value];
        if row.replacing.Some? then Answer(s, 409)
        else if n == current then Answer(s, 400)
        else
          var claim := ReplacementFor(s.rows, current);
          if claim.None? then RenameFresh(cfg, s, current, row, n, secret)
          else if s.rows[claim.value].node != row.node then
            RenameFresh(cfg, s.(rows := DetachReplacement(s.rows, claim.value, current)), current, row, n, secret)
          else if s.rows[claim.value].status.Abandoned? && s.rows[claim.value].Expired(cfg.cooldown, s.now) then
            RenameFresh(cfg, s.(rows := s.rows - {claim.value}), current, row, n, secret)
          else if claim.value != n then Answer(s, 409)
          else RetryRename(cfg, s, current, n, secret)
  }

  // ---- cancel-rename ----

  /** The caps an abandoned previous row must fit to come back, counting the replacement as already gone. */
  function ReviveRefusal(cfg: Config, t: Table, replacement: Row, previous: Row): Option<int> {
    var freed := if replacement.Active() then 1 else 0;
    if |ActiveNamesOf(t, previous.node)| - freed >= MAX_REGISTRATIONS_PER_NODE then Some(403)
    else if |ActiveNames(t)| - freed >= cfg.cumulativeCap then Some(503)
    else None
  }

  /** The replacement a cancellation speaks for: the authenticated row itself, or the one naming it. */
  ghost function CancelTarget(t: Table, credential: Credential): Option<Name> {
    var found := ByCredential(t, credential);
    if found.Some? && t[found.value].replacing.None? then ReplacementFor(t, found.value) else found
  }

  ghost function CancelRenameStep(
    cfg: Config, s: State, credential: Credential, observed: Option<Address>): (o: Outcome)
    ensures Undisturbed(s, o.state) && Unspent(s, o.state)
    ensures o.state.lane == s.lane || o.state.lane.Cancelling?
  {
    if !s.lane.Idle? then Answer(s, 503)
    else
      var found := ByCredential(s.rows, credential);
      var target := CancelTarget(s.rows, credential);
      if found.Some? && s.rows[found.value].status.Revoked? then Answer(s, 401)
      else if target.None? || !s.rows[target.value].Claims() then Answer(s, 401)
      else
        var row := s.rows[target.value];
        var previous := row.replacing.value;
        if previous !in s.rows || s.rows[previous].node != row.node then Answer(s, 409)
        else if s.rows[previous].status.Abandoned? && s.rows[previous].Expired(cfg.cooldown, s.now) then
          Answer(s, 409)
        else if s.rows[previous].status.Abandoned? && ReviveRefusal(cfg, s.rows, row, s.rows[previous]).Some? then
          Answer(s, ReviveRefusal(cfg, s.rows, row, s.rows[previous]).value)
        else Await(s, Cancelling(target.value, previous, s.rows[previous], observed))
  }

  /** What is read again after the replacement's record is gone: an ordinary registration may have
      filled the last slot or claimed an expired row meanwhile. */
  function CancelRefusal(cfg: Config, s: State, n: Name, previous: Name, read: Row): Option<int> {
    if !read.status.Abandoned? then
      if CanCancel(s.rows, n) then None else Some(409)
    else if n !in s.rows || !(s.rows[n].status.Pending? || s.rows[n].status.Abandoned?)
            || previous !in s.rows || !s.rows[previous].status.Abandoned?
            || s.rows[n].node != s.rows[previous].node || s.rows[previous].Expired(cfg.cooldown, s.now)
    then Some(409)
    else
      var refusal := ReviveRefusal(cfg, s.rows, s.rows[n], s.rows[previous]);
      if refusal.Some? then refusal
      else if !CanCancel(s.rows, n) then Some(409)
      else if !CanRevive(s.rows, n, previous, true) then Some(500)
      else None
  }

  /** The second half of a cancellation: check again, then commit. */
  function FinishCancel(
    cfg: Config, s: State, n: Name, previous: Name, read: Row, observed: Option<Address>): (o: Outcome)
    ensures Undisturbed(s, o.state) && Unspent(s, o.state)
    ensures o.state.lane == s.lane || o.state.lane.Restoring?
  {
    var revive := read.status.Abandoned?;
    var refusal := CancelRefusal(cfg, s, n, previous, read);
    if refusal.Some? then Answer(s, refusal.value)
    else
      var kept := if revive then s.rows[previous] else read;
      var t := CancelReplacement(s.rows, n, previous, revive, s.now, ContactStart(cfg, kept, s.now));
      var s1 := s.(rows := t, contacts := if previous in t && t[previous].Active()
                                          then Log(s.contacts, previous, Contact(read.node, s.now))
                                          else s.contacts);
      if revive && kept.maturedAt.Some? then
        if observed.Some? then Await(s1, Restoring(previous, observed.value, 200))
        else Answer(s1.(rows := SetLastKnownAddress(t, previous, None)), 200)
      else Answer(s1, 200)
  }

  // ---- release, revoke, sweep ----

  ghost function ReleaseStep(s: State, credential: Credential): (o: Outcome)
    ensures Undisturbed(s, o.state) && Unspent(s, o.state)
    ensures o.state.lane == s.lane || o.state.lane.Releasing?
  {
    if !s.lane.Idle? then Answer(s, 503)
    else
      var found := ByCredential(s.rows, credential);
      if found.None? || !s.rows[found.value].Active() then Answer(s, 401)
      else
        var n, row := found.value, s.rows[found.value];
        if row.replacing.Some? || ReplacementFor(s.rows, n).Some? then Answer(s, 409)
        else if row.status.Matured? then Await(s, Releasing(n))
        else Answer(s.(rows := Deactivate(s.rows, n, Released, s.now)), 200)
  }

  /** The rows a revocation takes: the named one, and its partner in a rename of the same node. */
  ghost function RevocationTargets(t: Table, n: Name): seq<Target>
    requires n in t
  {
    var partner := if t[n].replacing.Some? then t[n].replacing else ReplacementFor(t, n);
    [Target(n, t[n])]
    + (if partner.Some? && partner.value in t && !t[partner.value].status.Revoked?
          && t[partner.value].node == t[n].node
       then [Target(partner.value, t[partner.value])] else [])
  }

  /** The next target at or after `i` that needs a provider call. */
  function NextPublishable(targets: seq<Target>, i: nat): (j: nat)
    requires i <= |targets|
    ensures i <= j <= |targets|
    ensures j < |targets| ==> targets[j].Publishable()
    ensures forall k | i <= k < j :: !targets[k].Publishable()
    decreases |targets| - i
  {
    if i == |targets| || targets[i].Publishable() then i else NextPublishable(targets, i + 1)
  }

  /** Whether the row that was read is still the one in the table: its credential is unchanged. */
  predicate StillThere(t: Table, target: Target) {
    target.name in t && t[target.name].credential == target.row.credential
  }

  /** Whether the revocation will move the target's row. */
  predicate Revocable(t: Table, target: Target) {
    StillThere(t, target) && !t[target.name].status.Revoked?
  }

  function RevokeAll(t: Table, targets: seq<Target>, at: Time, reason: string): Table {
    if targets == [] then t
    else
      var t1 := if StillThere(t, targets[0]) then RevokeRow(t, targets[0].name, at, reason) else t;
      RevokeAll(t1, targets[1..], at, reason)
  }

  /** Delete what is left to delete, then revoke every target that is still the row it was. */
  function RevokeFrom(s: State, targets: seq<Target>, i: nat, reason: string): (o: Outcome)
    requires i <= |targets|
    ensures Undisturbed(s, o.state) && Unspent(s, o.state)
    ensures o.state.lane.Idle? || o.state.lane.Revoking?
  {
    var j := NextPublishable(targets, i);
    if j < |targets| then Await(s, Revoking(targets, j, reason))
    else Answer(s.(lane := Idle, rows := RevokeAll(s.rows, targets, s.now, reason)),
                if exists k | 0 <= k < |targets| :: Revocable(s.rows, targets[k]) then 200 else 409)
  }

  ghost function RevokeStep(
    s: State, n: Name, reason: string, expectedNode: Option<Node>, expectedCreatedAt: Option<Time>): (o: Outcome)
    ensures Undisturbed(s, o.state) && Unspent(s, o.state)
    ensures o.state.lane == s.lane || o.state.lane.Revoking?
  {
    if !s.lane.Idle? then Answer(s, 503)
    else if n !in s.rows then Answer(s, 404)
    else if s.rows[n].status.Revoked? then Answer(s, 409)
    else if (expectedNode.Some? && s.rows[n].node != expectedNode.value)
            || (expectedCreatedAt.Some? && s.rows[n].createdAt != expectedCreatedAt.value) then Answer(s, 409)
    else RevokeFrom(s, RevocationTargets(s.rows, n), 0, reason)
  }

  /** The sweep looks at one row; `startedAt` is when its pass began. */
  function SweepStep(cfg: Config, s: State, n: Name, startedAt: Time): (o: Outcome)
    ensures Undisturbed(s, o.state) && Unspent(s, o.state)
    ensures o.state.lane == s.lane || o.state.lane.Sweeping?
  {
    if n !in s.rows || !s.rows[n].Active() then Outcome(s, Silent)
    else
      var row := s.rows[n];
      if row.LatestContact() >= startedAt - cfg.abandonment then Outcome(s, Silent)
      else if row.status.Matured? || row.replacing.Some? || row.lastKnownAddress.Some? then
        Outcome(s.(lane := Sweeping(n, startedAt)), Silent)
      else Outcome(s.(rows := Deactivate(s.rows, n, Abandoned, startedAt)), Silent)
  }

  // ---- what follows a provider call ----

  predicate LaneWellFormed(s: State) {
    s.lane.Revoking? ==> s.lane.next < |s.lane.targets|
  }

  function AfterCall(s: State, applied: bool): State
    requires !s.lane.Idle? && LaneWellFormed(s)
  {
    if applied then s.(records := Applied(s.records, s.lane.Pending())) else s
  }

  /** The rest of a handler once its provider call has returned; `s` already shows the call's effect. */
  function Continue(cfg: Config, s: State, ok: bool): (o: Outcome)
    requires !s.lane.Idle? && LaneWellFormed(s)
    ensures Undisturbed(s, o.state) && Unspent(s, o.state)
  {
    var f := s.(lane := Idle);
    match s.lane
    case Sweeping(n, startedAt) =>
      Outcome(if ok then f.(rows := Deactivate(s.rows, n, Abandoned, startedAt)) else f, Silent)
    case Publishing(n, address) =>
      Answer(if ok then f.(rows := SetLastKnownAddress(s.rows, n, Some(address))) else f, 200)
    case Restoring(n, address, code) =>
      Answer(f.(rows := SetLastKnownAddress(s.rows, n, if ok then Some(address) else None)), code)
    case ReplacementUp(n, row, address, at) =>
      if !ok || row.replacing.None? then Answer(f, 200)
      else
        var t := SetLastKnownAddress(s.rows, n, Some(address));
        var previous := row.replacing.value;
        if previous in t && t[previous].status.Matured? && t[previous].node == row.node then
          Await(s.(rows := SetLastKnownAddress(t, previous, None)), PreviousDown(n, row, previous, at))
        else Answer(f.(rows := CompleteRename(t, n, previous, row.node, at)), 200)
    case PreviousDown(n, row, previous, at) =>
      Answer(if ok then f.(rows := CompleteRename(s.rows, n, previous, row.node, at)) else f, 200)
    case Cancelling(n, previous, read, observed) =>
      if ok then FinishCancel(cfg, f, n, previous, read, observed) else Answer(f, 503)
    case Releasing(n) =>
      if ok then Answer(f.(rows := Deactivate(s.rows, n, Released, s.now)), 200) else Answer(f, 503)
    case Revoking(targets, next, reason) =>
      if ok then RevokeFrom(s, targets, next + 1, reason) else Answer(f, 503)
  }

  /** The process stops and starts again: whatever held the lane is gone, waiters too, and the bucket
      comes back from what was persisted. The stop may fall right after an admission persisted the
      token it spent and before it inserted its row. */
  function Restarted(cfg: Config, s: State): State {
    s.(lane := Idle, waiting := [], bucket := Started(cfg.limits, s.saved, s.now))
  }

  // ---- the machine ----

  /** What the environment must respect: fresh secrets, a call that reports success has taken effect,
      a sweep pass began in the past, and a reclaim queues only after its checks have passed. Others may still take
      the lane before it; `LaneOrder` has the order of the queue. */
  ghost predicate Enabled(cfg: Config, s: State, a: Action) {
    match a
    case Register(_, _, _, _, secret, _) => secret !in s.issued
    case Rename(_, _, secret) => secret !in s.issued
    case SweepVisit(_, startedAt) => s.lane.Idle? && startedAt <= s.now
    case Purge(startedAt) => s.lane.Idle? && startedAt <= s.now
    case Resume(ok, applied) => !s.lane.Idle? && LaneWellFormed(s) && (ok ==> applied)
    case Restart(applied, _) => (applied ==> !s.lane.Idle?) && LaneWellFormed(s)
    case Wait(ticket) =>
      && s.lane.Idle? && Reclaimable(cfg, s, ticket.name, ticket.credential)
      && !NodeFull(s.rows, s.rows[ticket.name].node) && !AtCap(cfg, s.rows)
    case RunWaiting => s.lane.Idle? && s.waiting != []
    case _ => true
  }

  ghost function Step(cfg: Config, s: State, a: Action): Outcome
    requires Enabled(cfg, s, a)
  {
    match a
    case Tick(elapsed) => Outcome(s.(now := s.now + elapsed), Silent)
    case Register(n, node, dynamic, presented, secret, observed) =>
      RegisterStep(cfg, s, n, node, dynamic, presented, secret, observed)
    case ReclaimRoute(n, credential, dynamic, observed) =>
      ReclaimRouteStep(cfg, s, n, credential, dynamic, observed)
    case Heartbeat(credential, observed) => HeartbeatStep(cfg, s, credential, observed)
    case Rename(credential, n, secret) => RenameStep(cfg, s, credential, n, secret)
    case CancelRename(credential, observed) => CancelRenameStep(cfg, s, credential, observed)
    case Release(credential) => ReleaseStep(s, credential)
    case Revoke(n, reason, expectedNode, expectedCreatedAt) =>
      RevokeStep(s, n, reason, expectedNode, expectedCreatedAt)
    case SweepVisit(n, startedAt) => SweepStep(cfg, s, n, startedAt)
    case Purge(startedAt) => Outcome(s.(rows := DeleteExpired(s.rows, startedAt - cfg.cooldown)), Silent)
    case Resume(ok, applied) => Continue(cfg, AfterCall(s, applied), ok)
    case Restart(applied, spent) =>
      var s1 := if applied then AfterCall(s, true) else s;
      Outcome(Restarted(cfg, if spent then Spend(cfg, s1) else s1), Silent)
    case Wait(ticket) => Outcome(s.(waiting := s.waiting + [ticket]), Silent)
    case RunWaiting => ReclaimInLane(cfg, s.(waiting := s.waiting[1..]), s.waiting[0])
  }

  ghost function Next(cfg: Config, s: State, a: Action): State
    requires Enabled(cfg, s, a)
  {
    Step(cfg, s, a).state
  }

  // ---- runs ----

  /** Every action of the run is enabled where it happens. */
  ghost predicate Legal(cfg: Config, s: State, run: seq<Action>)
    decreases |run|
  {
    run == [] || (Enabled(cfg, s, run[0]) && Legal(cfg, Next(cfg, s, run[0]), run[1..]))
  }

  ghost function Run(cfg: Config, s: State, run: seq<Action>): State
    requires Legal(cfg, s, run)
    decreases |run|
  {
    if run == [] then s else Run(cfg, Next(cfg, s, run[0]), run[1..])
  }

  /** The reclaim at the head of the queue will be carried out. */
  ghost predicate TurnAccepted(s: State) {
    && s.waiting != []
    && var k := s.waiting[0];
    && k.name in s.rows && !s.rows[k.name].Active() && s.rows[k.name].credential == k.credential
    && CanReclaim(s.rows, k.name, s.rows[k.name].maturedAt.Some?)
  }

  /** The row as reactivation leaves it, as far as the rules of the table go. */
  function Reactivated(row: Row): Row {
    row.(status := if row.maturedAt.Some? then Matured else Pending, releasedAt := None)
  }

  /** The promises that the turn of a waiting reclaim may break: the cumulative cap, the cap of a node, the links
      of renames, and that the row of a name, once revoked, is never active again. A theorem is about those it
      watches. */
  datatype Promises = Promises(cap: bool, node: Option<Node>, links: bool, final: Option<Name>)

  /** A reclaim's turn after a wait is harmless to a promise when it is not carried out, or when there is still
      room in the table, room in its node, nobody else with its claim, or a row that is not revoked. */
  ghost predicate Harmless(w: Promises, cfg: Config, s: State, a: Action) {
    a.RunWaiting? && TurnAccepted(s) ==>
      var n := s.waiting[0].name;
      && (w.cap ==> !AtCap(cfg, s.rows))
      && (w.node == Some(s.rows[n].node) ==> Capped(s.rows, n, Reactivated(s.rows[n])))
      && (w.links ==> Linked(s.rows, n, Reactivated(s.rows[n])))
      && (w.final == Some(n) ==> !s.rows[n].status.Revoked?)
  }

  /** Every turn of a waiting reclaim in the run is harmless to the promises. */
  ghost predicate HarmlessTurns(w: Promises, cfg: Config, s: State, run: seq<Action>)
    requires Legal(cfg, s, run)
    decreases |run|
  {
    run == [] || (Harmless(w, cfg, s, run[0]) && HarmlessTurns(w, cfg, Next(cfg, s, run[0]), run[1..]))
  }

  /** To watch nothing but what holds anyway. */
  const ANYWAY := Promises(false, None, false, None)
  const CAP := Promises(true, None, false, None)
  const LINKS := Promises(false, None, true, None)

  function CapOf(node: Node): Promises {
    Promises(false, Some(node), false, None)
  }

  function FinalityOf(n: Name): Promises {
    Promises(false, None, false, Some(n))
  }

  lemma {:induction false} AnyRunIsHarmless(cfg: Config, s: State, run: seq<Action>)
    requires Legal(cfg, s, run)
    ensures HarmlessTurns(ANYWAY, cfg, s, run)
    decreases |run|
  {
    if run != [] {
      AnyRunIsHarmless(cfg, Next(cfg, s, run[0]), run[1..]);
    }
  }

  /** A run is an action and then a run. */
  lemma StepThen(cfg: Config, s: State, a: Action, rest: seq<Action>)
    requires Enabled(cfg, s, a) && Legal(cfg, Next(cfg, s, a), rest)
    ensures Legal(cfg, s, [a] + rest) && Run(cfg, s, [a] + rest) == Run(cfg, Next(cfg, s, a), rest)
  {
    assert ([a] + rest)[1..] == rest;
  }
}
