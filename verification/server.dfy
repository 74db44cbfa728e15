/** The managed-DNS server object: one method per block of code between two awaits on the provider, each
    proved to do to the database, the bucket and the lane what its step of `Protocol` says. `Perform`
    drives the object by actions and keeps the protocol's invariant. */
module Server {
  import opened Prelude
  import opened Registrations
  import opened RegistrationStore
  import opened RateLimit
  import opened DnsProvider
  import opened Protocol
  import opened ProtocolInvariant

  class ManagedDnsServer {
    const cfg: Config
    const db: Database
    const dns: LoggingDnsProvider
    var limiter: GlobalRateLimiter
    var lane: Flight
    var now: Time
    var waiting: seq<Ticket>
    ghost var issued: set<Credential>
    ghost var contacts: map<Name, seq<Contact>>
    ghost var admitted: nat

    ghost function Snapshot(): State
      reads this, db, dns, limiter
    {
      State(db.rows, dns.records, lane, now, limiter.State(), db.bucket, issued, waiting, contacts, admitted)
    }

    /** The limiter works by the configured limits. */
    ghost predicate Fitted()
      reads this
    {
      limiter.limits == cfg.limits
    }

    /** The unique index on the credentials: a lookup by credential has one answer. */
    ghost predicate Unique()
      reads db
    {
      CredentialsDistinct(db.rows)
    }

    constructor (cfg: Config)
      ensures this.cfg == cfg && Fitted() && fresh(db) && fresh(dns) && fresh(limiter)
      ensures Snapshot() == Initial(cfg)
    {
      this.cfg := cfg;
      db := new Database();
      dns := new LoggingDnsProvider();
      limiter := new GlobalRateLimiter(cfg.limits, None, 0);
      lane, now, waiting := Idle, 0, [];
      issued, contacts, admitted := {}, map[], 0;
    }

    // ---- shared steps ----

    method RecordContact(n: Name, read: Row, node: Node)
      requires Fitted()
      modifies db`rows, `contacts
      ensures Snapshot() == Contacted(cfg, old(Snapshot()), n, read, node)
    {
      db.SetContactWindow(n, now, ContactStart(cfg, read, now));
      contacts := Log(contacts, n, Contact(node, now));
    }

    /** Ask for a token, and save the bucket when it gives one. */
    method SpendToken() returns (allowed: bool)
      requires Fitted()
      modifies db`bucket, limiter
      ensures Fitted() && Snapshot() == Spend(cfg, old(Snapshot()))
      ensures allowed == Allows(cfg.limits, old(limiter.State()), now)
    {
      allowed := limiter.Allow(now);
      if allowed {
        db.SaveRateLimitState(limiter.tokens, limiter.lastRefill);
      }
    }

    method Insert(n: Name, secret: Credential, node: Node, dynamic: bool, replacing: Option<Name>)
      returns (ok: bool)
      modifies db`rows, `issued, `contacts, `admitted
      ensures ok == CanInsert(old(db.rows), n, secret, replacing)
      ensures Snapshot() == if ok then OneMore(old(Snapshot()), n, Fresh(secret, node, dynamic, now, replacing))
                            else old(Snapshot())
    {
      ok := db.InsertRegistration(n, secret, node, dynamic, now, replacing);
      if ok {
        issued, contacts, admitted := issued + {secret}, contacts[n := []], admitted + 1;
      }
    }

    // ---- reclaim ----

    method Reactivate(n: Name, dynamic: bool, observed: Option<Address>) returns (reply: Reply)
      requires Fitted() && n in db.rows
      modifies db`rows, `lane, `contacts
      ensures Outcome(Snapshot(), reply) == ReactivateRow(cfg, old(Snapshot()), n, dynamic, observed)
    {
      var row := db.rows[n];
      var matured := row.maturedAt.Some?;
      var started := row.contactStartedAt;
      if row.status.Abandoned? || row.lastContactAt.None? || now - row.lastContactAt.value > cfg.abandonment {
        started := Some(now);
      }
      var ok := db.Reclaim(n, matured, Some(dynamic), now, started);
      if !ok {
        return Http(500);
      }
      contacts := Log(contacts, n, Contact(row.node, now));
      if matured {
        if observed.Some? {
          lane := Restoring(n, observed.value, 201);
          return Awaiting;
        }
        db.SetLastKnownAddress(n, None);
      }
      reply := Http(201);
    }

    /** The part of a reclaim that runs in the lane. */
    method ReclaimHoldingLane(ticket: Ticket) returns (reply: Reply)
      requires Fitted()
      modifies db`rows, `lane, `contacts
      ensures Outcome(Snapshot(), reply) == ReclaimInLane(cfg, old(Snapshot()), ticket)
    {
      if ticket.name !in db.rows || db.rows[ticket.name].Active()
         || db.rows[ticket.name].credential != ticket.credential {
        return Http(409);
      }
      reply := Reactivate(ticket.name, ticket.dynamic, ticket.observed);
    }

    method Admit(ticket: Ticket) returns (reply: Reply)
      requires Fitted() && ticket.name in db.rows
      modifies db`rows, `lane, `contacts
      ensures Outcome(Snapshot(), reply) == AdmitReclaim(cfg, old(Snapshot()), ticket)
    {
      var activeForNode := db.CountActiveForNode(db.rows[ticket.name].node);
      if activeForNode >= MAX_REGISTRATIONS_PER_NODE {
        return Http(403);
      }
      var active := db.CountActive();
      if active >= cfg.cumulativeCap || !lane.Idle? {
        return Http(503);
      }
      reply := ReclaimHoldingLane(ticket);
    }

    method HandleReclaim(n: Name, credential: Credential, dynamic: bool, observed: Option<Address>)
      returns (reply: Reply)
      requires Fitted()
      modifies db`rows, `lane, `contacts
      ensures Outcome(Snapshot(), reply) == ReclaimRouteStep(cfg, old(Snapshot()), n, credential, dynamic, observed)
    {
      if n !in db.rows || db.rows[n].credential != credential {
        return Http(409);
      }
      var existing := db.rows[n];
      if existing.Active() {
        return Http(201);
      }
      if existing.status.Revoked? || existing.status.Released? || existing.Expired(cfg.cooldown, now) {
        return Http(409);
      }
      reply := Admit(Ticket(n, credential, dynamic, observed));
    }

    // ---- register ----

    method RegisterAnew(n: Name, node: Node, dynamic: bool, secret: Credential) returns (reply: Reply)
      requires Fitted()
      modifies db, limiter, `issued, `contacts, `admitted
      ensures Fitted() && Outcome(Snapshot(), reply) == RegisterFresh(cfg, old(Snapshot()), n, node, dynamic, secret)
    {
      var activeForNode := db.CountActiveForNode(node);
      if activeForNode >= MAX_REGISTRATIONS_PER_NODE {
        return Http(403);
      }
      var active := db.CountActive();
      if active >= cfg.cumulativeCap {
        return Http(503);
      }
      var allowed := SpendToken();
      if !allowed {
        return Http(429);
      }
      var inserted := Insert(n, secret, node, dynamic, None);
      reply := Http(if inserted then 201 else 409);
    }

    method HandleRegister(
      n: Name, node: Node, dynamic: bool, presented: Option<Credential>, secret: Credential,
      observed: Option<Address>) returns (reply: Reply)
      requires Fitted()
      modifies db, limiter, `lane, `issued, `contacts, `admitted
      ensures Fitted()
      ensures Outcome(Snapshot(), reply)
           == RegisterStep(cfg, old(Snapshot()), n, node, dynamic, presented, secret, observed)
    {
      if n in db.rows {
        var existing := db.rows[n];
        if existing.Active() {
          return Http(409);
        }
        if !existing.Expired(cfg.cooldown, now) {
          if presented == Some(existing.credential) && !existing.status.Revoked? {
            reply := Admit(Ticket(n, existing.credential, dynamic, observed));
            return;
          }
          return Http(409);
        }
        db.DeleteRegistration(n);
      }
      reply := RegisterAnew(n, node, dynamic, secret);
    }

    // ---- heartbeat ----

    method Publish(n: Name, row: Row, newlyMatured: bool, observed: Option<Address>) returns (reply: Reply)
      modifies `lane
      ensures Outcome(Snapshot(), reply) == PublishIfDue(old(Snapshot()), n, row, newlyMatured, observed)
    {
      var should := (row.status.Matured? || newlyMatured)
                    && (newlyMatured || row.lastKnownAddress.None? || row.dynamic);
      if should && observed.Some? && observed != row.lastKnownAddress {
        lane := Publishing(n, observed.value);
        return Awaiting;
      }
      reply := Http(200);
    }

    method HandleHeartbeat(credential: Credential, observed: Option<Address>) returns (reply: Reply)
      requires Fitted() && Unique()
      modifies db`rows, `lane, `contacts
      ensures Outcome(Snapshot(), reply) == HeartbeatStep(cfg, old(Snapshot()), credential, observed)
    {
      if !lane.Idle? {
        return Http(503);
      }
      var found := db.GetByCredential(credential);
      if found.None? || !db.rows[found.value].Active() {
        return Http(401);
      }
      var n, row := found.value, db.rows[found.value];
      var started := ContactStart(cfg, row, now);
      RecordContact(n, row, row.node);
      if row.status.Pending? && now - started >= cfg.minAge {
        if row.replacing.Some? {
          if observed.Some? {
            lane := ReplacementUp(n, row, observed.value, now);
            return Awaiting;
          }
          return Http(200);
        }
        db.MarkMatured(n, now);
        reply := Publish(n, row, true, observed);
      } else {
        reply := Publish(n, row, false, observed);
      }
    }

    // ---- rename ----

    method Retry(current: Name, r: Name, secret: Credential) returns (reply: Reply)
      requires Fitted() && current in db.rows && r in db.rows
      modifies db`rows, `issued, `contacts
      ensures Outcome(Snapshot(), reply) == RetryRename(cfg, old(Snapshot()), current, r, secret)
    {
      var owner, row := db.rows[current], db.rows[r];
      if row.status.Abandoned? {
        if row.Expired(cfg.cooldown, now) {
          return Http(409);
        }
        var active := db.CountActive();
        if active >= cfg.cumulativeCap {
          return Http(503);
        }
        var ok := db.Reclaim(r, false, None, now, Some(now));
        if !ok {
          return Http(500);
        }
      }
      RecordContact(current, owner, owner.node);
      RecordContact(r, row, owner.node);
      db.ReplaceCredential(r, secret);
      issued := issued + {secret};
      reply := Http(201);
    }

    method RenameAnew(current: Name, row: Row, n: Name, secret: Credential) returns (reply: Reply)
      requires Fitted()
      modifies db, limiter, `issued, `contacts, `admitted
      ensures Fitted() && Outcome(Snapshot(), reply) == RenameFresh(cfg, old(Snapshot()), current, row, n, secret)
    {
      if n in db.rows {
        if db.rows[n].Active() || !db.rows[n].Expired(cfg.cooldown, now) {
          return Http(409);
        }
      }
      db.DeleteRegistration(n);
      var active := db.CountActive();
      if active >= cfg.cumulativeCap {
        return Http(503);
      }
      var allowed := SpendToken();
      if !allowed {
        return Http(429);
      }
      RecordContact(current, row, row.node);
      var inserted := Insert(n, secret, row.node, row.dynamic, Some(current));
      reply := Http(if inserted then 201 else 409);
    }

    method HandleRename(credential: Credential, n: Name, secret: Credential) returns (reply: Reply)
      requires Fitted() && Unique()
      modifies db, limiter, `issued, `contacts, `admitted
      ensures Fitted() && Outcome(Snapshot(), reply) == RenameStep(cfg, old(Snapshot()), credential, n, secret)
    {
      hide RenameFresh, RetryRename;
      if !lane.Idle? {
        return Http(503);
      }
      var found := db.GetByCredential(credential);
      if found.None? || !db.rows[found.value].Active() {
        return Http(401);
      }
      var current, row := found.value, db.rows[found.value];
      if row.replacing.Some? {
        return Http(409);
      }
      if n == current {
        return Http(400);
      }
      var claim := db.GetReplacementFor(current);
      if claim.Some? {
        var replacement := db.rows[claim.value];
        if replacement.node != row.node {
          db.DetachReplacement(claim.value, current);
        } else if replacement.status.Abandoned? && replacement.Expired(cfg.cooldown, now) {
          db.DeleteRegistration(claim.value);
        } else if claim.value != n {
          return Http(409);
        } else {
          reply := Retry(current, n, secret);
          return;
        }
      }
      reply := RenameAnew(current, row, n, secret);
    }

    // ---- cancel-rename ----

    /** The caps an abandoned previous row must fit, or nothing when it does. */
    method RefuseRevival(replacement: Row, previous: Row) returns (refusal: Option<int>)
      ensures refusal == ReviveRefusal(cfg, db.rows, replacement, previous)
    {
      var freed := if replacement.Active() then 1 else 0;
      var activeForNode := db.CountActiveForNode(previous.node);
      if activeForNode - freed >= MAX_REGISTRATIONS_PER_NODE {
        return Some(403);
      }
      var active := db.CountActive();
      refusal := if active - freed >= cfg.cumulativeCap then Some(503) else None;
    }

    method HandleCancelRename(credential: Credential, observed: Option<Address>) returns (reply: Reply)
      requires Fitted() && Unique()
      modifies `lane
      ensures Outcome(Snapshot(), reply) == CancelRenameStep(cfg, old(Snapshot()), credential, observed)
    {
      hide ReviveRefusal;
      if !lane.Idle? {
        return Http(503);
      }
      var target := db.GetByCredential(credential);
      if target.Some? {
        if db.rows[target.value].status.Revoked? {
          return Http(401);
        }
        if db.rows[target.value].replacing.None? {
          target := db.GetReplacementFor(target.value);
        }
      }
      if target.None? || !db.rows[target.value].Claims() {
        return Http(401);
      }
      var row := db.rows[target.value];
      var previous := row.replacing.value;
      if previous !in db.rows || db.rows[previous].node != row.node {
        return Http(409);
      }
      var read := db.rows[previous];
      if read.status.Abandoned? {
        if read.Expired(cfg.cooldown, now) {
          return Http(409);
        }
        var refusal := RefuseRevival(row, read);
        if refusal.Some? {
          return Http(refusal.value);
        }
      }
      lane := Cancelling(target.value, previous, read, observed);
      reply := Awaiting;
    }

    method AfterCancelCall(n: Name, previous: Name, read: Row, observed: Option<Address>) returns (reply: Reply)
      requires Fitted() && lane.Idle?
      modifies db`rows, `lane, `contacts
      ensures Outcome(Snapshot(), reply) == FinishCancel(cfg, old(Snapshot()), n, previous, read, observed)
    {
      var revive := read.status.Abandoned?;
      var kept := read;
      if revive {
        if n !in db.rows || !(db.rows[n].status.Pending? || db.rows[n].status.Abandoned?)
           || previous !in db.rows || !db.rows[previous].status.Abandoned?
           || db.rows[n].node != db.rows[previous].node || db.rows[previous].Expired(cfg.cooldown, now) {
          return Http(409);
        }
        kept := db.rows[previous];
        var refusal := RefuseRevival(db.rows[n], kept);
        if refusal.Some? {
          return Http(refusal.value);
        }
      }
      var commit := db.CancelPendingReplacement(n, previous, revive, now, ContactStart(cfg, kept, now));
      if !commit.Done? {
        return Http(if commit.Absent? then 409 else 500);
      }
      if previous in db.rows && db.rows[previous].Active() {
        contacts := Log(contacts, previous, Contact(read.node, now));
      }
      if revive && kept.maturedAt.Some? {
        if observed.Some? {
          lane := Restoring(previous, observed.value, 200);
          return Awaiting;
        }
        db.SetLastKnownAddress(previous, None);
      }
      reply := Http(200);
    }

    // ---- release, revoke, sweep ----

    method HandleRelease(credential: Credential) returns (reply: Reply)
      requires Fitted() && Unique()
      modifies db`rows, `lane
      ensures Outcome(Snapshot(), reply) == ReleaseStep(old(Snapshot()), credential)
    {
      if !lane.Idle? {
        return Http(503);
      }
      var found := db.GetByCredential(credential);
      if found.None? || !db.rows[found.value].Active() {
        return Http(401);
      }
      var n, row := found.value, db.rows[found.value];
      var claim := db.GetReplacementFor(n);
      if row.replacing.Some? || claim.Some? {
        return Http(409);
      }
      if row.status.Matured? {
        lane := Releasing(n);
        return Awaiting;
      }
      db.Deactivate(n, Released, now);
      reply := Http(200);
    }

    method HandleRevoke(n: Name, reason: string, expectedNode: Option<Node>, expectedCreatedAt: Option<Time>)
      returns (reply: Reply)
      requires Fitted() && Unique()
      modifies db`rows, `lane
      ensures Outcome(Snapshot(), reply) == RevokeStep(old(Snapshot()), n, reason, expectedNode, expectedCreatedAt)
    {
      hide RevokeFrom;
      if !lane.Idle? {
        return Http(503);
      }
      if n !in db.rows {
        return Http(404);
      }
      var row := db.rows[n];
      if row.status.Revoked? || (expectedNode.Some? && row.node != expectedNode.value)
         || (expectedCreatedAt.Some? && row.createdAt != expectedCreatedAt.value) {
        return Http(409);
      }
      var targets := [Target(n, row)];
      var partner := row.replacing;
      if partner.None? {
        partner := db.GetReplacementFor(n);
      }
      if partner.Some? && partner.value in db.rows && !db.rows[partner.value].status.Revoked?
         && db.rows[partner.value].node == row.node {
        targets := targets + [Target(partner.value, db.rows[partner.value])];
      }
      assert targets == RevocationTargets(db.rows, n);
      reply := RevokeRest(targets, 0, reason);
    }

    /** Go on to the next target with something to delete; past the last, revoke what is still there. */
    method RevokeRest(targets: seq<Target>, from: nat, reason: string) returns (reply: Reply)
      requires from <= |targets|
      modifies db`rows, `lane
      ensures Outcome(Snapshot(), reply) == RevokeFrom(old(Snapshot()), targets, from, reason)
    {
      var i := from;
      while i < |targets| && !targets[i].Publishable()
        invariant from <= i <= |targets|
        invariant NextPublishable(targets, i) == NextPublishable(targets, from)
      {
        i := i + 1;
      }
      if i < |targets| {
        lane := Revoking(targets, i, reason);
        return Awaiting;
      }
      lane := Idle;
      var found := RevokeTargets(targets, reason);
      reply := Http(if found then 200 else 409);
    }

    method RevokeTargets(targets: seq<Target>, reason: string) returns (found: bool)
      modifies db`rows
      ensures db.rows == RevokeAll(old(db.rows), targets, now, reason)
      ensures found <==> exists k | 0 <= k < |targets| :: Revocable(old(db.rows), targets[k])
    {
      found := false;
      var i := 0;
      while i < |targets|
        invariant 0 <= i <= |targets|
        invariant RevokeAll(db.rows, targets[i..], now, reason) == RevokeAll(old(db.rows), targets, now, reason)
        invariant forall k | 0 <= k < |targets| ::
                    Revocable(db.rows, targets[k]) ==> Revocable(old(db.rows), targets[k])
        invariant !found ==> forall k | 0 <= k < |targets| ::
                    Revocable(db.rows, targets[k]) == Revocable(old(db.rows), targets[k])
        invariant found <==> exists k | 0 <= k < i :: Revocable(old(db.rows), targets[k])
      {
        assert targets[i..][1..] == targets[i + 1..];
        if StillThere(db.rows, targets[i]) {
          var moved := db.RevokeRegistration(targets[i].name, now, reason);
          found := found || moved;
        }
        i := i + 1;
      }
    }

    method Sweep(n: Name, startedAt: Time) returns (reply: Reply)
      requires Fitted()
      modifies db`rows, `lane
      ensures Outcome(Snapshot(), reply) == SweepStep(cfg, old(Snapshot()), n, startedAt)
    {
      reply := Silent;
      if n !in db.rows || !db.rows[n].Active() {
        return;
      }
      var row := db.rows[n];
      if row.LatestContact() >= startedAt - cfg.abandonment {
        return;
      }
      if row.status.Matured? || row.replacing.Some? || row.lastKnownAddress.Some? {
        lane := Sweeping(n, startedAt);
        return;
      }
      db.Deactivate(n, Abandoned, startedAt);
    }

    // ---- what follows a provider call ----

    /** The provider carries out the call the owner of the lane awaits. */
    method CallProvider()
      requires !lane.Idle? && LaneWellFormed(Snapshot())
      modifies dns
      ensures Snapshot() == AfterCall(old(Snapshot()), true)
    {
      match lane.Pending() {
        case Upsert(name, address) => dns.UpsertRecord(name, address);
        case Delete(name) => dns.DeleteRecord(name);
      }
    }

    method AfterReplacementUp(n: Name, row: Row, address: Address, at: Time) returns (reply: Reply)
      requires Fitted() && lane == ReplacementUp(n, row, address, at)
      modifies db`rows, `lane
      ensures Outcome(Snapshot(), reply) == Continue(cfg, old(Snapshot()), true)
    {
      lane := Idle;
      reply := Http(200);
      if row.replacing.None? {
        return;
      }
      db.SetLastKnownAddress(n, Some(address));
      var previous := row.replacing.value;
      if previous in db.rows && db.rows[previous].status.Matured? && db.rows[previous].node == row.node {
        db.SetLastKnownAddress(previous, None);
        lane := PreviousDown(n, row, previous, at);
        return Awaiting;
      }
      db.CompleteRename(n, previous, row.node, at);
    }

    method GoOn(ok: bool) returns (reply: Reply)
      requires Fitted() && !lane.Idle? && LaneWellFormed(Snapshot())
      modifies db`rows, `lane, `contacts
      ensures Outcome(Snapshot(), reply) == Continue(cfg, old(Snapshot()), ok)
    {
      hide FinishCancel, RevokeFrom, Registrations.CompleteRename;
      var owner := lane;
      if ok && owner.ReplacementUp? {
        reply := AfterReplacementUp(owner.name, owner.row, owner.address, owner.at);
        return;
      }
      lane := Idle;
      match owner {
        case Sweeping(n, startedAt) =>
          if ok {
            db.Deactivate(n, Abandoned, startedAt);
          }
          reply := Silent;
        case Publishing(n, address) =>
          if ok {
            db.SetLastKnownAddress(n, Some(address));
          }
          reply := Http(200);
        case Restoring(n, address, code) =>
          db.SetLastKnownAddress(n, if ok then Some(address) else None);
          reply := Http(code);
        case ReplacementUp(_, _, _, _) => reply := Http(200);
        case PreviousDown(n, row, previous, at) =>
          if ok {
            db.CompleteRename(n, previous, row.node, at);
          }
          reply := Http(200);
        case Cancelling(n, previous, read, observed) =>
          if !ok {
            return Http(503);
          }
          reply := AfterCancelCall(n, previous, read, observed);
        case Releasing(n) =>
          if !ok {
            return Http(503);
          }
          db.Deactivate(n, Released, now);
          reply := Http(200);
        case Revoking(targets, next, reason) =>
          if !ok {
            return Http(503);
          }
          lane := owner;
          reply := RevokeRest(targets, next + 1, reason);
      }
    }

    method Restart()
      requires Fitted()
      modifies this
      ensures Fitted() && fresh(limiter)
      ensures Snapshot() == Restarted(cfg, old(Snapshot()))
    {
      lane, waiting := Idle, [];
      limiter := new GlobalRateLimiter(cfg.limits, db.bucket, now);
    }

    // ---- the whole service ----

    /** An HTTP request. */
    predicate IsRequest(a: Action) {
      a.Register? || a.ReclaimRoute? || a.Heartbeat? || a.Rename? || a.CancelRename? || a.Release? || a.Revoke?
    }

    method Serve(a: Action) returns (reply: Reply)
      requires Fitted() && Unique() && Enabled(cfg, Snapshot(), a) && IsRequest(a)
      modifies this, db, limiter
      ensures Fitted() && limiter == old(limiter)
      ensures Outcome(Snapshot(), reply) == Step(cfg, old(Snapshot()), a)
    {
      hide RegisterStep, ReclaimRouteStep, HeartbeatStep, RenameStep, CancelRenameStep, ReleaseStep, RevokeStep,
           Unique;
      match a {
        case Register(n, node, dynamic, presented, secret, observed) =>
          reply := HandleRegister(n, node, dynamic, presented, secret, observed);
        case ReclaimRoute(n, credential, dynamic, observed) =>
          reply := HandleReclaim(n, credential, dynamic, observed);
        case Heartbeat(credential, observed) => reply := HandleHeartbeat(credential, observed);
        case Rename(credential, n, secret) => reply := HandleRename(credential, n, secret);
        case CancelRename(credential, observed) => reply := HandleCancelRename(credential, observed);
        case Release(credential) => reply := HandleRelease(credential);
        case Revoke(n, reason, expectedNode, expectedCreatedAt) =>
          reply := HandleRevoke(n, reason, expectedNode, expectedCreatedAt);
      }
    }

    /** What happens without a request: time passes, the sweep works, a call returns, a reclaim gets its
        turn, the process restarts. */
    method GoOnAlone(a: Action) returns (reply: Reply)
      requires Fitted() && Enabled(cfg, Snapshot(), a) && !IsRequest(a) && LaneWellFormed(Snapshot())
      modifies this, db, dns, limiter
      ensures Fitted() && (limiter == old(limiter) || fresh(limiter))
      ensures Outcome(Snapshot(), reply) == Step(cfg, old(Snapshot()), a)
    {
      hide SweepStep, Continue, ReclaimInLane, AfterCall, Restarted, Spend;
      reply := Silent;
      match a {
        case Tick(elapsed) => now := now + elapsed;
        case SweepVisit(n, startedAt) => reply := Sweep(n, startedAt);
        case Purge(startedAt) => db.DeleteExpiredRegistrations(startedAt - cfg.cooldown);
        case Resume(ok, applied) => reply := Deliver(ok, applied);
        case Restart(applied, spent) => StopAndStart(applied, spent);
        case Wait(ticket) => waiting := waiting + [ticket];
        case RunWaiting =>
          var ticket := waiting[0];
          waiting := waiting[1..];
          reply := ReclaimHoldingLane(ticket);
      }
    }

    /** Everything the service can do, one action at a time: it goes where the protocol says, and the
        protocol's invariant holds again, with every promise that the action does not harm. To watch no promise
        asks nothing of the action. */
    method Perform(a: Action, ghost w: Promises) returns (reply: Reply)
      requires Fitted() && Inv(w, cfg, Snapshot()) && Enabled(cfg, Snapshot(), a) && Harmless(w, cfg, Snapshot(), a)
      modifies this, db, dns, limiter
      ensures Fitted() && (limiter == old(limiter) || fresh(limiter))
      ensures Outcome(Snapshot(), reply) == Step(cfg, old(Snapshot()), a)
      ensures Inv(w, cfg, Snapshot())
    {
      InvariantIsUnique(w, cfg, Snapshot());
      StepKeeps(w, cfg, Snapshot(), a);
      hide Inv, Harmless, Step, Enabled;
      if IsRequest(a) {
        reply := Serve(a);
      } else {
        reply := GoOnAlone(a);
      }
    }

    /** The awaited call returns, having taken effect or not. */
    method Deliver(ok: bool, applied: bool) returns (reply: Reply)
      requires Fitted() && !lane.Idle? && LaneWellFormed(Snapshot())
      modifies dns, db`rows, `lane, `contacts
      ensures Outcome(Snapshot(), reply) == Continue(cfg, AfterCall(old(Snapshot()), applied), ok)
    {
      hide Continue;
      if applied {
        CallProvider();
      }
      reply := GoOn(ok);
    }

    /** The process dies, perhaps with the awaited call or an unused token on its way, and starts again. */
    method StopAndStart(applied: bool, spent: bool)
      requires Fitted() && (applied ==> !lane.Idle?) && LaneWellFormed(Snapshot())
      modifies this, db`bucket, dns, limiter
      ensures Fitted() && fresh(limiter)
      ensures Outcome(Snapshot(), Silent) == Step(cfg, old(Snapshot()), Action.Restart(applied, spent))
    {
      hide Restarted, Spend;
      if applied {
        CallProvider();
      }
      if spent {
        var allowed := SpendToken();
      }
      Restart();
    }
  }

  lemma InvariantIsUnique(w: Promises, cfg: Config, s: State)
    requires Inv(w, cfg, s)
    ensures CredentialsDistinct(s.rows) && LaneWellFormed(s)
  {
  }
}
