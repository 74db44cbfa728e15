/** What renames, cancellations and revocations answer, exactly when, and what they bring about. */
module RenameAnswers {
  import opened Prelude
  import opened Registrations
  import opened RateLimit
  import opened DnsProvider
  import opened Protocol
  import opened TableRules
  import opened ProtocolInvariant
  import opened Answers

  // ---- rename ----

  /** A row that replaces another cannot be renamed, nor can a row to its own name; and while a replacement of the same
      node stands, inside its cooldown if it was abandoned, only that very rename can be asked for again. */
  lemma RenameRefused(cfg: Config, s: State, c: Credential, n: Name, secret: Credential, current: Name)
    requires CredentialsDistinct(s.rows) && s.lane.Idle? && Proves(s.rows, c, current) && secret !in s.issued
    ensures s.rows[current].replacing.Some? ==> Step(cfg, s, Rename(c, n, secret)) == Outcome(s, Http(409))
    ensures s.rows[current].replacing.None? && n == current ==>
              Step(cfg, s, Rename(c, n, secret)) == Outcome(s, Http(400))
    ensures s.rows[current].replacing.None? && n != current && StandingClaim(cfg, s, current).Some?
            && StandingClaim(cfg, s, current) != Some(n) ==>
              Step(cfg, s, Rename(c, n, secret)) == Outcome(s, Http(409))
  {
    LooksUp(s.rows, c, current);
    hide RenameFresh, RetryRename;
  }

  /** The newest row that names `current` as replaced, if it is of the same node and, if abandoned, inside its
      cooldown. */
  function StandingClaim(cfg: Config, s: State, current: Name): Option<Name>
    requires current in s.rows
  {
    var claim := ReplacementFor(s.rows, current);
    if claim.Some? && s.rows[claim.value].node == s.rows[current].node
       && !(s.rows[claim.value].status.Abandoned? && CooledDown(cfg, s.rows[claim.value], s.now))
    then claim else None
  }

  /** A claim that does not stand is withdrawn from the table: the claim of another node is let go of, an expired
      replacement is deleted. */
  function ClaimWithdrawn(s: State, current: Name): Table
    requires current in s.rows
  {
    var claim := ReplacementFor(s.rows, current);
    if claim.None? then s.rows
    else if s.rows[claim.value].node != s.rows[current].node
    then s.rows[claim.value := s.rows[claim.value].(replacing := None)]
    else s.rows - {claim.value}
  }

  function InContact(cfg: Config, row: Row, now: Time): Row {
    row.(lastContactAt := Some(now), contactStartedAt := Some(WindowAfter(cfg, row, now)))
  }

  /** A rename asked for again: an abandoned replacement comes back if the table has room and no other pending row
      replaces the same; both rows are in contact, and the replacement has a new secret. */
  ghost predicate AskedAgain(cfg: Config, o: Outcome, s: State, current: Name, n: Name, secret: Credential)
    requires current in s.rows && n in s.rows
  {
    var row := s.rows[n];
    if row.status.Abandoned? && |ActiveNames(s.rows)| >= cfg.cumulativeCap then o == Outcome(s, Http(503))
    else if row.status.Abandoned?
            && exists m :: m in s.rows && m != n && s.rows[m].status.Pending? && s.rows[m].replacing == Some(current)
    then o == Outcome(s, Http(500))
    else
      && o.reply == Http(201)
      && o.state == s.(rows := o.state.rows, contacts := o.state.contacts, issued := s.issued + {secret})
      && o.state.rows
         == s.rows[current := InContact(cfg, s.rows[current], s.now)]
                  [n := InContact(cfg, row, s.now).(
                          credential := secret, status := Pending,
                          releasedAt := if row.status.Abandoned? then None else row.releasedAt)]
  }

  lemma RenameAskedAgain(cfg: Config, s: State, c: Credential, n: Name, secret: Credential, current: Name)
    requires CredentialsDistinct(s.rows) && s.lane.Idle? && Proves(s.rows, c, current) && secret !in s.issued
    requires s.rows[current].replacing.None? && n != current && StandingClaim(cfg, s, current) == Some(n)
    ensures AskedAgain(cfg, Step(cfg, s, Rename(c, n, secret)), s, current, n, secret)
  {
    LooksUp(s.rows, c, current);
    RetryAnswers(cfg, s, current, n, secret);
    hide RetryRename, RenameFresh, ActiveNames, AskedAgain;
  }

  lemma RetryAnswers(cfg: Config, s: State, current: Name, n: Name, secret: Credential)
    requires current in s.rows && n in s.rows && n != current
    requires s.rows[n].Claims() && s.rows[n].replacing == Some(current)
    requires s.rows[n].status.Abandoned? ==> !CooledDown(cfg, s.rows[n], s.now)
    ensures AskedAgain(cfg, RetryRename(cfg, s, current, n, secret), s, current, n, secret)
  {
    hide ActiveNames;
    if !RetryIsRefused(cfg, s, n) {
      RetryRenameRows(cfg, s, current, n, secret);
    }
  }

  /** The new name must be free or past its cooldown, in which case its row goes, the table must have room, and the
      bucket a token, which is taken; then the old row is in contact and, unless another pending row still claims it, a
      pending replacement of its node is there. */
  ghost predicate FreshAnswered(
    cfg: Config, o: Outcome, s: State, current: Name, n: Name, secret: Credential, token: bool)
    requires current in s.rows && n != current
  {
    var t := s.rows - {n};
    if n in s.rows && (s.rows[n].Active() || !CooledDown(cfg, s.rows[n], s.now))
    then o.reply == Http(409) && o.state.rows == s.rows && Priced(cfg, s, o.state, false)
    else if |ActiveNames(t)| >= cfg.cumulativeCap
    then o.reply == Http(503) && o.state.rows == t && Priced(cfg, s, o.state, false)
    else if !token then o.reply == Http(429) && o.state.rows == t && Priced(cfg, s, o.state, false)
    else
      var t' := t[current := InContact(cfg, t[current], s.now)];
      && Priced(cfg, s, o.state, true)
      && (if StillClaimed(t, current) then o.reply == Http(409) && o.state.rows == t'
          else && o.reply == Http(201)
               && o.state.rows == t'[n := Row(secret, t[current].node, Pending, t[current].dynamic, s.now, None, None,
                                              None, None, None, Some(current), None)])
  }

  /** A new rename, once a claim that does not stand is withdrawn. */
  lemma RenameAnswers(
    w: Promises, cfg: Config, s: State, c: Credential, n: Name, secret: Credential, current: Name)
    requires Core(w, cfg, s) && cfg.Valid() && s.bucket.Valid(cfg.limits, s.now) && secret !in s.issued
    requires s.lane.Idle? && Proves(s.rows, c, current)
    requires s.rows[current].replacing.None? && n != current && StandingClaim(cfg, s, current).None?
    ensures var t := ClaimWithdrawn(s, current);
            var o := Step(cfg, s, Rename(c, n, secret));
            && current in t && t[current] == s.rows[current]
            && o.state.lane.Idle? && o.state.records == s.records
            && FreshAnswered(
                 cfg, o, s.(rows := t), current, n, secret,
                 cfg.limits.capacity >= 1.0
                 && s.bucket.tokens + (s.now - s.bucket.lastRefill) as real * cfg.limits.rate >= 1.0)
  {
    hide RenameFresh, RenameStep, ActiveNames, Allows, FreshAnswered, ClaimWithdrawn, StandingClaim, Rules;
    CoreCredentials(w, cfg, s);
    AllowsExactly(cfg.limits, s.bucket, s.now);
    SecretIsNew(w, cfg, s, secret);
    RenameWithdraws(cfg, s, c, n, secret, current);
    FreshAnswers(cfg, s.(rows := ClaimWithdrawn(s, current)), current, n, secret);
  }

  lemma CoreCredentials(w: Promises, cfg: Config, s: State)
    requires Core(w, cfg, s)
    ensures CredentialsDistinct(s.rows)
  {
  }

  lemma RenameWithdraws(cfg: Config, s: State, c: Credential, n: Name, secret: Credential, current: Name)
    requires CredentialsDistinct(s.rows) && s.lane.Idle? && Proves(s.rows, c, current)
    requires s.rows[current].replacing.None? && n != current && StandingClaim(cfg, s, current).None?
    ensures var t := ClaimWithdrawn(s, current);
            && current in t && t[current] == s.rows[current]
            && (forall m | m in t :: m in s.rows && t[m].credential == s.rows[m].credential)
            && RenameStep(cfg, s, c, n, secret)
               == RenameFresh(cfg, s.(rows := t), current, s.rows[current], n, secret)
  {
    LooksUp(s.rows, c, current);
    hide RenameFresh, RetryRename;
    assert s == s.(rows := s.rows);
  }

  ghost predicate StillClaimed(t: Table, current: Name) {
    exists m :: m in t && t[m].status.Pending? && t[m].replacing == Some(current)
  }

  /** A contact makes no difference to the indexes. */
  lemma IndexAdmits(cfg: Config, t: Table, current: Name, now: Time, n: Name, secret: Credential)
    requires current in t && n !in t && forall m | m in t :: t[m].credential != secret
    ensures CanInsert(t[current := InContact(cfg, t[current], now)], n, secret, Some(current))
            <==> !StillClaimed(t, current)
  {
    hide WindowAfter;
    var t' := t[current := InContact(cfg, t[current], now)];
    assert forall m | m in t :: t'[m].status == t[m].status && t'[m].replacing == t[m].replacing;
    if StillClaimed(t, current) {
      var m :| m in t && t[m].status.Pending? && t[m].replacing == Some(current);
      assert t'[m].replacing == Some(current);
    }
  }

  lemma FreshAnswers(cfg: Config, s: State, current: Name, n: Name, secret: Credential)
    requires current in s.rows && n != current && forall m | m in s.rows :: s.rows[m].credential != secret
    ensures var o := RenameFresh(cfg, s, current, s.rows[current], n, secret);
            var t := s.rows - {n};
            && o.state.lane == s.lane && o.state.records == s.records
            && FreshAnswered(cfg, o, s, current, n, secret, Allows(cfg.limits, s.bucket, s.now))
  {
    SpendIsPriced(cfg, s);
    hide ActiveNames, Refill, Allows, CanInsert, StillClaimed;
    var t := s.rows - {n};
    IndexAdmits(cfg, t, current, s.now, n, secret);
    assert SetContactWindow(t, current, s.now, ContactStart(cfg, s.rows[current], s.now))
        == t[current := InContact(cfg, t[current], s.now)];
  }

  // ---- cancel-rename ----

  /** The replacement a cancellation by the row `m` is about: `m` itself if it replaces another, and otherwise the
      newest row that replaces it. */
  function Concerned(t: Table, m: Name): Option<Name>
    requires m in t
  {
    if t[m].replacing.Some? then Some(m) else ReplacementFor(t, m)
  }

  /** The caps look at the table without the replacement. */
  lemma CapsWithout(cfg: Config, t: Table, r: Name, previous: Name)
    requires r in t && previous in t && t[r].node == t[previous].node
    ensures ReviveRefusal(cfg, t, t[r], t[previous])
         == if NodeActive(t - {r}, t[previous].node) then Some(403)
            else if |ActiveNames(t - {r})| >= cfg.cumulativeCap then Some(503) else None
  {
    var own := ActiveNamesOf(t, t[previous].node);
    ActiveAfterUpdate(t, r, t[r]);
    assert ActiveNamesOf(t - {r}, t[previous].node) == own - {r};
    assert t[r].Active() <==> r in own;
    assert t[r].Active() <==> r in ActiveNames(t);
    NodeIsFull(t - {r}, t[previous].node);
    assert |ActiveNamesOf(t - {r}, t[previous].node)| == |own| - if t[r].Active() then 1 else 0;
    assert |ActiveNames(t - {r})| == |ActiveNames(t)| - if t[r].Active() then 1 else 0;
  }

  /** A cancellation with the lane free. It is about a pending or abandoned replacement; the replaced row must still be
      there and of the same node, and if it was abandoned it must be inside its cooldown and find room, the
      replacement not counted. Then the replacement's record goes first. */
  lemma CancelAnswers(cfg: Config, s: State, c: Credential, observed: Option<Address>, m: Name)
    requires CredentialsDistinct(s.rows) && s.lane.Idle? && m in s.rows && s.rows[m].credential == c
    ensures var o := Step(cfg, s, CancelRename(c, observed));
            var target := Concerned(s.rows, m);
            if s.rows[m].status.Revoked? || target.None? || !s.rows[target.value].Claims()
            then o == Outcome(s, Http(401))
            else
              var r, previous := target.value, s.rows[target.value].replacing.value;
              if previous !in s.rows || s.rows[previous].node != s.rows[r].node
                 || (s.rows[previous].status.Abandoned? && CooledDown(cfg, s.rows[previous], s.now))
              then o == Outcome(s, Http(409))
              else if s.rows[previous].status.Abandoned? && NodeActive(s.rows - {r}, s.rows[previous].node)
              then o == Outcome(s, Http(403))
              else if s.rows[previous].status.Abandoned? && |ActiveNames(s.rows - {r})| >= cfg.cumulativeCap
              then o == Outcome(s, Http(503))
              else o == Outcome(s.(lane := Cancelling(r, previous, s.rows[previous], observed)), Awaiting)
                   && Calls(o.state, Delete(r))
  {
    hide ByCredential, CancelTarget, Concerned, ReviveRefusal, ActiveNames, NodeActive, CancelRenameStep;
    ConcernedIsTarget(s.rows, c, m);
    CancelStepIs(cfg, s, c, observed, m);
    var target := Concerned(s.rows, m);
    if target.Some? && s.rows[target.value].Claims() {
      var r, previous := target.value, s.rows[target.value].replacing.value;
      if previous in s.rows && s.rows[previous].node == s.rows[r].node {
        CapsWithout(cfg, s.rows, r, previous);
      }
    }
  }

  lemma CancelStepIs(cfg: Config, s: State, c: Credential, observed: Option<Address>, m: Name)
    requires s.lane.Idle? && m in s.rows && ByCredential(s.rows, c) == Some(m)
    requires CancelTarget(s.rows, c) == Concerned(s.rows, m)
    ensures var o := CancelRenameStep(cfg, s, c, observed);
            var target := Concerned(s.rows, m);
            if s.rows[m].status.Revoked? || target.None? || !s.rows[target.value].Claims()
            then o == Outcome(s, Http(401))
            else
              var r, previous := target.value, s.rows[target.value].replacing.value;
              if previous !in s.rows || s.rows[previous].node != s.rows[r].node
                 || (s.rows[previous].status.Abandoned? && CooledDown(cfg, s.rows[previous], s.now))
              then o == Outcome(s, Http(409))
              else
                var refusal := ReviveRefusal(cfg, s.rows, s.rows[r], s.rows[previous]);
                if s.rows[previous].status.Abandoned? && refusal.Some? then o == Outcome(s, Http(refusal.value))
                else o == Outcome(s.(lane := Cancelling(r, previous, s.rows[previous], observed)), Awaiting)
  {
    hide ByCredential, CancelTarget, ReviveRefusal;
  }

  lemma ConcernedIsTarget(t: Table, c: Credential, m: Name)
    requires CredentialsDistinct(t) && m in t && t[m].credential == c
    ensures ByCredential(t, c) == Some(m) && CancelTarget(t, c) == Concerned(t, m)
    ensures Concerned(t, m).Some? ==>
              Concerned(t, m).value in t && t[Concerned(t, m).value].replacing.Some?
  {
    LooksUp(t, c, m);
  }

  /** A credential nobody has cancels nothing. */
  lemma CancelUnproven(cfg: Config, s: State, c: Credential, observed: Option<Address>)
    requires s.lane.Idle? && forall m | m in s.rows :: s.rows[m].credential != c
    ensures Step(cfg, s, CancelRename(c, observed)) == Outcome(s, Http(401))
  {
  }

  /** A cancellation whose replaced row was not abandoned, once the provider has answered: the replacement and its record
      are gone, and the replaced row, if it is active, is in contact. If the provider fails, nothing has changed. */
  lemma CancelTakesBack(cfg: Config, s: State)
    requires s.lane.Cancelling? && s.lane.name != s.lane.previous && !s.lane.previousRow.status.Abandoned?
    ensures var r, previous, read := s.lane.name, s.lane.previous, s.lane.previousRow;
            var o := Step(cfg, s, Resume(true, true));
            && o.state.lane.Idle? && o.state.records == s.records - {r}
            && (if r in s.rows && s.rows[r].Claims() then
                  var t := s.rows - {r};
                  && o.reply == Http(200)
                  && o.state.rows ==
                       if previous in t && t[previous].Active() then
                         t[previous := t[previous].(
                             lastContactAt := Some(s.now),
                             contactStartedAt := if t[previous].status.Pending? then Some(WindowAfter(cfg, read, s.now))
                                                 else t[previous].contactStartedAt)]
                       else t
                else o.reply == Http(409) && o.state.rows == s.rows)
            && Step(cfg, s, Resume(false, false)) == Outcome(s.(lane := Idle), Http(503))
  {
  }

  /** Whether the abandoned row may still be revived when its replacement's record is gone: 409 when either row is no
      longer what it was or the cooldown is over, then the caps, then the replacement's claim, then the index. */
  ghost function RevivalRefusal(cfg: Config, s: State, r: Name, previous: Name): Option<int> {
    var t := s.rows - {r};
    if r !in s.rows || !(s.rows[r].status.Pending? || s.rows[r].status.Abandoned?)
       || previous !in s.rows || !s.rows[previous].status.Abandoned? || s.rows[r].node != s.rows[previous].node
       || CooledDown(cfg, s.rows[previous], s.now)
    then Some(409)
    else if NodeActive(t, s.rows[previous].node) then Some(403)
    else if |ActiveNames(t)| >= cfg.cumulativeCap then Some(503)
    else if s.rows[r].replacing.None? then Some(409)
    else if previous in t && ClaimTaken(t, previous) then Some(500)
    else None
  }

  /** The abandoned row comes back, live if it ever was, with its window restarted and its address forgotten. */
  function Revived(row: Row, now: Time): Row {
    row.(status := if row.maturedAt.Some? then Matured else Pending, releasedAt := None, lastContactAt := Some(now),
         contactStartedAt := Some(now), lastKnownAddress := None)
  }

  /** A cancellation whose replaced row was abandoned, once the provider has answered: the replacement is gone and the
      row is back, and a live one is about to be published again at the observed address. */
  lemma CancelRevives(cfg: Config, s: State)
    requires s.lane.Cancelling? && s.lane.name != s.lane.previous && s.lane.previousRow.status.Abandoned?
    ensures var r, previous, observed := s.lane.name, s.lane.previous, s.lane.observed;
            var o := Step(cfg, s, Resume(true, true));
            var refusal := RevivalRefusal(cfg, s, r, previous);
            && o.state.records == s.records - {r}
            && (if refusal.Some? then o.reply == Http(refusal.value) && o.state.lane.Idle? && o.state.rows == s.rows
                else
                  && o.state.rows == (s.rows - {r})[previous := Revived(s.rows[previous], s.now)]
                  && (if s.rows[previous].maturedAt.Some? && observed.Some?
                      then o.reply.Awaiting? && o.state.lane == Restoring(previous, observed.value, 200)
                      else o.reply == Http(200) && o.state.lane.Idle?))
  {
    hide ActiveNames, NodeActive, ReviveRefusal, FinishCancel, RevivalRefusal, RevokeFrom;
    var r, previous := s.lane.name, s.lane.previous;
    if r in s.rows && previous in s.rows && s.rows[r].node == s.rows[previous].node {
      CapsWithout(cfg, s.rows, r, previous);
    }
    var a := AfterCall(s, true).(lane := Idle);
    RevivalFinishes(cfg, a, r, previous, s.lane.previousRow, s.lane.observed);
    assert Step(cfg, s, Resume(true, true)) == FinishCancel(cfg, a, r, previous, s.lane.previousRow, s.lane.observed);
    assert RevivalRefusal(cfg, a, r, previous) == RevivalRefusal(cfg, s, r, previous) by {
      RefusalByRows(cfg, a, s, r, previous);
    }
  }

  /** So a live row that comes back is published at the observed address once the provider has answered again; if it
      fails, the row has no known address, and the next heartbeat publishes it. */
  lemma CancelRestores(cfg: Config, s: State, address: Address)
    requires s.lane.Cancelling? && s.lane.name != s.lane.previous && s.lane.previousRow.status.Abandoned?
    requires RevivalRefusal(cfg, s, s.lane.name, s.lane.previous).None?
    requires s.rows[s.lane.previous].maturedAt.Some? && s.lane.observed == Some(address)
    ensures var r, previous := s.lane.name, s.lane.previous;
            var s1 := Next(cfg, s, Resume(true, true));
            var row := Revived(s.rows[previous], s.now);
            && !s1.lane.Idle? && LaneWellFormed(s1) && row.status.Matured?
            && (var o := Step(cfg, s1, Resume(true, true));
                && o.reply == Http(200) && o.state.lane.Idle?
                && o.state.records == (s.records - {r})[previous := address]
                && o.state.rows == (s.rows - {r})[previous := row.(lastKnownAddress := Some(address))])
            && (var o := Step(cfg, s1, Resume(false, false));
                && o.reply == Http(200) && o.state.lane.Idle? && o.state.records == s.records - {r}
                && o.state.rows == (s.rows - {r})[previous := row])
  {
    hide Step, RevivalRefusal;
    CancelRevives(cfg, s);
    PublicationAnswers(cfg, Next(cfg, s, Resume(true, true)));
  }

  lemma RefusalByRows(cfg: Config, s: State, s': State, r: Name, previous: Name)
    requires s.rows == s'.rows && s.now == s'.now
    ensures RevivalRefusal(cfg, s, r, previous) == RevivalRefusal(cfg, s', r, previous)
  {
  }

  lemma RevivalFinishes(cfg: Config, s: State, r: Name, previous: Name, read: Row, observed: Option<Address>)
    requires s.lane.Idle? && r != previous && read.status.Abandoned?
    requires r in s.rows && previous in s.rows && s.rows[r].node == s.rows[previous].node ==>
               ReviveRefusal(cfg, s.rows, s.rows[r], s.rows[previous])
               == if NodeActive(s.rows - {r}, s.rows[previous].node) then Some(403)
                  else if |ActiveNames(s.rows - {r})| >= cfg.cumulativeCap then Some(503) else None
    ensures var o := FinishCancel(cfg, s, r, previous, read, observed);
            var refusal := RevivalRefusal(cfg, s, r, previous);
            && o.state.records == s.records
            && (if refusal.Some? then o == Outcome(s, Http(refusal.value))
                else
                  && o.state.rows == (s.rows - {r})[previous := Revived(s.rows[previous], s.now)]
                  && (if s.rows[previous].maturedAt.Some? && observed.Some?
                      then o.reply.Awaiting? && o.state.lane == Restoring(previous, observed.value, 200)
                      else o.reply == Http(200) && o.state.lane.Idle?))
  {
    hide ActiveNames, NodeActive, ReviveRefusal, ContactStart;
  }

  // ---- revoke ----

  /** What a revocation takes with it: the other half of a rename of the same node, unless it is revoked already. */
  function Partner(t: Table, n: Name): (p: Option<Name>)
    requires n in t
    ensures p.Some? ==> p.value in t
  {
    var p := if t[n].replacing.Some? then t[n].replacing else ReplacementFor(t, n);
    if p.Some? && p.value in t && t[p.value].node == t[n].node && !t[p.value].status.Revoked? then p else None
  }

  function Together(t: Table, n: Name): set<Name>
    requires n in t
  {
    {n} + if Partner(t, n).Some? then {Partner(t, n).value} else {}
  }

  /** A row that may have a record: a live one, or a pending one with a known address. */
  predicate MayHaveRecord(row: Row) {
    row.status.Matured? || (row.status.Pending? && row.lastKnownAddress.Some?)
  }

  lemma RevokeRefused(
    cfg: Config, s: State, n: Name, reason: string, expectedNode: Option<Node>, expectedCreatedAt: Option<Time>)
    requires s.lane.Idle?
    requires n in s.rows ==>
               || s.rows[n].status.Revoked?
               || (expectedNode.Some? && expectedNode.value != s.rows[n].node)
               || (expectedCreatedAt.Some? && expectedCreatedAt.value != s.rows[n].createdAt)
    ensures Step(cfg, s, Revoke(n, reason, expectedNode, expectedCreatedAt))
         == Outcome(s, Http(if n in s.rows then 409 else 404))
  {
    hide RevokeFrom;
  }

  /** What a run is answered in the end: the reply `first`, or that of the last action. */
  ghost function LastReply(cfg: Config, s: State, run: seq<Action>, first: Reply): Reply
    requires Legal(cfg, s, run)
    decreases |run|
  {
    if run == [] then first
    else LastReply(cfg, Next(cfg, s, run[0]), run[1..], Step(cfg, s, run[0]).reply)
  }

  /** The names of the targets from `i` on that may have a record. */
  function Published(targets: seq<Target>, i: nat): set<Name>
    requires i <= |targets|
  {
    set k | i <= k < |targets| && MayHaveRecord(targets[k].row) :: targets[k].name
  }

  /** With a provider that answers, a revocation runs to its end: every record goes that there may be, and then every
      row at once. A failure on the way leaves the rows alone. */
  lemma {:induction false} RevocationRuns(cfg: Config, s: State, targets: seq<Target>, i: nat, reason: string)
    returns (run: seq<Action>)
    requires i <= |targets|
    ensures forall a | a in run :: a == Resume(true, true)
    ensures var s1 := RevokeFrom(s, targets, i, reason).state;
            && Legal(cfg, s1, run)
            && Run(cfg, s1, run) == s.(lane := Idle, rows := RevokeAll(s.rows, targets, s.now, reason),
                                       records := s.records - Published(targets, i))
            && LastReply(cfg, s1, run, RevokeFrom(s, targets, i, reason).reply)
               == Http(if exists k | 0 <= k < |targets| :: Revocable(s.rows, targets[k]) then 200 else 409)
    ensures var s1 := RevokeFrom(s, targets, i, reason).state;
            s1.lane.Revoking? ==>
              && Calls(s1, Delete(targets[s1.lane.next].name))
              && Step(cfg, s1, Resume(false, false)) == Outcome(s.(lane := Idle), Http(503))
    decreases |targets| - i
  {
    hide RevokeAll, RevokeFrom, Step, Calls, Published, NextPublishable;
    OneDeletion(cfg, s, targets, i, reason);
    var j := NextPublishable(targets, i);
    if j == |targets| {
      run := [];
    } else {
      var s1 := RevokeFrom(s, targets, i, reason).state;
      var s2 := s.(lane := s1.lane, records := s.records - {targets[j].name});
      var rest := RevocationRuns(cfg, s2, targets, j + 1, reason);
      run := [Resume(true, true)] + rest;
      StepThen(cfg, s1, Resume(true, true), rest);
      assert run[1..] == rest;
      assert s2.records - Published(targets, j + 1) == s.records - Published(targets, i);
    }
  }

  /** The revocation up to its next deletion, or its end. */
  lemma OneDeletion(cfg: Config, s: State, targets: seq<Target>, i: nat, reason: string)
    requires i <= |targets|
    ensures var j, s1 := NextPublishable(targets, i), RevokeFrom(s, targets, i, reason).state;
            if j == |targets|
            then && Published(targets, i) == {}
                 && s1 == s.(lane := Idle, rows := RevokeAll(s.rows, targets, s.now, reason))
                 && RevokeFrom(s, targets, i, reason).reply
                    == Http(if exists k | 0 <= k < |targets| :: Revocable(s.rows, targets[k]) then 200 else 409)
            else && Published(targets, i) == {targets[j].name} + Published(targets, j + 1)
                 && s1.lane.Revoking? && s1.lane.next == j && Calls(s1, Delete(targets[j].name))
                 && Enabled(cfg, s1, Resume(true, true)) && Enabled(cfg, s1, Resume(false, false))
                 && s1.lane.targets == targets
                 && Step(cfg, s1, Resume(true, true))
                    == RevokeFrom(s.(lane := s1.lane, records := s.records - {targets[j].name}), targets, j + 1, reason)
                 && Step(cfg, s1, Resume(false, false)) == Outcome(s.(lane := Idle), Http(503))
  {
    hide RevokeAll;
  }

  /** So revoking a name ends with it revoked, and the other half of its rename with it, at the time and for the reason
      given; neither has a record if it may have had one, and nothing else has changed. */
  lemma RevokeTakesDown(
    cfg: Config, s: State, n: Name, reason: string, expectedNode: Option<Node>, expectedCreatedAt: Option<Time>)
    returns (run: seq<Action>)
    requires s.lane.Idle? && n in s.rows && !s.rows[n].status.Revoked? && s.rows[n].replacing != Some(n)
    requires expectedNode.Some? ==> expectedNode.value == s.rows[n].node
    requires expectedCreatedAt.Some? ==> expectedCreatedAt.value == s.rows[n].createdAt
    ensures forall a | a in run :: a == Resume(true, true)
    ensures var s1 := Next(cfg, s, Revoke(n, reason, expectedNode, expectedCreatedAt));
            && Legal(cfg, s1, run)
            && Run(cfg, s1, run)
               == s.(rows := map m | m in s.rows ::
                       if m in Together(s.rows, n)
                       then s.rows[m].(status := Revoked, releasedAt := Some(s.now), revokedReason := Some(reason))
                       else s.rows[m],
                     records := s.records - set m | m in Together(s.rows, n) && MayHaveRecord(s.rows[m]))
            && LastReply(cfg, s1, run, Step(cfg, s, Revoke(n, reason, expectedNode, expectedCreatedAt)).reply)
               == Http(200)
  {
    var targets := RevocationTargets(s.rows, n);
    run := RevocationRuns(cfg, s, targets, 0, reason);
    TargetsAre(s.rows, n);
    TwoRevoked(s.rows, n, s.now, reason);
    assert Revocable(s.rows, targets[0]);
    hide RevokeFrom, RevokeAll, RevocationTargets, Published, Together;
  }

  lemma TargetsAre(t: Table, n: Name)
    requires n in t && t[n].replacing != Some(n)
    ensures var p := Partner(t, n);
            && RevocationTargets(t, n) == [Target(n, t[n])] + (if p.Some? then [Target(p.value, t[p.value])] else [])
            && p != Some(n)
            && Published(RevocationTargets(t, n), 0) == set m | m in Together(t, n) && MayHaveRecord(t[m])
  {
    var p := Partner(t, n);
    var targets := RevocationTargets(t, n);
    assert targets[0] == Target(n, t[n]);
    assert p.Some? ==> |targets| == 2 && targets[1] == Target(p.value, t[p.value]);
  }

  /** The row is a target whose credential is still the one that was read, and is not revoked yet. */
  predicate IsTaken(t: Table, targets: seq<Target>, m: Name)
    requires m in t
  {
    && !t[m].status.Revoked?
    && exists k :: 0 <= k < |targets| && targets[k].name == m && targets[k].row.credential == t[m].credential
  }

  /** Whatever ran during the calls, the writes take exactly the targets that still are what they were. */
  lemma {:induction false} RevokesExactly(t: Table, targets: seq<Target>, at: Time, reason: string, m: Name)
    requires m in t
    ensures var t' := RevokeAll(t, targets, at, reason);
            && m in t'
            && t'[m] == if IsTaken(t, targets, m)
                        then t[m].(status := Revoked, releasedAt := Some(at), revokedReason := Some(reason)) else t[m]
    decreases |targets|
  {
    if targets != [] {
      var rest := targets[1..];
      var t1 := if StillThere(t, targets[0]) then RevokeRow(t, targets[0].name, at, reason) else t;
      RevokesExactly(t1, rest, at, reason, m);
      if IsTaken(t, targets, m) {
        var k :| 0 <= k < |targets| && targets[k].name == m && targets[k].row.credential == t[m].credential;
        assert k > 0 ==> rest[k - 1] == targets[k];
      }
      assert t1[m] == t[m] && IsTaken(t, rest, m) ==> IsTaken(t, targets, m);
    }
  }

  lemma TwoRevoked(t: Table, n: Name, at: Time, reason: string)
    requires n in t && !t[n].status.Revoked? && t[n].replacing != Some(n)
    ensures RevokeAll(t, RevocationTargets(t, n), at, reason)
         == map m | m in t ::
              if m in Together(t, n)
              then t[m].(status := Revoked, releasedAt := Some(at), revokedReason := Some(reason)) else t[m]
  {
    TargetsAre(t, n);
    var p := Partner(t, n);
    var targets := RevocationTargets(t, n);
    hide RevocationTargets;
    var t' := RevokeAll(t, targets, at, reason);
    RevokeAllNames(t, targets, at, reason);
    forall m | m in t
      ensures t'[m] == if m in Together(t, n)
                       then t[m].(status := Revoked, releasedAt := Some(at), revokedReason := Some(reason)) else t[m]
    {
      RevokesExactly(t, targets, at, reason, m);
      assert targets[0].name == n && (p.Some? ==> targets[1].name == p.value);
    }
  }

  lemma {:induction false} RevokeAllNames(t: Table, targets: seq<Target>, at: Time, reason: string)
    ensures RevokeAll(t, targets, at, reason).Keys == t.Keys
    decreases |targets|
  {
    if targets != [] {
      var t1 := if StillThere(t, targets[0]) then RevokeRow(t, targets[0].name, at, reason) else t;
      RevokeAllNames(t1, targets[1..], at, reason);
    }
  }
}
