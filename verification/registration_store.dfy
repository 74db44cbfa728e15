/** The database connection: the statements of `Registrations`, run in place on the one table. */
module RegistrationStore {
  import opened Prelude
  import opened Registrations
  import opened RateLimit

  /** How a statement that may fail ended: nothing to do, refused by an index and rolled back, or done. */
  datatype Commit = Absent | Refused | Done

  class Database {
    var rows: Table
    var bucket: Option<Bucket>

    constructor ()
      ensures rows == map[] && bucket == None
    {
      rows, bucket := map[], None;
    }

    method InsertRegistration(
      n: Name, credential: Credential, node: Node, dynamic: bool, createdAt: Time, replacing: Option<Name>)
      returns (ok: bool)
      modifies this`rows
      ensures ok == CanInsert(old(rows), n, credential, replacing)
      ensures rows == if ok then old(rows)[n := Fresh(credential, node, dynamic, createdAt, replacing)] else old(rows)
    {
      ok := CanInsert(rows, n, credential, replacing);
      if ok {
        rows := rows[n := Fresh(credential, node, dynamic, createdAt, replacing)];
      }
    }

    method GetByCredential(credential: Credential) returns (r: Option<Name>)
      requires CredentialsDistinct(rows)
      ensures r == ByCredential(rows, credential)
    {
      r := None;
      if n :| n in rows && rows[n].credential == credential {
        r := Some(n);
      }
    }

    method GetReplacementFor(prior: Name) returns (r: Option<Name>)
      ensures r == ReplacementFor(rows, prior)
    {
      r := None;
      var claims := ClaimsOn(rows, prior);
      if claims != {} {
        ghost var first := FirstExists(rows, claims);
        var n :| FirstOf(rows, claims, n);
        r := Some(n);
      } else {
        assert forall n | n in rows && rows[n].Claims() && rows[n].replacing == Some(prior) :: n in claims;
      }
    }

    method CountActive() returns (count: nat)
      ensures count == |ActiveNames(rows)|
    {
      count := |ActiveNames(rows)|;
    }

    method CountActiveForNode(node: Node) returns (count: nat)
      ensures count == |ActiveNamesOf(rows, node)|
    {
      count := |ActiveNamesOf(rows, node)|;
    }

    method SetContactWindow(n: Name, last: Time, started: Time)
      modifies this`rows
      ensures rows == Registrations.SetContactWindow(old(rows), n, last, started)
    {
      if n in rows {
        rows := rows[n := rows[n].(lastContactAt := Some(last), contactStartedAt := Some(started))];
      }
    }

    method SetLastKnownAddress(n: Name, address: Option<Address>)
      modifies this`rows
      ensures rows == Registrations.SetLastKnownAddress(old(rows), n, address)
    {
      if n in rows {
        rows := rows[n := rows[n].(lastKnownAddress := address)];
      }
    }

    method ReplaceCredential(n: Name, credential: Credential)
      modifies this`rows
      ensures rows == Registrations.ReplaceCredential(old(rows), n, credential)
    {
      if n in rows && rows[n].status.Pending? {
        rows := rows[n := rows[n].(credential := credential)];
      }
    }

    method DetachReplacement(n: Name, previous: Name)
      modifies this`rows
      ensures rows == Registrations.DetachReplacement(old(rows), n, previous)
    {
      if n in rows && rows[n].Claims() && rows[n].replacing == Some(previous) {
        rows := rows[n := rows[n].(replacing := None)];
      }
    }

    method MarkMatured(n: Name, at: Time)
      modifies this`rows
      ensures rows == Registrations.MarkMatured(old(rows), n, at)
    {
      if n in rows && rows[n].status.Pending? {
        rows := rows[n := rows[n].(status := Matured, maturedAt := Some(at))];
      }
    }

    method Deactivate(n: Name, status: Status, at: Time)
      modifies this`rows
      ensures rows == Registrations.Deactivate(old(rows), n, status, at)
    {
      if n in rows && rows[n].Active() {
        rows := rows[n := rows[n].(status := status, releasedAt := Some(at))];
      }
    }

    method RevokeRegistration(n: Name, at: Time, reason: string) returns (moved: bool)
      modifies this`rows
      ensures moved == (n in old(rows) && !old(rows)[n].status.Revoked?)
      ensures rows == RevokeRow(old(rows), n, at, reason)
    {
      moved := n in rows && !rows[n].status.Revoked?;
      if moved {
        rows := rows[n := rows[n].(status := Revoked, releasedAt := Some(at), revokedReason := Some(reason))];
      }
    }

    method CompleteRename(n: Name, prior: Name, node: Node, at: Time)
      modifies this`rows
      ensures rows == Registrations.CompleteRename(old(rows), n, prior, node, at)
    {
      if n in rows && rows[n].node == node && rows[n].status.Pending? && rows[n].replacing == Some(prior) {
        rows := rows[n := rows[n].(status := Matured, maturedAt := Some(at), replacing := None)];
      }
      if prior in rows && rows[prior].node == node {
        Deactivate(prior, Released, at);
      }
    }

    method CancelPendingReplacement(
      n: Name, previous: Name, revive: bool, contactAt: Time, pendingStartedAt: Time) returns (commit: Commit)
      modifies this`rows
      ensures commit.Absent? <==> !CanCancel(old(rows), n)
      ensures commit.Refused? <==> CanCancel(old(rows), n) && !CanRevive(old(rows), n, previous, revive)
      ensures rows == if commit.Done?
                      then CancelReplacement(old(rows), n, previous, revive, contactAt, pendingStartedAt)
                      else old(rows)
    {
      if !CanCancel(rows, n) {
        return Absent;
      }
      commit := Done;
      var before := rows;
      rows := rows - {n};
      if previous in rows {
        var row := rows[previous];
        if revive && row.status.Abandoned? {
          if row.maturedAt.None? && !CanBecomePending(rows, previous) {
            rows := before;
            return Refused;
          }
          rows := rows[previous := row.(status := if row.maturedAt.None? then Pending else Matured,
                                        releasedAt := None, lastContactAt := Some(contactAt),
                                        contactStartedAt := Some(contactAt), lastKnownAddress := None)];
        } else if !revive && row.Active() {
          var started := row.contactStartedAt;
          if row.status.Pending? {
            started := Some(pendingStartedAt);
          }
          rows := rows[previous := row.(lastContactAt := Some(contactAt), contactStartedAt := started)];
        }
      }
    }

    method Reclaim(n: Name, matured: bool, dynamic: Option<bool>, last: Time, started: Option<Time>)
      returns (ok: bool)
      modifies this`rows
      ensures ok == CanReclaim(old(rows), n, matured)
      ensures rows == if ok then Registrations.Reclaim(old(rows), n, matured, dynamic, last, started) else old(rows)
    {
      ok := CanReclaim(rows, n, matured);
      if ok && n in rows {
        var row := rows[n].(status := if matured then Matured else Pending, releasedAt := None,
                            lastContactAt := Some(last));
        if dynamic.Some? {
          row := row.(dynamic := dynamic.value);
        }
        if started.Some? {
          row := row.(contactStartedAt := started);
        }
        rows := rows[n := row];
      }
    }

    method DeleteExpiredRegistrations(olderThan: Time)
      modifies this`rows
      ensures rows == DeleteExpired(old(rows), olderThan)
    {
      rows := map n | n in rows && !Purgeable(rows[n], olderThan) :: rows[n];
    }

    method DeleteRegistration(n: Name)
      modifies this`rows
      ensures rows == old(rows) - {n}
    {
      rows := rows - {n};
    }

    method SaveRateLimitState(tokens: real, lastRefill: Time)
      modifies this`bucket
      ensures bucket == Some(Bucket(tokens, lastRefill))
    {
      bucket := Some(Bucket(tokens, lastRefill));
    }
  }
}
