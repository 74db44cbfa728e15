/** The table of registrations and the persisted admission bucket of the managed-DNS service
    (services/managed_dns/store.py).

    Each statement on the table is a function on `Table`. Time stamps are integers, a credential
    is identified with its hash, and a name is a validated label. */
module Registrations {
  import opened Prelude

  type Time = int
  datatype Name = Name(text: string)
  datatype Node = Node(fingerprint: string)
  datatype Credential = Credential(hash: string)
  datatype Address = V4(text: string) | V6(text: string)

  datatype Status = Pending | Matured | Released | Abandoned | Revoked

  datatype Row = Row(
    credential: Credential,
    node: Node,
    status: Status,
    dynamic: bool,
    createdAt: Time,
    maturedAt: Option<Time>,
    lastContactAt: Option<Time>,
    releasedAt: Option<Time>,
    lastKnownAddress: Option<Address>,
    contactStartedAt: Option<Time>,
    replacing: Option<Name>,
    revokedReason: Option<string>)
  {
    /** Pending or matured: the row occupies capacity. */
    predicate Active() {
      status.Pending? || status.Matured?
    }

    /** A manageable rename: the row is pending or abandoned and names the row it replaces. */
    predicate Claims() {
      replacing.Some? && (status.Pending? || status.Abandoned?)
    }

    /** The latest sign of life, as the sweep reads it. */
    function LatestContact(): Time {
      lastContactAt.GetOr(createdAt)
    }

    /** Whether the cooldown of an inactive row is over at `at`. */
    predicate Expired(cooldown: Time, at: Time) {
      releasedAt.Some? && at - releasedAt.value >= cooldown
    }
  }

  type Table = map<Name, Row>

  // ---- queries ----

  function ActiveNames(t: Table): set<Name> {
    set n | n in t && t[n].Active()
  }

  function ActiveNamesOf(t: Table, node: Node): set<Name> {
    set n | n in t && t[n].Active() && t[n].node == node
  }

  /** No two rows share a credential: the UNIQUE index on `credential_hash`. */
  ghost predicate CredentialsDistinct(t: Table) {
    forall a, b | a in t && b in t && t[a].credential == t[b].credential :: a == b
  }

  /** At most one pending or abandoned row names any given row as replaced. */
  ghost predicate ClaimsDistinct(t: Table) {
    forall a, b | a in t && b in t && t[a].Claims() && t[b].Claims() && t[a].replacing == t[b].replacing :: a == b
  }

  ghost function ByCredential(t: Table, c: Credential): (r: Option<Name>)
    ensures r.Some? ==> r.value in t && t[r.value].credential == c
    ensures r.None? ==> forall n | n in t :: t[n].credential != c
  {
    if n :| n in t && t[n].credential == c then Some(n) else None
  }

  /** Names in the order of their characters. */
  predicate Precedes(a: string, b: string)
    decreases |a|
  {
    b != "" && (a == "" || a[0] < b[0] || (a[0] == b[0] && Precedes(a[1..], b[1..])))
  }

  lemma {:induction false} PrecedesIsTotal(a: string, b: string)
    ensures a == b || Precedes(a, b) || Precedes(b, a)
    ensures Precedes(a, b) ==> a != b && !Precedes(b, a)
    decreases |a|
  {
    if a != "" && b != "" {
      PrecedesIsTotal(a[1..], b[1..]);
      assert a == [a[0]] + a[1..] && b == [b[0]] + b[1..];
    }
  }

  lemma {:induction false} PrecedesIsTransitive(a: string, b: string, c: string)
    requires Precedes(a, b) && Precedes(b, c)
    ensures Precedes(a, c)
    decreases |a|
  {
    if a != "" && a[0] == b[0] == c[0] {
      PrecedesIsTransitive(a[1..], b[1..], c[1..]);
    }
  }

  function ClaimsOn(t: Table, prior: Name): set<Name> {
    set n | n in t && t[n].Claims() && t[n].replacing == Some(prior)
  }

  /** The query's order: the newest first. Rows of one instant, which the query leaves open, go by name. */
  predicate Ahead(t: Table, a: Name, b: Name)
    requires a in t && b in t
  {
    t[a].createdAt > t[b].createdAt || (t[a].createdAt == t[b].createdAt && Precedes(a.text, b.text))
  }

  predicate FirstOf(t: Table, names: set<Name>, n: Name)
    requires forall m | m in names :: m in t
  {
    n in names && forall m | m in names && m != n :: Ahead(t, n, m)
  }

  lemma {:induction false} FirstExists(t: Table, names: set<Name>) returns (first: Name)
    requires names != {} && forall m | m in names :: m in t
    ensures FirstOf(t, names, first)
    ensures forall m | FirstOf(t, names, m) :: m == first
    decreases |names|
  {
    first :| first in names;
    var rest := names - {first};
    if rest != {} {
      var next := FirstExists(t, rest);
      PrecedesIsTotal(first.text, next.text);
      if Ahead(t, first, next) {
        forall m | m in rest && m != next ensures Ahead(t, first, m) {
          if t[first].createdAt == t[next].createdAt == t[m].createdAt {
            PrecedesIsTransitive(first.text, next.text, m.text);
          }
        }
      } else {
        first := next;
      }
    }
    forall m | FirstOf(t, names, m) ensures m == first {
      PrecedesIsTotal(m.text, first.text);
      assert m != first ==> Ahead(t, m, first) && Ahead(t, first, m);
    }
  }

  /** The pending or abandoned row that names `prior` as replaced, if there is one; the newest of several. */
  function ReplacementFor(t: Table, prior: Name): (r: Option<Name>)
    ensures r.Some? ==> r.value in t && t[r.value].Claims() && t[r.value].replacing == Some(prior)
    ensures r.Some? ==> FirstOf(t, ClaimsOn(t, prior), r.value)
    ensures r.Some? ==> forall m | m in t && t[m].Claims() && t[m].replacing == Some(prior) ::
              t[m].createdAt <= t[r.value].createdAt
    ensures r.None? ==> forall n | n in t && t[n].Claims() :: t[n].replacing != Some(prior)
  {
    var claims := ClaimsOn(t, prior);
    if claims == {} then
      assert forall n | n in t && t[n].Claims() && t[n].replacing == Some(prior) :: n in claims;
      None
    else
      assert exists n :: FirstOf(t, claims, n) && forall m | FirstOf(t, claims, m) :: m == n by {
        var first := FirstExists(t, claims);
      }
      var n :| FirstOf(t, claims, n);
      assert forall m | m in t && t[m].Claims() && t[m].replacing == Some(prior) && m != n :: m in claims && Ahead(t, n, m);
      Some(n)
  }

  /** With distinct claims the newest claim is the only one, so a lookup misses nothing. */
  lemma ReplacementForIsOnlyClaim(t: Table, prior: Name)
    requires ClaimsDistinct(t)
    ensures forall n | n in t && t[n].Claims() && t[n].replacing == Some(prior) :: ReplacementFor(t, prior) == Some(n)
  {
  }

  // ---- statements ----

  function Fresh(credential: Credential, node: Node, dynamic: bool, createdAt: Time, replacing: Option<Name>): Row {
    Row(credential, node, Pending, dynamic, createdAt, None, None, None, None, None, replacing, None)
  }

  /** What the primary key and the two unique indexes require of an insertion. */
  predicate CanInsert(t: Table, n: Name, credential: Credential, replacing: Option<Name>) {
    && n !in t
    && (forall m | m in t :: t[m].credential != credential)
    && (replacing.Some? ==> forall m | m in t && t[m].status.Pending? :: t[m].replacing != replacing)
  }

  function SetContactWindow(t: Table, n: Name, last: Time, started: Time): Table {
    if n in t then t[n := t[n].(lastContactAt := Some(last), contactStartedAt := Some(started))] else t
  }

  function SetLastKnownAddress(t: Table, n: Name, address: Option<Address>): Table {
    if n in t then t[n := t[n].(lastKnownAddress := address)] else t
  }

  function ReplaceCredential(t: Table, n: Name, credential: Credential): Table {
    if n in t && t[n].status.Pending? then t[n := t[n].(credential := credential)] else t
  }

  function DetachReplacement(t: Table, n: Name, previous: Name): Table {
    if n in t && t[n].Claims() && t[n].replacing == Some(previous) then t[n := t[n].(replacing := None)] else t
  }

  function MarkMatured(t: Table, n: Name, at: Time): Table {
    if n in t && t[n].status.Pending? then t[n := t[n].(status := Matured, maturedAt := Some(at))] else t
  }

  /** Release, and abandonment by the sweep: only an active row moves. */
  function Deactivate(t: Table, n: Name, status: Status, at: Time): Table {
    if n in t && t[n].Active() then t[n := t[n].(status := status, releasedAt := Some(at))] else t
  }

  function RevokeRow(t: Table, n: Name, at: Time, reason: string): Table {
    if n in t && !t[n].status.Revoked?
    then t[n := t[n].(status := Revoked, releasedAt := Some(at), revokedReason := Some(reason))]
    else t
  }

  function CompleteRename(t: Table, n: Name, prior: Name, node: Node, at: Time): Table {
    var t1 := if n in t && t[n].node == node && t[n].status.Pending? && t[n].replacing == Some(prior)
              then t[n := t[n].(status := Matured, maturedAt := Some(at), replacing := None)] else t;
    if prior in t1 && t1[prior].node == node then Deactivate(t1, prior, Released, at) else t1
  }

  /** Whether the row may become pending: no other pending row may name the row it replaces, which the index
      on `replaces_name` refuses. */
  predicate CanBecomePending(t: Table, n: Name)
    requires n in t
  {
    t[n].replacing.Some? ==> forall m | m in t && m != n && t[m].status.Pending? :: t[m].replacing != t[n].replacing
  }

  /** Whether the index admits the reactivation of a row. */
  predicate CanReclaim(t: Table, n: Name, matured: bool) {
    n in t && !matured ==> CanBecomePending(t, n)
  }

  /** Whether the index admits the revival that comes with a cancellation. */
  predicate CanRevive(t: Table, n: Name, previous: Name, revive: bool) {
    var t1 := t - {n};
    revive && previous in t1 && t1[previous].status.Abandoned? && t1[previous].maturedAt.None? ==>
      CanBecomePending(t1, previous)
  }

  /** Whether a cancellation finds its replacement row still there. */
  predicate CanCancel(t: Table, n: Name) {
    n in t && t[n].Claims()
  }

  function CancelReplacement(
    t: Table, n: Name, previous: Name, revive: bool, contactAt: Time, pendingStartedAt: Time): Table
  {
    var t1 := t - {n};
    if previous !in t1 then t1
    else
      var row := t1[previous];
      if revive then
        if row.status.Abandoned? then
          t1[previous := row.(status := if row.maturedAt.None? then Pending else Matured, releasedAt := None,
                              lastContactAt := Some(contactAt), contactStartedAt := Some(contactAt),
                              lastKnownAddress := None)]
        else t1
      else if row.Active() then
        t1[previous := row.(lastContactAt := Some(contactAt),
                            contactStartedAt := if row.status.Pending? then Some(pendingStartedAt)
                                                else row.contactStartedAt)]
      else t1
  }

  /** Reactivation, when the index admits it. The statement has no guard on the status. */
  function Reclaim(
    t: Table, n: Name, matured: bool, dynamic: Option<bool>, last: Time, started: Option<Time>): Table
  {
    if n !in t then t
    else
      var row := t[n];
      t[n := row.(status := if matured then Matured else Pending, releasedAt := None,
                  dynamic := dynamic.GetOr(row.dynamic), lastContactAt := Some(last),
                  contactStartedAt := if started.Some? then started else row.contactStartedAt)]
  }

  predicate Purgeable(row: Row, olderThan: Time) {
    !row.Active() && row.releasedAt.Some? && row.releasedAt.value < olderThan
  }

  function DeleteExpired(t: Table, olderThan: Time): Table {
    map n | n in t && !Purgeable(t[n], olderThan) :: t[n]
  }

  // ---- counting ----

  /** What replacing one row does to the set of active rows. */
  lemma ActiveAfterUpdate(t: Table, n: Name, row: Row)
    ensures ActiveNames(t[n := row]) == if row.Active() then ActiveNames(t) + {n} else ActiveNames(t) - {n}
    ensures ActiveNames(t - {n}) == ActiveNames(t) - {n}
  {
  }
}
