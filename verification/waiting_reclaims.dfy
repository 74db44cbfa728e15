/** A reclaim checks both caps and the status of its row before it takes the lane, and reads only
    activity and credential again once it has it (services/managed_dns/server.py:791-815). When the lock
    is free but promised to a waiting sweep, the reclaim queues in between. These lemmas say, for every state,
    exactly when the reclaim's turn keeps each promise. */
module WaitingReclaims {
  import opened Prelude
  import opened Registrations
  import opened Protocol
  import opened TableRules
  import opened ProtocolInvariant

  lemma TurnRows(cfg: Config, s: State) returns (row: Row)
    requires s.lane.Idle? && TurnAccepted(s)
    ensures var n := s.waiting[0].name;
            && Next(cfg, s, RunWaiting).rows == s.rows[n := row]
            && SameStanding(row, Reactivated(s.rows[n])) && row.Active()
  {
    hide CanReclaim;
    var n := s.waiting[0].name;
    row := Next(cfg, s, RunWaiting).rows[n];
    ReactivateRows(cfg, s.(waiting := s.waiting[1..]), n, s.waiting[0].dynamic, s.waiting[0].observed);
  }

  /** The turn of a waiting reclaim that is carried out keeps the cumulative cap if and only if the table still
      has room. */
  lemma TurnKeepsCap(cfg: Config, s: State)
    requires s.lane.Idle? && TurnAccepted(s)
    ensures |ActiveNames(Next(cfg, s, RunWaiting).rows)| <= cfg.cumulativeCap <==> !AtCap(cfg, s.rows)
  {
    var n := s.waiting[0].name;
    var row := TurnRows(cfg, s);
    ActiveAfterUpdate(s.rows, n, row);
    hide Next;
  }

  /** It keeps the cap of its node if and only if the node has at most one active row, the other half of its
      rename. */
  lemma TurnKeepsNodeCap(cfg: Config, s: State)
    requires s.lane.Idle? && TurnAccepted(s) && NodeCap(s.rows, s.rows[s.waiting[0].name].node)
    ensures var n := s.waiting[0].name;
            NodeCap(Next(cfg, s, RunWaiting).rows, s.rows[n].node) <==> Capped(s.rows, n, Reactivated(s.rows[n]))
  {
    var n := s.waiting[0].name;
    var row := TurnRows(cfg, s);
    hide Next, NodeCap, Capped;
    var t := s.rows[n := row];
    OwnAfter(s.rows, n, row, row.node);
    RoomForStanding(s.rows, n, row, Reactivated(s.rows[n]));
    RoomForStanding(s.rows, n, Reactivated(s.rows[n]), row);
    if Capped(s.rows, n, row) {
      ActivatesCapped(s.rows, n, row, row.node);
    }
    if NodeCap(t, row.node) {
      NodeCapIsRoom(s.rows, n, row);
    }
  }

  lemma NodeCapIsRoom(t: Table, n: Name, row: Row)
    requires row.Active() && (n in t ==> !t[n].Active()) && NodeCap(t[n := row], row.node)
    ensures Capped(t, n, row)
  {
    var t' := t[n := row];
    OwnAfter(t, n, row, row.node);
    var own := ActiveNamesOf(t, row.node);
    assert own - {n} == own;
    forall m | m in t && m != n && t[m].node == row.node && t[m].Active()
      ensures (row.status.Pending? && row.replacing == Some(m)) || Replaces(t, m, n)
    {
      assert m in own && m in ActiveNamesOf(t', row.node) && n in ActiveNamesOf(t', row.node);
      assert Replaces(t', m, n) || Replaces(t', n, m);
    }
  }

  /** While the links of renames are whole the same can be read off the single rows: each active row of the
      node is a pending replacement of the returning one, or is what the returning one will replace. */
  lemma NodeCapByRows(t: Table, n: Name)
    requires TableOk(t) && LinksOk(t) && n in t && !t[n].Active()
    ensures Capped(t, n, Reactivated(t[n])) <==>
              forall m | m in ActiveNamesOf(t, t[n].node) :: Halves(t, n, m)
  {
    var own := ActiveNamesOf(t, t[n].node);
    if forall m | m in own :: Halves(t, n, m) {
      HalvesAreRoom(t, n);
    }
    if Capped(t, n, Reactivated(t[n])) {
      forall m | m in own
        ensures Halves(t, n, m)
      {
        assert t[m].node == t[n].node;
      }
    }
  }

  lemma HalvesAreRoom(t: Table, n: Name)
    requires LinksOk(t) && n in t && !t[n].Active()
    requires forall m | m in ActiveNamesOf(t, t[n].node) :: Halves(t, n, m)
    ensures Capped(t, n, Reactivated(t[n]))
  {
    var own := ActiveNamesOf(t, t[n].node);
    assert own - {n} == own;
    forall a, b | a in own && b in own
      ensures a == b
    {
      OneBeside(t, n, a, b);
    }
    AllSame(own);
    forall m | m in t && m != n && t[m].node == t[n].node && t[m].Active()
      ensures (t[n].maturedAt.None? && t[n].replacing == Some(m)) || Replaces(t, m, n)
    {
      assert m in own;
      assert Halves(t, n, m);
    }
    hide LinksOk, ActiveNamesOf;
  }

  /** The active row `m` and the returning row `n` are the halves of a rename. */
  predicate Halves(t: Table, n: Name, m: Name)
    requires n in t && m in t
  {
    Replaces(t, m, n) || (t[n].maturedAt.None? && t[n].replacing == Some(m))
  }

  lemma OneBeside(t: Table, n: Name, a: Name, b: Name)
    requires PairsRenaming(t) && n in t && !t[n].Active()
    requires a in t && b in t && t[a].Active() && t[b].Active() && t[a].node == t[b].node
    requires Halves(t, n, a) && Halves(t, n, b)
    ensures a == b
  {
    assert a == b || Renaming(t, a, b) || Renaming(t, b, a);
  }

  lemma AllSame<T>(s: set<T>)
    requires forall a, b | a in s && b in s :: a == b
    ensures |s| <= 1
  {
    if s != {} {
      var a :| a in s;
      assert s == {a};
    }
  }

  /** It leaves every claim the only one on its row if and only if nobody else claims what its row claims. */
  lemma TurnKeepsClaims(cfg: Config, s: State)
    requires s.lane.Idle? && TurnAccepted(s) && TableOk(s.rows) && ClaimsDistinct(s.rows)
    ensures var n := s.waiting[0].name;
            ClaimsDistinct(Next(cfg, s, RunWaiting).rows) <==>
              (s.rows[n].replacing.Some? ==>
                 forall m | m in s.rows && m != n && s.rows[m].Claims() :: s.rows[m].replacing != s.rows[n].replacing)
  {
    var n := s.waiting[0].name;
    var row := TurnRows(cfg, s);
    hide Next;
    assert RowOk(s.rows[n]);
    ClaimsAfter(s.rows, n, row);
  }

  lemma ClaimsAfter(t: Table, n: Name, row: Row)
    requires ClaimsDistinct(t) && (row.replacing.Some? ==> row.status.Pending?)
    ensures ClaimsDistinct(t[n := row]) <==>
              (row.replacing.Some? ==> forall m | m in t && m != n && t[m].Claims() :: t[m].replacing != row.replacing)
  {
    var t' := t[n := row];
    if ClaimsDistinct(t') && row.replacing.Some? {
      forall m | m in t && m != n && t[m].Claims()
        ensures t[m].replacing != row.replacing
      {
        assert t'[m] == t[m] && t'[n].Claims();
      }
    }
  }

  /** It leaves all links of renames whole if and only if the returning row fits them. */
  lemma TurnKeepsLinks(cfg: Config, s: State)
    requires s.lane.Idle? && TurnAccepted(s) && TableOk(s.rows) && LinksOk(s.rows)
    ensures var n := s.waiting[0].name;
            LinksOk(Next(cfg, s, RunWaiting).rows) <==> Linked(s.rows, n, Reactivated(s.rows[n]))
  {
    var n := s.waiting[0].name;
    var row := TurnRows(cfg, s);
    hide Next, Linked;
    assert RowOk(s.rows[n]);
    RoomForStanding(s.rows, n, row, Reactivated(s.rows[n]));
    RoomForStanding(s.rows, n, Reactivated(s.rows[n]), row);
    if Linked(s.rows, n, row) {
      ActivatesLinked(s.rows, n, row);
    }
    if LinksOk(s.rows[n := row]) {
      LinksAreRoom(s.rows, n, row);
    }
  }

  lemma LinksAreRoom(t: Table, n: Name, row: Row)
    requires LinksOk(t) && LinksOk(t[n := row]) && row.Active() && (n in t ==> !t[n].Active())
    ensures Linked(t, n, row)
  {
    var t' := t[n := row];
    if row.Claims() {
      ClaimsAfter(t, n, row);
    }
    forall m | m in t && m != n && t[m].node == row.node && t[m].Active()
      ensures || (row.status.Pending? && row.replacing == Some(m) && t[m].replacing.None?)
              || (Replaces(t, m, n) && row.replacing.None?)
    {
      assert t'[m] == t[m];
      assert Renaming(t', m, n) || Renaming(t', n, m);
    }
  }

  /** It makes a revoked row active again if and only if its row has been revoked meanwhile. */
  lemma TurnRevives(cfg: Config, s: State)
    requires s.lane.Idle? && TurnAccepted(s) && CredentialsDistinct(s.rows)
    ensures var t := Next(cfg, s, RunWaiting).rows;
            (exists m | m in s.rows && s.rows[m].status.Revoked? :: m in t && t[m].Active()) <==>
            s.rows[s.waiting[0].name].status.Revoked?
  {
    var n := s.waiting[0].name;
    var row := TurnRows(cfg, s);
    hide Next;
    var t := s.rows[n := row];
    if m :| m in s.rows && s.rows[m].status.Revoked? && t[m].Active() {
      assert m == n;
    }
  }
}
