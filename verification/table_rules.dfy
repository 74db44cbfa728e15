/** The rules of the table, and what each kind of statement does to them. `TableOk` holds of every reachable
    table. `NodeCap` and `LinksOk` hold as long as no reclaim that had to wait breaks them. */
module TableRules {
  import opened Prelude
  import opened Registrations

  /** What the columns of one row say about each other. */
  ghost predicate RowOk(row: Row) {
    && (row.status.Pending? ==> row.maturedAt.None?)
    && (row.status.Matured? ==> row.maturedAt.Some?)
    && (row.Active() <==> row.releasedAt.None?)
    && (row.replacing.Some? ==> row.maturedAt.None?)
  }

  ghost predicate TableOk(t: Table) {
    && (forall n | n in t :: RowOk(t[n]))
    && (forall n | n in t :: t[n].replacing != Some(n))
    && CredentialsDistinct(t)
  }

  // ---- the node cap ----

  /** `a` is pending and names `b` as replaced. */
  predicate Replaces(t: Table, a: Name, b: Name)
    requires a in t
  {
    t[a].status.Pending? && t[a].replacing == Some(b)
  }

  /** The node cap in the service's own terms: at most two active rows, and two only as the halves of
      a rename. */
  ghost predicate NodeCap(t: Table, node: Node) {
    && |ActiveNamesOf(t, node)| <= 2
    && forall a, b | a in ActiveNamesOf(t, node) && b in ActiveNamesOf(t, node) && a != b ::
      Replaces(t, a, b) || Replaces(t, b, a)
  }

  // ---- the links of renames ----

  /** `a` is a pending replacement for `b`, which itself replaces nothing. */
  ghost predicate Renaming(t: Table, a: Name, b: Name)
    requires a in t && b in t
  {
    Replaces(t, a, b) && t[b].replacing.None?
  }

  /** Two active rows of one node are the two halves of a rename. */
  ghost predicate PairsRenaming(t: Table) {
    forall a, b | a in t && b in t && a != b && t[a].Active() && t[b].Active() && t[a].node == t[b].node ::
      Renaming(t, a, b) || Renaming(t, b, a)
  }

  /** A manageable claim is the only one on its row, a rename has two halves and no more, and a released row
      replaces nothing. */
  ghost predicate LinksOk(t: Table) {
    && ClaimsDistinct(t) && PairsRenaming(t)
    && (forall n | n in t && t[n].status.Released? :: t[n].replacing.None?)
  }

  lemma ThreeElements<T>(s: set<T>) returns (a: T, b: T, c: T)
    requires |s| >= 3
    ensures a in s && b in s && c in s && a != b && b != c && a != c
  {
    a :| a in s;
    var s1 := s - {a};
    assert |s1| == |s| - 1;
    b :| b in s1;
    var s2 := s1 - {b};
    assert |s2| == |s1| - 1;
    c :| c in s2;
  }

  /** The links imply the cap. */
  lemma NodeCapHolds(t: Table, node: Node)
    requires LinksOk(t)
    ensures NodeCap(t, node)
  {
    if |ActiveNamesOf(t, node)| >= 3 {
      var a, b, c := ThreeElements(ActiveNamesOf(t, node));
      // Of three rows each would rename another, so two would claim the same one.
      assert Renaming(t, a, b) || Renaming(t, b, a);
      assert Renaming(t, b, c) || Renaming(t, c, b);
      if Renaming(t, a, c) {
      }
    }
    forall a, b | a in ActiveNamesOf(t, node) && b in ActiveNamesOf(t, node) && a != b
      ensures Replaces(t, a, b) || Replaces(t, b, a)
    {
      assert Renaming(t, a, b) || Renaming(t, b, a);
    }
  }

  /** A node's count of active rows is zero exactly when it has none. */
  lemma NotFull(t: Table, node: Node)
    ensures |ActiveNamesOf(t, node)| == 0 <==> forall m | m in t && t[m].node == node :: !t[m].Active()
  {
    if m :| m in t && t[m].node == node && t[m].Active() {
      assert m in ActiveNamesOf(t, node);
    } else if own :| own in ActiveNamesOf(t, node) {
    }
  }

  // ---- statements ----

  /** Every active row was active in its node before, and no half of a rename lets go of the other. */
  ghost predicate Fewer(t: Table, t': Table) {
    && (forall n | n in t' && t'[n].Active() :: n in t && t[n].Active() && t[n].node == t'[n].node)
    && (forall a, b | a in t' && b in t' && t'[a].Active() && t'[b].Active() && t'[a].node == t'[b].node ::
          a in t && (Replaces(t, a, b) ==> Replaces(t', a, b)))
  }

  /** No row claims what it did not claim, and none is released with a claim it had not before. */
  ghost predicate NoNewClaims(t: Table, t': Table) {
    && (forall n | n in t' && t'[n].Claims() :: n in t && t[n].Claims() && t[n].replacing == t'[n].replacing)
    && (forall n | n in t' && t'[n].Active() :: n in t && (t[n].replacing.None? ==> t'[n].replacing.None?))
    && (forall n | n in t' && t'[n].status.Released? ::
          t'[n].replacing.None? || (n in t && t[n].status.Released? && t[n].replacing == t'[n].replacing))
  }

  lemma NodeCarries(t: Table, t': Table, node: Node)
    requires NodeCap(t, node) && Fewer(t, t')
    ensures NodeCap(t', node)
  {
    SubsetSize(ActiveNamesOf(t', node), ActiveNamesOf(t, node));
  }

  lemma LinksCarry(t: Table, t': Table)
    requires LinksOk(t) && Fewer(t, t') && NoNewClaims(t, t')
    ensures LinksOk(t')
  {
    forall a, b | a in t' && b in t' && a != b && t'[a].Active() && t'[b].Active() && t'[a].node == t'[b].node
      ensures Renaming(t', a, b) || Renaming(t', b, a)
    {
      assert Renaming(t, a, b) || Renaming(t, b, a);
    }
  }

  /** So the rules beyond a single row carry over. */
  lemma RulesCarry(t: Table, t': Table)
    requires Fewer(t, t')
    ensures LinksOk(t) && NoNewClaims(t, t') ==> LinksOk(t')
    ensures forall node | NodeCap(t, node) :: NodeCap(t', node)
  {
    hide LinksOk, NodeCap, Fewer, NoNewClaims;
    if LinksOk(t) && NoNewClaims(t, t') {
      LinksCarry(t, t');
    }
    forall node | NodeCap(t, node)
      ensures NodeCap(t', node)
    {
      NodeCarries(t, t', node);
    }
  }

  /** Deleting any set of rows keeps the rules. */
  lemma Shrinks(t: Table, t': Table)
    requires TableOk(t)
    requires t'.Keys <= t.Keys && forall n | n in t' :: t'[n] == t[n]
    ensures TableOk(t')
    ensures LinksOk(t) ==> LinksOk(t')
    ensures forall node | NodeCap(t, node) :: NodeCap(t', node)
  {
    hide LinksOk, NodeCap;
    RulesCarry(t, t');
  }

  /** Columns outside the rules may change freely: the contact window, the address, `dynamic`. */
  predicate SameStanding(a: Row, b: Row) {
    && a.credential == b.credential && a.node == b.node && a.status == b.status && a.maturedAt == b.maturedAt
    && a.releasedAt == b.releasedAt && a.replacing == b.replacing
  }

  lemma Touches(t: Table, n: Name, row: Row)
    requires TableOk(t) && n in t && SameStanding(t[n], row)
    ensures TableOk(t[n := row])
    ensures LinksOk(t) ==> LinksOk(t[n := row])
    ensures forall node | NodeCap(t, node) :: NodeCap(t[n := row], node)
  {
    var t' := t[n := row];
    hide LinksOk, NodeCap;
    assert forall m | m in t' :: m in t && SameStanding(t[m], t'[m]);
    assert TableOk(t');
    hide TableOk;
    RulesCarry(t, t');
  }

  /** An active row leaves, or an inactive one is revoked: release, abandonment, revocation. */
  lemma Deactivates(t: Table, n: Name, row: Row)
    requires TableOk(t) && n in t && RowOk(row) && !row.Active()
    requires row.credential == t[n].credential && row.node == t[n].node && row.replacing == t[n].replacing
    ensures TableOk(t[n := row])
    ensures LinksOk(t) && (row.Claims() ==> t[n].Claims()) && (row.status.Released? ==> row.replacing.None?) ==>
              LinksOk(t[n := row])
    ensures forall node | NodeCap(t, node) :: NodeCap(t[n := row], node)
  {
    hide LinksOk, NodeCap;
    RulesCarry(t, t[n := row]);
  }

  /** What the links require of a row that becomes active, or is inserted: its node has no other active row,
      or only the one that the new active row replaces, and nobody else claims what it claims. */
  ghost predicate Linked(t: Table, n: Name, row: Row) {
    && (row.Claims() ==> forall m | m in t && m != n && t[m].Claims() :: t[m].replacing != row.replacing)
    && forall m | m in t && m != n && t[m].node == row.node && t[m].Active() ::
         || (row.status.Pending? && row.replacing == Some(m) && t[m].replacing.None?)
         || (Replaces(t, m, n) && row.replacing.None?)
  }

  /** What the node cap requires of it: its node has at most one other active row, the other half of a rename. */
  ghost predicate Capped(t: Table, n: Name, row: Row) {
    && |ActiveNamesOf(t, row.node) - {n}| <= 1
    && forall m | m in t && m != n && t[m].node == row.node && t[m].Active() ::
         (row.status.Pending? && row.replacing == Some(m)) || Replaces(t, m, n)
  }

  /** A node without active rows has room for any. */
  lemma EmptyNode(t: Table, n: Name, row: Row)
    requires forall m | m in t && m != n && t[m].node == row.node :: !t[m].Active()
    ensures Capped(t, n, row)
    ensures (row.Claims() ==> forall m | m in t && m != n && t[m].Claims() :: t[m].replacing != row.replacing) ==>
              Linked(t, n, row)
  {
    assert ActiveNamesOf(t, row.node) - {n} == {};
  }

  lemma ActivatesLinked(t: Table, n: Name, row: Row)
    requires LinksOk(t) && Linked(t, n, row) && row.Active() && (n in t ==> !t[n].Active())
    ensures LinksOk(t[n := row])
  {
    var t' := t[n := row];
    forall a, b | a in t' && b in t' && a != b && t'[a].Active() && t'[b].Active() && t'[a].node == t'[b].node
      ensures Renaming(t', a, b) || Renaming(t', b, a)
    {
      if a != n && b != n {
        assert Renaming(t, a, b) || Renaming(t, b, a);
      }
    }
  }

  lemma OwnAfter(t: Table, n: Name, row: Row, node: Node)
    requires row.Active() && (n in t ==> !t[n].Active())
    ensures ActiveNamesOf(t[n := row], node)
         == if node == row.node then ActiveNamesOf(t, node) + {n} else ActiveNamesOf(t, node)
    ensures n !in ActiveNamesOf(t, node)
  {
  }

  lemma PairAfter(t: Table, n: Name, row: Row, node: Node, a: Name, b: Name)
    requires NodeCap(t, node) && (node == row.node ==> Capped(t, n, row)) && row.Active() && a != b
    requires var t' := t[n := row];
             && a in t' && b in t' && t'[a].Active() && t'[b].Active() && t'[a].node == node == t'[b].node
    ensures Replaces(t[n := row], a, b) || Replaces(t[n := row], b, a)
  {
    if a != n && b != n {
      assert a in ActiveNamesOf(t, node) && b in ActiveNamesOf(t, node);
    }
  }

  lemma SizeAfter(t: Table, n: Name, row: Row, node: Node)
    requires NodeCap(t, node) && (node == row.node ==> Capped(t, n, row)) && row.Active()
    requires n in t ==> !t[n].Active()
    ensures |ActiveNamesOf(t[n := row], node)| <= 2
  {
    OwnAfter(t, n, row, node);
    hide ActiveNamesOf;
    var own := ActiveNamesOf(t, node);
    assert own - {n} == own;
  }

  lemma ActivatesCapped(t: Table, n: Name, row: Row, node: Node)
    requires NodeCap(t, node) && (node == row.node ==> Capped(t, n, row)) && row.Active()
    requires n in t ==> !t[n].Active()
    ensures NodeCap(t[n := row], node)
  {
    var t' := t[n := row];
    hide Capped, Replaces;
    SizeAfter(t, n, row, node);
    forall a, b | a in ActiveNamesOf(t', node) && b in ActiveNamesOf(t', node) && a != b
      ensures Replaces(t', a, b) || Replaces(t', b, a)
    {
      PairAfter(t, n, row, node, a, b);
    }
  }

  lemma Activates(t: Table, n: Name, row: Row)
    requires TableOk(t) && RowOk(row) && row.Active() && row.replacing != Some(n)
    requires n in t ==> !t[n].Active()
    requires forall m | m in t && m != n :: t[m].credential != row.credential
    ensures TableOk(t[n := row])
    ensures LinksOk(t) && Linked(t, n, row) ==> LinksOk(t[n := row])
    ensures forall node | NodeCap(t, node) && (node == row.node ==> Capped(t, n, row)) :: NodeCap(t[n := row], node)
  {
    hide LinksOk, NodeCap, Linked, Capped;
    if LinksOk(t) && Linked(t, n, row) {
      ActivatesLinked(t, n, row);
    }
    forall node | NodeCap(t, node) && (node == row.node ==> Capped(t, n, row))
      ensures NodeCap(t[n := row], node)
    {
      ActivatesCapped(t, n, row, node);
    }
  }

  /** A row matures in place and gives up the name it replaced, whose row is not active in its node. */
  lemma Matures(t: Table, n: Name, row: Row)
    requires TableOk(t) && n in t && t[n].status.Pending? && row.status.Matured? && RowOk(row)
    requires row.credential == t[n].credential && row.node == t[n].node && row.replacing.None?
    requires forall m | m in t && m != n && t[n].replacing == Some(m) :: !t[m].Active() || t[m].node != row.node
    ensures TableOk(t[n := row])
    ensures LinksOk(t) ==> LinksOk(t[n := row])
    ensures forall node | NodeCap(t, node) :: NodeCap(t[n := row], node)
  {
    hide LinksOk, NodeCap;
    assert TableOk(t[n := row]) && t[n].replacing != Some(n);
    hide TableOk;
    RulesCarry(t, t[n := row]);
  }

  /** A claim is withdrawn: the claimant's node has no active row under the name it claimed. */
  lemma Detaches(t: Table, n: Name)
    requires TableOk(t) && n in t && t[n].Claims()
    requires forall m | m in t && t[n].replacing == Some(m) :: t[m].node != t[n].node
    ensures TableOk(t[n := t[n].(replacing := None)])
    ensures LinksOk(t) ==> LinksOk(t[n := t[n].(replacing := None)])
    ensures forall node | NodeCap(t, node) :: NodeCap(t[n := t[n].(replacing := None)], node)
  {
    hide LinksOk, NodeCap;
    RulesCarry(t, t[n := t[n].(replacing := None)]);
  }

  /** Rotating a credential to one that no row has. */
  lemma Rotates(t: Table, n: Name, credential: Credential)
    requires TableOk(t) && n in t && forall m | m in t :: t[m].credential != credential
    ensures TableOk(t[n := t[n].(credential := credential)])
    ensures LinksOk(t) ==> LinksOk(t[n := t[n].(credential := credential)])
    ensures forall node | NodeCap(t, node) :: NodeCap(t[n := t[n].(credential := credential)], node)
  {
    hide LinksOk, NodeCap;
    RulesCarry(t, t[n := t[n].(credential := credential)]);
  }

  /** With the links, an active row that itself replaces nothing has only its replacement beside it. */
  lemma OnlyReplacementsBeside(t: Table, current: Name)
    requires current in t && t[current].Active() && t[current].replacing.None?
    requires LinksOk(t) || NodeCap(t, t[current].node)
    ensures forall m | m in t && m != current && t[m].Active() && t[m].node == t[current].node ::
              Replaces(t, m, current)
  {
    forall m | m in t && m != current && t[m].Active() && t[m].node == t[current].node
      ensures Replaces(t, m, current)
    {
      if LinksOk(t) {
        assert Renaming(t, current, m) || Renaming(t, m, current);
      } else {
        assert current in ActiveNamesOf(t, t[current].node) && m in ActiveNamesOf(t, t[current].node);
      }
    }
  }
}
