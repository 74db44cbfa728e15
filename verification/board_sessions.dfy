/** Any number of sessions of one account reading one board (src/netbbs/activity.py). A session reads the
    floor, the newest post and the rows at different moments, and writes later, from whatever it has read;
    a write is one transaction. Posts arrive at the top of the board and may be deleted anywhere. */
module BoardSessions {
  import opened Prelude
  import opened BoardCompaction

  /** The board with the account's rows; `top` is the highest id any root has had. */
  datatype Board = Board(roots: seq<int>, top: int, rows: Rows)

  /** What a session has read so far. */
  datatype Session = Session(floor: Option<int>, newest: Option<int>, roots: seq<int>, top: int, seen: set<int>)

  datatype System = System(board: Board, sessions: map<nat, Session>)

  datatype Action =
    | Post(id: int)
    | Delete(id: int)
    | LookAtFloor(i: nat)
    | LookAtNewest(i: nat)
    | LookAtRows(i: nat)
    | WriteBaseline(i: nat)
    | WriteOpened(i: nat, p: int)
    | WriteMark(i: nat)

  function Without(roots: seq<int>, id: int): seq<int>
    decreases |roots|
  {
    if roots == [] then []
    else (if roots[0] == id then [] else [roots[0]]) + Without(roots[1..], id)
  }

  /** The delete trigger takes the post's opened row along. */
  function Deleted(b: Board, id: int): Board {
    b.(roots := Without(b.roots, id), rows := b.rows.(open := b.rows.open - {id}))
  }

  function Looked(y: System, i: nat): Session {
    if i in y.sessions then y.sessions[i] else Session(None, None, [], 0, {})
  }

  predicate Enabled(y: System, a: Action) {
    match a
    case Post(id) => id > y.board.top
    case WriteOpened(i, _) => Looked(y, i).floor.Some?
    case WriteMark(i) => Looked(y, i).floor.Some?
    case _ => true
  }

  /** The board after the action, and whether the cap gave posts up. */
  ghost function OnBoard(y: System, a: Action): (Board, bool)
    requires Enabled(y, a)
  {
    var b := y.board;
    match a
    case Post(id) => (b.(roots := b.roots + [id], top := id), false)
    case Delete(id) => (Deleted(b, id), false)
    case WriteBaseline(i) => (b.(rows := AfterBaseline(b.rows, Looked(y, i).newest)), false)
    case WriteOpened(i, p) =>
      var (rows, capped) := AfterOpen(b.rows, b.roots, p, Looked(y, i).floor.value);
      (b.(rows := rows), capped)
    case WriteMark(i) =>
      var k := Looked(y, i);
      var (rows, capped) := AfterMark(b.rows, k.roots, k.seen, k.newest, k.floor.value);
      (b.(rows := rows), capped)
    case _ => (b, false)
  }

  ghost function Next(y: System, a: Action): System
    requires Enabled(y, a)
  {
    var b := y.board;
    var y' := y.(board := OnBoard(y, a).0);
    match a
    case LookAtFloor(i) => y'.(sessions := y.sessions[i := Looked(y, i).(floor := b.rows.floor)])
    case LookAtNewest(i) =>
      y'.(sessions := y.sessions[i := Looked(y, i).(newest := if b.roots == [] then None
                                                              else Some(b.roots[|b.roots| - 1]))])
    case LookAtRows(i) =>
      y'.(sessions := y.sessions[i := Looked(y, i).(roots := b.roots, top := b.top, seen := b.rows.open)])
    case _ => y'
  }

  // ---- what every step keeps ----

  ghost predicate BoardOk(b: Board) {
    && Increasing(b.roots) && (forall p | p in b.roots :: 0 < p <= b.top) && 0 <= b.top
    && (forall p | p in b.rows.open :: p in b.roots)
    && |b.rows.open| <= OPENED_POSTS_CAP
    && (b.rows.floor.Some? ==> 0 <= b.rows.floor.value <= b.top)
    && (b.rows.floor.None? ==> b.rows.open == {})
  }

  /** Read by the reader: at or below the floor, or opened. */
  predicate IsRead(b: Board, p: int) {
    b.rows.floor.Some? && Read(b.rows.open, b.rows.floor.value, p)
  }

  /** What a session has read was true once: the floor was no higher, what it saw opened is still read, and
      no root has since appeared among those it saw. */
  ghost predicate WasTrue(k: Session, b: Board) {
    && (k.floor.Some? ==> b.rows.floor.Some? && 0 <= k.floor.value <= b.rows.floor.value)
    && (k.newest.Some? ==> 0 <= k.newest.value <= b.top)
    && k.top <= b.top
    && Increasing(k.roots) && (forall p | p in k.roots :: p <= k.top)
    && (forall p | p in b.roots && p <= k.top :: p in k.roots)
    && |k.seen| <= OPENED_POSTS_CAP && (forall p | p in k.seen :: p <= k.top)
    && (forall p | p in k.seen && p in b.roots :: IsRead(b, p))
  }

  ghost predicate Inv(y: System) {
    && BoardOk(y.board)
    && forall i | i in y.sessions :: WasTrue(y.sessions[i], y.board)
  }

  function UnreadOf(b: Board): set<int> {
    if b.rows.floor.None? then {} else Unread(b.roots, b.rows.open, b.rows.floor.value)
  }

  lemma {:induction false} WithoutIs(roots: seq<int>, id: int)
    requires Increasing(roots)
    ensures Increasing(Without(roots, id))
    ensures forall p :: p in Without(roots, id) <==> p in roots && p != id
    decreases |roots|
  {
    if roots != [] {
      var rest := roots[1..];
      assert Increasing(rest);
      WithoutIs(rest, id);
      assert forall p :: p in roots <==> p == roots[0] || p in rest;
      var kept := Without(rest, id);
      assert forall j | 0 <= j < |kept| :: kept[j] in rest;
      assert roots[0] !in rest;
    }
  }

  /** Compaction from what a session knows: the new floor is no higher than the board's top, and without
      the cap every root it passes was read already or is marked by this very call. */
  lemma StaleCompaction(roots: seq<int>, seen: set<int>, from: int, top: int)
    requires Increasing(roots) && from <= top && forall p | p in seen :: p <= top
    ensures var (floor, capped) := Compacted(roots, seen, from);
            && from <= floor <= top && (floor == from || floor in seen)
            && (!capped ==> forall p | p in roots && from < p <= floor :: p in seen)
            && |Above(seen, floor)| <= OPENED_POSTS_CAP
  {
    CompactionIsSafe(roots, seen, from);
    if !Compacted(roots, seen, from).1 {
      CompactionPreserves(roots, seen, from);
    }
  }

  /** One write or look: the board stays well formed, its floor does not fall, no post that still exists is
      unread again, and the unread posts are those of before without what the action reads or takes away,
      fewer only when the cap gave some up. */
  ghost predicate Good(b: Board, b': Board, capped: bool, owed: set<int>) {
    && BoardOk(b') && b.top <= b'.top
    && (b.rows.floor.Some? ==> b'.rows.floor.Some? && b.rows.floor.value <= b'.rows.floor.value)
    && (forall p | p in b'.roots :: p in b.roots || p > b.top)
    && (forall p | p in b'.roots && p <= b.top && IsRead(b, p) :: IsRead(b', p))
    && (b.rows.floor.Some? ==> UnreadOf(b') <= owed && (!capped ==> UnreadOf(b') == owed))
  }

  /** The unread posts after the action, had nothing been given up. */
  function Owed(y: System, a: Action, unread: set<int>): set<int> {
    match a
    case Post(id) => unread + {id}
    case Delete(id) => unread - {id}
    case WriteOpened(_, p) => unread - {p}
    case WriteMark(i) =>
      var newest := Looked(y, i).newest;
      if newest.None? then unread else set p | p in unread && p > newest.value
    case _ => unread
  }

  lemma LookedWasTrue(y: System, i: nat)
    requires Inv(y)
    ensures WasTrue(Looked(y, i), y.board)
  {
  }

  lemma OpeningIsGood(b: Board, p: int, k: Session)
    requires BoardOk(b) && WasTrue(k, b) && k.floor.Some?
    ensures var (rows, capped) := AfterOpen(b.rows, b.roots, p, k.floor.value);
            Good(b, b.(rows := rows), capped, UnreadOf(b) - {p})
  {
    if p > k.floor.value {
      var open := if p in b.roots then b.rows.open + {p} else b.rows.open;
      StaleCompaction(b.roots, open, k.floor.value, b.top);
    }
  }

  /** Opening a post reports a cap only when as many are opened as the cap allows; and a session that knows the floor
      as it is reports one exactly when other posts were given up. */
  lemma OpeningReports(b: Board, p: int, k: Session)
    requires BoardOk(b) && WasTrue(k, b) && k.floor.Some? && p in b.roots
    ensures var (rows, capped) := AfterOpen(b.rows, b.roots, p, k.floor.value);
            && (capped ==> |b.rows.open| == OPENED_POSTS_CAP && p !in b.rows.open)
            && (k.floor == b.rows.floor ==> (capped <==> UnreadOf(b.(rows := rows)) != UnreadOf(b) - {p}))
  {
    var floor := k.floor.value;
    if p > floor {
      var open := b.rows.open + {p};
      StaleCompaction(b.roots, open, floor, b.top);
      CapIsReported(b.roots, open, floor);
      var folded := Folded(b.roots, Above(open, floor), floor);
      SubsetSize(Above(open, folded), open);
      assert k.floor == b.rows.floor ==> Unread(b.roots, open, floor) == UnreadOf(b) - {p};
    }
  }

  lemma MarkingIsGood(b: Board, k: Session)
    requires BoardOk(b) && WasTrue(k, b) && k.floor.Some?
    ensures var (rows, capped) := AfterMark(b.rows, k.roots, k.seen, k.newest, k.floor.value);
            var owed := if k.newest.None? then UnreadOf(b) else set p | p in UnreadOf(b) && p > k.newest.value;
            Good(b, b.(rows := rows), capped, owed)
  {
    if k.newest.Some? {
      StaleCompaction(k.roots, k.seen, Max(k.floor.value, k.newest.value), b.top);
      var floor := Compacted(k.roots, k.seen, Max(k.floor.value, k.newest.value)).0;
      SubsetSize(Above(b.rows.open, floor), b.rows.open);
    }
  }

  /** Marking all read never gives posts up. */
  lemma MarkingGivesNothingUp(b: Board, k: Session)
    requires WasTrue(k, b) && k.floor.Some?
    ensures !AfterMark(b.rows, k.roots, k.seen, k.newest, k.floor.value).1
  {
    if k.newest.Some? {
      var from := Max(k.floor.value, k.newest.value);
      SubsetSize(Above(k.seen, Folded(k.roots, Above(k.seen, from), from)), k.seen);
    }
  }

  lemma PostingIsGood(b: Board, id: int)
    requires BoardOk(b) && id > b.top
    ensures Good(b, b.(roots := b.roots + [id], top := id), false, UnreadOf(b) + {id})
  {
    var longer := b.roots + [id];
    assert forall p :: p in longer <==> p in b.roots || p == id;
    assert forall j | 0 <= j < |b.roots| :: b.roots[j] in b.roots;
  }

  lemma DeletingIsOk(b: Board, id: int)
    requires BoardOk(b)
    ensures BoardOk(Deleted(b, id))
  {
    hide Without, Increasing;
    WithoutIs(b.roots, id);
    SubsetSize(b.rows.open - {id}, b.rows.open);
  }

  lemma DeletingIsGood(b: Board, id: int)
    requires BoardOk(b)
    ensures Good(b, Deleted(b, id), false, UnreadOf(b) - {id})
  {
    DeletingIsOk(b, id);
    assert Increasing(b.roots);
    hide Without, BoardOk, Increasing;
    WithoutIs(b.roots, id);
    assert forall p :: p in UnreadOf(Deleted(b, id)) <==> p in UnreadOf(b) && p != id;
  }

  lemma BaselineIsGood(b: Board, k: Session)
    requires BoardOk(b) && WasTrue(k, b)
    ensures Good(b, b.(rows := AfterBaseline(b.rows, k.newest)), false, UnreadOf(b))
  {
  }

  lemma StepIsGood(y: System, a: Action)
    requires Inv(y) && Enabled(y, a)
    ensures var (b', capped) := OnBoard(y, a);
            Good(y.board, b', capped, Owed(y, a, UnreadOf(y.board)))
  {
    var b := y.board;
    if a.LookAtFloor? || a.LookAtNewest? || a.LookAtRows? {
      assert OnBoard(y, a) == (b, false);
    } else {
      hide Good, UnreadOf, WasTrue, BoardOk, AfterOpen, AfterMark;
      match a {
        case WriteOpened(i, p) =>
          LookedWasTrue(y, i);
          OpeningIsGood(b, p, Looked(y, i));
        case WriteMark(i) =>
          LookedWasTrue(y, i);
          MarkingIsGood(b, Looked(y, i));
        case Delete(id) => DeletingIsGood(b, id);
        case Post(id) => PostingIsGood(b, id);
        case WriteBaseline(i) =>
          LookedWasTrue(y, i);
          BaselineIsGood(b, Looked(y, i));
      }
    }
  }

  lemma StillTrue(k: Session, b: Board, b': Board, capped: bool, owed: set<int>)
    requires BoardOk(b) && WasTrue(k, b) && Good(b, b', capped, owed)
    ensures WasTrue(k, b')
  {
  }

  /** A look finds what is true at that moment. */
  lemma LooksWereTrue(y: System, a: Action, i: nat)
    requires Inv(y) && Enabled(y, a) && i in Next(y, a).sessions
    ensures WasTrue(Next(y, a).sessions[i], y.board)
  {
    assert y.board.roots != [] ==> y.board.roots[|y.board.roots| - 1] in y.board.roots;
    hide Increasing;
  }

  lemma StepKeeps(y: System, a: Action)
    requires Inv(y) && Enabled(y, a)
    ensures Inv(Next(y, a))
  {
    StepIsGood(y, a);
    var (b', capped) := OnBoard(y, a);
    var y' := Next(y, a);
    assert y'.board == b';
    hide OnBoard, Next;
    forall i | i in y'.sessions
      ensures WasTrue(y'.sessions[i], b')
    {
      LooksWereTrue(y, a, i);
      StillTrue(y'.sessions[i], y.board, b', capped, Owed(y, a, UnreadOf(y.board)));
    }
    hide WasTrue;
  }

  // ---- runs ----

  ghost predicate Legal(y: System, run: seq<Action>)
    decreases |run|
  {
    run == [] || (Enabled(y, run[0]) && Legal(Next(y, run[0]), run[1..]))
  }

  ghost function Run(y: System, run: seq<Action>): System
    requires Legal(y, run)
    decreases |run|
  {
    if run == [] then y else Run(Next(y, run[0]), run[1..])
  }

  ghost predicate AnyCapped(y: System, run: seq<Action>)
    requires Legal(y, run)
    decreases |run|
  {
    run != [] && (OnBoard(y, run[0]).1 || AnyCapped(Next(y, run[0]), run[1..]))
  }

  /** The posts left unread by the arrivals, deletions, openings and markings of the run alone. */
  ghost function OwedBy(y: System, run: seq<Action>, unread: set<int>): set<int>
    requires Legal(y, run)
    decreases |run|
  {
    if run == [] then unread else OwedBy(Next(y, run[0]), run[1..], Owed(y, run[0], unread))
  }

  lemma {:induction false} OwedGrows(y: System, run: seq<Action>, fewer: set<int>, more: set<int>)
    requires Legal(y, run) && fewer <= more
    ensures OwedBy(y, run, fewer) <= OwedBy(y, run, more)
    decreases |run|
  {
    if run != [] {
      OwedGrows(Next(y, run[0]), run[1..], Owed(y, run[0], fewer), Owed(y, run[0], more));
    }
  }

  lemma {:induction false} RunIsGood(y: System, run: seq<Action>)
    requires Inv(y) && Legal(y, run) && y.board.rows.floor.Some?
    ensures Inv(Run(y, run))
    ensures Good(y.board, Run(y, run).board, AnyCapped(y, run), OwedBy(y, run, UnreadOf(y.board)))
    decreases |run|
  {
    if run != [] {
      var y' := Next(y, run[0]);
      StepKeeps(y, run[0]);
      StepIsGood(y, run[0]);
      RunIsGood(y', run[1..]);
      OwedGrows(y', run[1..], UnreadOf(y'.board), Owed(y, run[0], UnreadOf(y.board)));
      hide Inv, Owed, OnBoard, BoardOk, UnreadOf, IsRead;
    }
  }

  /** A board without posts, which nobody has visited. */
  const EMPTY := System(Board([], 0, Rows(None, {})), map[])

  lemma {:induction false} RunKeeps(y: System, run: seq<Action>)
    requires Inv(y) && Legal(y, run)
    ensures Inv(Run(y, run))
    decreases |run|
  {
    hide Inv;
    if run != [] {
      StepKeeps(y, run[0]);
      RunKeeps(Next(y, run[0]), run[1..]);
    }
  }

  /** So every state that a run reaches from an empty board is one that the theorems below are about. */
  lemma EveryRunKeeps(run: seq<Action>)
    requires Legal(EMPTY, run)
    ensures Inv(Run(EMPTY, run))
  {
    RunKeeps(EMPTY, run);
  }

  /** However many sessions read a visited board from stale floors: the floor never falls, a post once read
      stays read while it exists, no more than the cap of opened posts is kept, and unless the cap
      gave posts up the unread ones are exactly those the openings and markings left. */
  lemma ReadingIsKept(y: System, run: seq<Action>, p: int)
    requires Inv(y) && Legal(y, run) && y.board.rows.floor.Some?
    ensures var b, b' := y.board, Run(y, run).board;
            && b'.rows.floor.Some? && b.rows.floor.value <= b'.rows.floor.value
            && |b'.rows.open| <= OPENED_POSTS_CAP
            && (p in b.roots && p in b'.roots && IsRead(b, p) ==> IsRead(b', p))
            && UnreadOf(b') <= OwedBy(y, run, UnreadOf(b))
            && (!AnyCapped(y, run) ==> UnreadOf(b') == OwedBy(y, run, UnreadOf(b)))
  {
    RunIsGood(y, run);
    hide Owed, OnBoard;
  }

  /** A first visit leaves nothing unread that it saw, however many sessions make it. */
  lemma FirstVisit(y: System, i: nat)
    requires Inv(y) && y.board.rows.floor.None?
    requires y.board.roots != [] ==> Looked(y, i).newest == Some(y.board.roots[|y.board.roots| - 1])
    ensures UnreadOf(Next(y, WriteBaseline(i)).board) == {}
  {
  }
}
