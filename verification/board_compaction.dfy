/** Folding a board's opened posts into its floor (src/netbbs/activity.py, `_compact`). Posts are known by
    their local arrival ids; a board's visible roots are listed in arrival order. */
module BoardCompaction {
  import opened Prelude

  const OPENED_POSTS_CAP := 500

  predicate Increasing(s: seq<int>) {
    forall i, j | 0 <= i < j < |s| :: s[i] < s[j]
  }

  function Above(s: set<int>, floor: int): set<int> {
    set x | x in s && x > floor
  }

  /** The floor after walking up the visible roots above it for as long as they were opened. */
  function Folded(roots: seq<int>, open: set<int>, floor: int): int
    decreases |roots|
  {
    if roots == [] then floor
    else if roots[0] <= floor then Folded(roots[1..], open, floor)
    else if roots[0] in open then Folded(roots[1..], open, roots[0])
    else floor
  }

  /** The element of `s` with exactly `rank - 1` elements above it. */
  ghost function NthNewest(s: set<int>, rank: nat): (x: int)
    requires 1 <= rank <= |s|
    ensures x in s && |Above(s, x)| == rank - 1
  {
    NthNewestExists(s, rank);
    var x :| x in s && |Above(s, x)| == rank - 1;
    x
  }

  lemma {:induction false} NthNewestExists(s: set<int>, rank: nat)
    requires 1 <= rank <= |s|
    ensures exists x :: x in s && |Above(s, x)| == rank - 1
    decreases |s|
  {
    var least := Least(s);
    if rank == |s| {
      assert Above(s, least) == s - {least};
    } else {
      NthNewestExists(s - {least}, rank);
      var x :| x in s - {least} && |Above(s - {least}, x)| == rank - 1;
      assert Above(s, x) == Above(s - {least}, x);
    }
  }

  lemma {:induction false} Least(s: set<int>) returns (x: int)
    requires s != {}
    ensures x in s && forall y | y in s :: x <= y
    decreases |s|
  {
    var z := Element(s);
    var rest := s - {z};
    assert forall y :: y in s ==> y == z || y in rest;
    if rest == {} {
      x := z;
    } else {
      var least := Least(rest);
      x := if z < least then z else least;
    }
  }

  lemma RankIsUnique(s: set<int>, x: int, y: int)
    requires x in s && y in s && |Above(s, x)| == |Above(s, y)|
    ensures x == y
  {
    if x < y {
      AboveShrinks(s, x, y);
    } else if y < x {
      AboveShrinks(s, y, x);
    }
  }

  lemma AboveShrinks(s: set<int>, x: int, y: int)
    requires x < y && y in s
    ensures |Above(s, y)| < |Above(s, x)|
  {
    SubsetSize(Above(s, y) + {y}, Above(s, x));
  }

  /** The new floor, and whether the cap moved it. */
  ghost function Compacted(roots: seq<int>, open: set<int>, floor: int): (int, bool) {
    var folded := Folded(roots, Above(open, floor), floor);
    var rest := Above(open, folded);
    if |rest| <= OPENED_POSTS_CAP then (folded, false)
    else (Folded(roots, rest, NthNewest(rest, OPENED_POSTS_CAP)), true)
  }

  // ---- the walk ----

  lemma {:induction false} FoldedIsOpen(roots: seq<int>, open: set<int>, floor: int)
    requires Increasing(roots)
    ensures floor <= Folded(roots, open, floor)
    ensures Folded(roots, open, floor) == floor || Folded(roots, open, floor) in open
    ensures forall p | p in roots && floor < p <= Folded(roots, open, floor) :: p in open
    ensures forall p | p in roots && p > Folded(roots, open, floor)
              && (forall q | q in roots && q > Folded(roots, open, floor) :: p <= q) :: p !in open
    decreases |roots|
  {
    if roots != [] {
      var rest := roots[1..];
      assert Increasing(rest);
      assert forall p :: p in roots <==> p == roots[0] || p in rest;
      FoldedIsOpen(rest, open, floor);
      FoldedIsOpen(rest, open, roots[0]);
    }
  }

  /** Only the opened posts above the floor matter to the walk. */
  lemma {:induction false} FoldedAbove(roots: seq<int>, open: set<int>, floor: int)
    ensures Folded(roots, Above(open, floor), floor) == Folded(roots, open, floor)
    decreases |roots|
  {
    if roots != [] {
      FoldedAbove(roots[1..], open, floor);
      if roots[0] > floor && roots[0] in open {
        FoldedAbove(roots[1..], open, roots[0]);
        FoldedAbove(roots[1..], Above(open, floor), roots[0]);
        assert Above(Above(open, floor), roots[0]) == Above(open, roots[0]);
      }
    }
  }

  // ---- what compaction does to the read state ----

  predicate Read(open: set<int>, floor: int, p: int) {
    p <= floor || p in open
  }

  function Unread(roots: seq<int>, open: set<int>, floor: int): set<int> {
    set p | p in roots && !Read(open, floor, p)
  }

  /** At most `OPENED_POSTS_CAP` opened posts stay above the new floor, which is the old one or an opened
      post; nothing read becomes unread, and what becomes read lies at or below the new floor. The walk
      stopped for a reason: the next visible root has not been opened. */
  lemma CompactionIsSafe(roots: seq<int>, open: set<int>, floor: int)
    requires Increasing(roots)
    ensures var (floor', capped) := Compacted(roots, open, floor);
            && floor <= floor' && (floor' == floor || floor' in open)
            && |Above(open, floor')| <= OPENED_POSTS_CAP
            && Unread(roots, Above(open, floor'), floor') <= Unread(roots, open, floor)
            && (forall p | p in Unread(roots, open, floor) - Unread(roots, Above(open, floor'), floor') :: p <= floor')
            && (forall p | p in roots && p > floor' && (forall q | q in roots && q > floor' :: p <= q) :: p !in open)
  {
    var folded := Folded(roots, Above(open, floor), floor);
    var rest := Above(open, folded);
    FoldedIsOpen(roots, Above(open, floor), floor);
    if |rest| > OPENED_POSTS_CAP {
      var kept := NthNewest(rest, OPENED_POSTS_CAP);
      FoldedIsOpen(roots, rest, kept);
      var floor' := Folded(roots, rest, kept);
      SubsetSize(Above(open, floor'), Above(rest, kept));
    }
  }

  /** Without the cap the unread posts are exactly those of before. */
  lemma CompactionPreserves(roots: seq<int>, open: set<int>, floor: int)
    requires Increasing(roots) && !Compacted(roots, open, floor).1
    ensures var floor' := Compacted(roots, open, floor).0;
            Unread(roots, Above(open, floor'), floor') == Unread(roots, open, floor)
    ensures forall p | p in roots && floor < p <= Compacted(roots, open, floor).0 :: p in open
  {
    FoldedIsOpen(roots, Above(open, floor), floor);
  }

  /** What moving the floor over `folded` to an opened post gives up. */
  lemma GivenUp(roots: seq<int>, open: set<int>, floor: int, folded: int, floor': int)
    requires floor <= folded <= floor'
    requires forall p | p in roots && floor < p <= folded :: p in open
    ensures Unread(roots, Above(open, floor'), floor') != Unread(roots, open, floor)
            <==> exists p | p in roots :: folded < p <= floor' && p !in open
  {
    var before, after := Unread(roots, open, floor), Unread(roots, Above(open, floor'), floor');
    if p :| p in roots && folded < p <= floor' && p !in open {
      assert p in before && p !in after;
    } else {
      assert forall p :: p in before <==> p in after;
      assert before == after;
    }
  }

  /** When the cap keeps the newest of the opened posts `rest` above `folded`, it gives unread posts up exactly
      when it passes a visible one. */
  lemma CapPasses(roots: seq<int>, open: set<int>, folded: int)
    requires Increasing(roots) && |Above(open, folded)| > OPENED_POSTS_CAP
    requires forall p | p in roots && p > folded && (forall q | q in roots && q > folded :: p <= q) :: p !in open
    ensures var rest := Above(open, folded);
            var kept := NthNewest(rest, OPENED_POSTS_CAP);
            && folded < kept <= Folded(roots, rest, kept)
            && ((exists p | p in roots :: folded < p <= kept)
            <==> exists p | p in roots :: folded < p <= Folded(roots, rest, kept) && p !in open)
  {
    var rest := Above(open, folded);
    var kept := NthNewest(rest, OPENED_POSTS_CAP);
    FoldedIsOpen(roots, rest, kept);
    FirstIsPassed(roots, open, folded, kept, Folded(roots, rest, kept));
  }

  lemma FirstIsPassed(roots: seq<int>, open: set<int>, folded: int, kept: int, floor: int)
    requires folded < kept <= floor
    requires forall p | p in roots && p > folded && (forall q | q in roots && q > folded :: p <= q) :: p !in open
    requires forall p | p in roots && kept < p <= floor :: p in open
    ensures (exists p | p in roots :: folded < p <= kept)
            <==> exists p | p in roots :: folded < p <= floor && p !in open
  {
    if p :| p in roots && folded < p <= kept {
      var next := FirstPassed(roots, folded, kept);
      assert next !in open;
    }
  }

  lemma FirstPassed(roots: seq<int>, folded: int, kept: int) returns (next: int)
    requires exists p | p in roots :: folded < p <= kept
    ensures next in roots && folded < next <= kept && forall q | q in roots && q > folded :: next <= q
  {
    var passed := set p | p in roots && folded < p <= kept;
    var p :| p in roots && folded < p <= kept;
    assert p in passed;
    next := Least(passed);
    assert forall q | q in roots && q > folded :: q in passed || q > kept;
  }

  /** Compaction gives unread posts up exactly when the cap moved the floor past a visible post: the oldest
      opened post it kept need not be visible itself. When it is, the report is exact. */
  lemma CapIsReported(roots: seq<int>, open: set<int>, floor: int)
    requires Increasing(roots)
    ensures var (floor', capped) := Compacted(roots, open, floor);
            var folded := Folded(roots, Above(open, floor), floor);
            Unread(roots, Above(open, floor'), floor') != Unread(roots, open, floor)
            <==> capped && exists p | p in roots :: folded < p <= NthNewest(Above(open, folded), OPENED_POSTS_CAP)
    ensures var (floor', capped) := Compacted(roots, open, floor);
            (forall p | p in open && p > floor :: p in roots)
            ==> (capped <==> Unread(roots, Above(open, floor'), floor') != Unread(roots, open, floor))
  {
    var (floor', capped) := Compacted(roots, open, floor);
    if !capped {
      CompactionPreserves(roots, open, floor);
    } else {
      var folded := Folded(roots, Above(open, floor), floor);
      FoldedIsOpen(roots, Above(open, floor), floor);
      CapPasses(roots, open, folded);
      GivenUp(roots, open, floor, folded, floor');
    }
  }

  function UpTo(k: nat): (s: set<int>)
    ensures |s| == k && forall x :: x in s <==> 1 <= x <= k
  {
    if k == 0 then {} else UpTo(k - 1) + {k}
  }

  /** The cap may be reported and nothing given up: posts 1 to 501 were opened and have been hidden since, and only
      post 1000 is visible. */
  lemma CapWithoutLoss() returns (roots: seq<int>, open: set<int>)
    ensures Increasing(roots)
    ensures var (floor', capped) := Compacted(roots, open, 0);
            capped && Unread(roots, Above(open, floor'), floor') == Unread(roots, open, 0) == {1000}
  {
    roots, open := [1000], UpTo(OPENED_POSTS_CAP + 1);
    assert Above(open, 0) == open;
    assert Folded(roots, open, 0) == 0;
    CapIsReported(roots, open, 0);
  }

  // ---- the rows of one reader on one board ----

  /** The cursor row, if the board was ever visited, and the rows of the posts opened above it. */
  datatype Rows = Rows(floor: Option<int>, open: set<int>)

  /** A first visit counts what is there as read. Only the first baseline counts. */
  function AfterBaseline(rows: Rows, newest: Option<int>): Rows {
    if rows.floor.Some? then rows else rows.(floor := Some(newest.GetOr(0)))
  }

  /** Opening `p` after the floor was read as `floorRead`. The row is written only while the post exists. */
  ghost function AfterOpen(rows: Rows, roots: seq<int>, p: int, floorRead: int): (Rows, bool) {
    if p <= floorRead || rows.floor.None? then (rows, false)
    else
      var open := if p in roots then rows.open + {p} else rows.open;
      var (floor, capped) := Compacted(roots, open, floorRead);
      (Rows(Some(Max(rows.floor.value, floor)), Above(open, floor)), capped)
  }

  /** Marking all read after the floor, the newest post, the visible roots and the opened rows were read. */
  ghost function AfterMark(
    rows: Rows, roots: seq<int>, seen: set<int>, newest: Option<int>, floorRead: int): (Rows, bool)
  {
    if newest.None? || rows.floor.None? then (rows, false)
    else
      var (floor, capped) := Compacted(roots, seen, Max(floorRead, newest.value));
      (Rows(Some(Max(rows.floor.value, floor)), Above(rows.open, floor)), capped)
  }

  class ReadRows {
    var floor: Option<int>
    var open: set<int>

    function State(): Rows
      reads this
    {
      Rows(floor, open)
    }

    constructor ()
      ensures State() == Rows(None, {})
    {
      floor, open := None, {};
    }

    /** The ids in ascending order. */
    static method Sorted(s: set<int>) returns (q: seq<int>)
      ensures Increasing(q) && |q| == |s| && forall x :: x in q <==> x in s
    {
      q := [];
      var left := s;
      while left != {}
        invariant left <= s && |q| + |left| == |s|
        invariant forall x :: x in q <==> x in s && x !in left
        invariant Increasing(q) && forall i, y | 0 <= i < |q| && y in left :: q[i] < y
        decreases |left|
      {
        var x := Smallest(left);
        ghost var was := q;
        assert forall i | 0 <= i < |q| :: q[i] < x;
        q, left := q + [x], left - {x};
        assert forall y :: y in q <==> y in was || y == x;
      }
    }

    static method Smallest(s: set<int>) returns (x: int)
      requires s != {}
      ensures x in s && forall y | y in s :: x <= y
    {
      ghost var one := Element(s);
      x :| x in s;
      var left := s - {x};
      while left != {}
        invariant x in s && left <= s && forall y | y in s && y !in left :: x <= y
        decreases |left|
      {
        ghost var one := Element(left);
        var y :| y in left;
        left := left - {y};
        if y < x {
          x := y;
        }
      }
    }

    /** The walk: step through the visible roots above the floor until one was not opened. */
    static method Walk(roots: seq<int>, open: set<int>, start: int) returns (floor: int)
      requires Increasing(roots)
      ensures floor == Folded(roots, open, start)
    {
      floor := start;
      var i := 0;
      while i < |roots|
        invariant 0 <= i <= |roots|
        invariant Folded(roots[i..], open, floor) == Folded(roots, open, start)
        invariant start <= floor && forall k | i <= k < |roots| :: roots[k] > start ==> roots[k] > floor
      {
        assert roots[i..][0] == roots[i] && roots[i..][1..] == roots[i + 1..];
        if roots[i] > start {
          if roots[i] !in open {
            return;
          }
          floor := roots[i];
        }
        i := i + 1;
      }
    }

    /** Fold the opened posts into the floor, apply the cap, and drop every row the floor now covers. `seen` is
        what the query for the opened rows returned. */
    method Compact(roots: seq<int>, seen: set<int>, from: int) returns (floor': int, capped: bool)
      requires Increasing(roots)
      modifies `open
      ensures (floor', capped) == Compacted(roots, seen, from)
      ensures open == Above(old(open), floor')
    {
      floor', capped := from, false;
      var left := set p | p in seen && p > floor';
      FoldedIsOpen(roots, Above(seen, from), from);
      while left != {}
        invariant open == old(open) && left == Above(seen, floor')
        invariant if capped then CapHit(roots, seen, from, floor') && left != {} else floor' == from
        decreases left
      {
        ghost var bottom := floor';
        floor' := Walk(roots, left, floor');
        FoldedIsOpen(roots, left, bottom);
        if capped {
          WalkAfterCap(roots, seen, from, bottom);
        }
        left := set p | p in left && p > floor';
        assert left == Above(seen, floor');
        if |left| <= OPENED_POSTS_CAP {
          assert (floor', capped) == Compacted(roots, seen, from);
          break;
        }
        var sorted := Sorted(left);
        floor', capped := sorted[|sorted| - OPENED_POSTS_CAP], true;
        RankInSorted(left, sorted, |sorted| - OPENED_POSTS_CAP);
        RankIsUnique(left, floor', NthNewest(left, OPENED_POSTS_CAP));
        assert |Above(left, floor')| == OPENED_POSTS_CAP - 1;
        left := set p | p in left && p > floor';
      }
      open := set p | p in open && p > floor';
    }

    /** Never down: another session may have raised it further. */
    method RaiseFloor(to: int)
      modifies `floor
      ensures floor == if old(floor).Some? then Some(Max(old(floor).value, to)) else None
    {
      if floor.Some? && floor.value < to {
        floor := Some(to);
      }
    }

    method EnsureBaseline(newest: Option<int>)
      modifies `floor
      ensures State() == AfterBaseline(old(State()), newest)
    {
      if floor.None? {
        floor := Some(newest.GetOr(0));
      }
    }

    /** The transaction that records an opened post. */
    method RecordOpened(roots: seq<int>, p: int, floorRead: int) returns (capped: bool)
      requires Increasing(roots) && floor.Some?
      modifies this
      ensures (State(), capped) == AfterOpen(old(State()), roots, p, floorRead)
    {
      if p <= floorRead {
        return false;
      }
      if p in roots {
        open := open + {p};
      }
      var to;
      to, capped := Compact(roots, open, floorRead);
      RaiseFloor(to);
    }

    /** The transaction that marks a board read. */
    method MarkRead(roots: seq<int>, seen: set<int>, newest: Option<int>, floorRead: int) returns (capped: bool)
      requires Increasing(roots) && floor.Some?
      modifies this
      ensures (State(), capped) == AfterMark(old(State()), roots, seen, newest, floorRead)
    {
      if newest.None? {
        return false;
      }
      var to;
      to, capped := Compact(roots, seen, Max(floorRead, newest.value));
      RaiseFloor(to);
    }

    /** Which of `posts` are unread: above the floor and never opened; none on a board never visited. */
    method UnreadPostIds(posts: seq<int>) returns (unread: set<int>)
      ensures unread == if floor.None? then {} else Unread(posts, open, floor.value)
    {
      if floor.None? {
        return {};
      }
      var above := set p | p in posts && p > floor.value;
      unread := above - open;
    }
  }

  /** The cap moved the floor to `kept`. */
  ghost predicate CapHit(roots: seq<int>, seen: set<int>, from: int, kept: int) {
    var rest := Above(seen, Folded(roots, Above(seen, from), from));
    |rest| > OPENED_POSTS_CAP && kept == NthNewest(rest, OPENED_POSTS_CAP)
  }

  /** The walk that follows the cap ends the compaction. */
  lemma WalkAfterCap(roots: seq<int>, seen: set<int>, from: int, kept: int)
    requires Increasing(roots) && CapHit(roots, seen, from, kept)
    ensures Folded(roots, Above(seen, kept), kept) == Compacted(roots, seen, from).0
    ensures Compacted(roots, seen, from).1 && |Above(seen, Compacted(roots, seen, from).0)| < OPENED_POSTS_CAP
  {
    var rest := Above(seen, Folded(roots, Above(seen, from), from));
    FoldedAbove(roots, rest, kept);
    assert Above(rest, kept) == Above(seen, kept);
    FoldedIsOpen(roots, rest, kept);
    SubsetSize(Above(seen, Folded(roots, rest, kept)), Above(rest, kept));
  }

  lemma {:induction false} RankInSorted(s: set<int>, sorted: seq<int>, k: nat)
    requires Increasing(sorted) && k < |sorted| && forall x :: x in sorted <==> x in s
    ensures |Above(s, sorted[k])| == |sorted| - 1 - k
    decreases |sorted| - k
  {
    if k == |sorted| - 1 {
      assert Above(s, sorted[k]) == {};
    } else {
      RankInSorted(s, sorted, k + 1);
      forall x | x in Above(s, sorted[k])
        ensures x in Above(s, sorted[k + 1]) + {sorted[k + 1]}
      {
        var j :| 0 <= j < |sorted| && sorted[j] == x;
        assert j > k;
      }
      assert sorted[k] < sorted[k + 1] && sorted[k + 1] in s;
      assert Above(s, sorted[k]) == Above(s, sorted[k + 1]) + {sorted[k + 1]};
    }
  }
}
