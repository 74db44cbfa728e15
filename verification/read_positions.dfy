/** Feed positions (src/netbbs/activity.py): where a jump to the first unread post of a board lands, and the
    two watermarks of a file area. Time stamps and content ids, compared as strings by the program, are
    integers here; only their order matters. */
module ReadPositions {
  import opened Prelude
  import opened BoardCompaction

  datatype Position = Position(createdAt: int, stableId: int) {
    predicate Before(that: Position) {
      createdAt < that.createdAt || (createdAt == that.createdAt && stableId < that.stableId)
    }
  }

  // ---- the jump to the first unread post of a board ----

  /** A visible root: its arrival id and its place in the feed. */
  datatype Root = Root(id: int, position: Position)

  /** `Origin`, the empty position, is before every post. */
  datatype Anchor = Origin | At(position: Position) {
    predicate Before(root: Root) {
      Origin? || position.Before(root.position)
    }
  }

  predicate InFeedOrder(feed: seq<Root>) {
    forall i, j | 0 <= i < j < |feed| :: feed[i].position.Before(feed[j].position)
  }

  function FirstWhere(feed: seq<Root>, chosen: Root -> bool): Option<Root>
    decreases |feed|
  {
    if feed == [] then None
    else if chosen(feed[0]) then Some(feed[0])
    else FirstWhere(feed[1..], chosen)
  }

  /** The first post of the page that follows an anchor. */
  function FirstAfter(feed: seq<Root>, anchor: Anchor): Option<Root> {
    FirstWhere(feed, (r: Root) => anchor.Before(r))
  }

  predicate IsUnread(rows: Rows, r: Root) {
    rows.floor.Some? && !Read(rows.open, rows.floor.value, r.id)
  }

  function FirstUnread(feed: seq<Root>, rows: Rows): Option<Root> {
    FirstWhere(feed, (r: Root) => IsUnread(rows, r))
  }

  lemma {:induction false} FirstIsAt(feed: seq<Root>, chosen: Root -> bool, i: nat)
    requires i <= |feed| && forall k | 0 <= k < i :: !chosen(feed[k])
    requires i < |feed| ==> chosen(feed[i])
    ensures FirstWhere(feed, chosen) == if i < |feed| then Some(feed[i]) else None
    decreases |feed|
  {
    if i > 0 {
      FirstIsAt(feed[1..], chosen, i - 1);
    }
  }

  /** The anchor makes the page that follows it begin with the first unread post of the feed; with nothing
      unread, no post follows it. It is the post before, or the newest, if there is one. A board never visited has
      none. */
  method BoardReadCursor(feed: seq<Root>, rows: Rows, stored: Position) returns (anchor: Option<Anchor>)
    requires InFeedOrder(feed)
    ensures anchor.None? <==> rows.floor.None?
    ensures anchor.Some? ==> FirstAfter(feed, anchor.value) == FirstUnread(feed, rows)
    ensures anchor.Some? ==>
              match FirstUnread(feed, rows)
              case None => anchor.value == At(if feed == [] then stored else feed[|feed| - 1].position)
              case Some(root) =>
                || (anchor.value == Origin && feed[0] == root)
                || exists k | 0 < k < |feed| :: feed[k] == root && anchor.value == At(feed[k - 1].position)
  {
    if rows.floor.None? {
      return None;
    }
    var i := 0;
    while i < |feed| && (feed[i].id <= rows.floor.value || feed[i].id in rows.open)
      invariant 0 <= i <= |feed| && forall k | 0 <= k < i :: !IsUnread(rows, feed[k])
    {
      i := i + 1;
    }
    FirstIsAt(feed, (r: Root) => IsUnread(rows, r), i);
    if i == |feed| {
      anchor := Some(At(if feed == [] then stored else feed[|feed| - 1].position));
    } else {
      var before := |feed|;
      while before > 0 && !feed[before - 1].position.Before(feed[i].position)
        invariant i <= before <= |feed|
      {
        before := before - 1;
      }
      anchor := Some(if before == 0 then Origin else At(feed[before - 1].position));
      assert before == i;
    }
    FirstIsAt(feed, (r: Root) => anchor.value.Before(r), i);
  }

  // ---- the cursor of a file area ----

  /** `arrival` is missing only in a cursor from before arrivals were recorded. */
  datatype Cursor = Cursor(position: Position, arrival: Option<int>)

  datatype View = View(position: Position, arrival: int)

  function Recorded(cursor: Option<Cursor>, v: View): Option<Cursor> {
    if cursor.None? then Some(Cursor(v.position, Some(v.arrival)))
    else
      var c := cursor.value;
      if c.arrival.None? then
        if !c.position.Before(v.position) then cursor else Some(Cursor(v.position, Some(v.arrival)))
      else
        Some(Cursor(if c.position.Before(v.position) then v.position else c.position,
                    if v.arrival > c.arrival.value then Some(v.arrival) else c.arrival))
  }

  class FileAreaCursor {
    var cursor: Option<Cursor>

    method RecordSeen(v: View)
      modifies this
      ensures cursor == Recorded(old(cursor), v)
    {
      if cursor.None? || (cursor.value.arrival.None? && cursor.value.position.Before(v.position)) {
        cursor := Some(Cursor(v.position, Some(v.arrival)));
        return;
      }
      var existing := cursor.value;
      if existing.arrival.None? {
        return;
      }
      var arrivalAdvances := v.arrival > existing.arrival.value;
      var feedAdvances := existing.position.Before(v.position);
      if !arrivalAdvances && !feedAdvances {
        return;
      }
      cursor := Some(Cursor(if feedAdvances then v.position else existing.position,
                            if arrivalAdvances then Some(v.arrival) else existing.arrival));
    }
  }

  function AllRecorded(views: seq<View>): (c: Option<Cursor>)
    ensures c.None? <==> views == []
    decreases |views|
  {
    if views == [] then None else Recorded(AllRecorded(views[..|views| - 1]), views[|views| - 1])
  }

  /** The newest arrival and the furthest feed position of the views, which need not be of one view. */
  ghost predicate Watermarks(views: seq<View>, c: Cursor) {
    && c.arrival.Some?
    && (exists v :: v in views && v.arrival == c.arrival.value)
    && (exists v :: v in views && v.position == c.position)
    && forall v | v in views :: v.arrival <= c.arrival.value && !c.position.Before(v.position)
  }

  lemma {:induction false} RecordedIsWatermarks(views: seq<View>)
    requires views != []
    ensures Watermarks(views, AllRecorded(views).value)
    decreases |views|
  {
    var earlier, last := views[..|views| - 1], views[|views| - 1];
    assert forall v :: v in views <==> v in earlier || v == last;
    if earlier != [] {
      RecordedIsWatermarks(earlier);
    }
  }

  /** The cursor depends on what was seen, not on the order it was seen in. */
  lemma OrderDoesNotMatter(views: seq<View>, others: seq<View>)
    requires forall v :: v in views <==> v in others
    ensures AllRecorded(views) == AllRecorded(others)
  {
    assert views != [] ==> views[0] in others;
    assert others != [] ==> others[0] in views;
    if views != [] {
      RecordedIsWatermarks(views);
      RecordedIsWatermarks(others);
      var a, b := AllRecorded(views).value, AllRecorded(others).value;
      hide AllRecorded;
      WatermarksAgree(views, others, a, b);
    }
  }

  lemma WatermarksAgree(views: seq<View>, others: seq<View>, a: Cursor, b: Cursor)
    requires Watermarks(views, a) && Watermarks(others, b) && forall v :: v in views <==> v in others
    ensures a == b
  {
    var v :| v in views && v.position == a.position;
    var w :| w in others && w.position == b.position;
    assert !b.position.Before(v.position) && !a.position.Before(w.position);
  }
}
