/** What a wording check reads of a page (scripts/website_check_wording.py, `prose`): the runs of text outside
    every tag and protected element, however their spans overlap. */
module Prose {
  import opened Prelude

  /** A match: it begins at `start`, ends before `end`, and is not empty. */
  datatype Span = Span(start: nat, end: nat) {
    predicate Holds(i: int) {
      start <= i < end
    }
  }

  predicate Blocked(spans: seq<Span>, i: int) {
    exists k | 0 <= k < |spans| :: spans[k].Holds(i)
  }

  predicate AllIn(spans: seq<Span>, length: nat) {
    forall k | 0 <= k < |spans| :: spans[k].start < spans[k].end <= length
  }

  predicate Ordered(spans: seq<Span>) {
    forall j, k | 0 <= j < k < |spans| :: spans[j].start <= spans[k].start
  }

  /** Spans with something between any two of them. */
  predicate Separate(spans: seq<Span>) {
    && (forall k | 0 <= k < |spans| :: spans[k].start < spans[k].end)
    && (forall j, k | 0 <= j < k < |spans| :: spans[j].end < spans[k].start)
  }

  function Inserted(sorted: seq<Span>, s: Span): (r: seq<Span>)
    requires Ordered(sorted)
    ensures Ordered(r) && forall x :: x in r <==> x in sorted || x == s
    decreases |sorted|
  {
    if sorted == [] || s.start <= sorted[0].start then [s] + sorted
    else
      var rest := Inserted(sorted[1..], s);
      assert forall x | x in rest :: sorted[0].start <= x.start;
      [sorted[0]] + rest
  }

  function Sorted(spans: seq<Span>): (r: seq<Span>)
    ensures Ordered(r) && forall x :: x in r <==> x in spans
    decreases |spans|
  {
    if spans == [] then [] else Inserted(Sorted(spans[1..]), spans[0])
  }

  lemma SameBlocks(a: seq<Span>, b: seq<Span>, i: int)
    requires forall x :: x in a <==> x in b
    ensures Blocked(a, i) <==> Blocked(b, i)
  {
    if Blocked(a, i) {
      var k :| 0 <= k < |a| && a[k].Holds(i);
      assert a[k] in b;
    }
    if Blocked(b, i) {
      var k :| 0 <= k < |b| && b[k].Holds(i);
      assert b[k] in a;
    }
  }

  lemma BlockedMore(spans: seq<Span>, s: Span, i: int)
    ensures Blocked(spans + [s], i) <==> Blocked(spans, i) || s.Holds(i)
  {
    var more := spans + [s];
    assert more[|spans|] == s;
    if Blocked(spans, i) {
      var k :| 0 <= k < |spans| && spans[k].Holds(i);
      assert more[k].Holds(i);
    }
  }

  lemma BlockedLast(spans: seq<Span>, i: int)
    requires spans != []
    ensures Blocked(spans, i) <==> Blocked(spans[..|spans| - 1], i) || spans[|spans| - 1].Holds(i)
  {
    assert spans == spans[..|spans| - 1] + [spans[|spans| - 1]];
    BlockedMore(spans[..|spans| - 1], spans[|spans| - 1], i);
  }

  /** A span that overlaps or touches the last interval makes it grow. */
  lemma LastGrows(was: seq<Span>, before: seq<Span>, s: Span, grown: seq<Span>)
    requires was != [] && (forall i :: Blocked(was, i) <==> Blocked(before, i)) && s.start < s.end
    requires was[|was| - 1].start < was[|was| - 1].end && was[|was| - 1].start <= s.start <= was[|was| - 1].end
    requires grown == was[|was| - 1 := Span(was[|was| - 1].start, Max(was[|was| - 1].end, s.end))]
    ensures forall i :: Blocked(grown, i) <==> Blocked(before + [s], i)
  {
    hide Blocked;
    assert grown[..|was| - 1] == was[..|was| - 1];
    forall i
      ensures Blocked(grown, i) <==> Blocked(before + [s], i)
    {
      BlockedLast(was, i);
      BlockedLast(grown, i);
      BlockedMore(before, s, i);
    }
  }

  /** Any other becomes an interval of its own. */
  lemma OneMore(was: seq<Span>, before: seq<Span>, s: Span)
    requires forall i :: Blocked(was, i) <==> Blocked(before, i)
    ensures forall i :: Blocked(was + [s], i) <==> Blocked(before + [s], i)
  {
    hide Blocked;
    forall i
      ensures Blocked(was + [s], i) <==> Blocked(before + [s], i)
    {
      BlockedMore(was, s, i);
      BlockedMore(before, s, i);
    }
  }

  /** Merge ordered spans that overlap or touch; the last interval grows in place. */
  method Merge(spans: seq<Span>, length: nat) returns (merged: seq<Span>)
    requires Ordered(spans) && AllIn(spans, length)
    ensures Separate(merged) && AllIn(merged, length)
    ensures forall i :: Blocked(merged, i) <==> Blocked(spans, i)
  {
    assert spans[..0] == [] && forall i :: !Blocked([], i);
    hide Blocked;
    merged := [];
    for n := 0 to |spans|
      invariant Separate(merged) && AllIn(merged, length)
      invariant forall i :: Blocked(merged, i) <==> Blocked(spans[..n], i)
      invariant merged != [] ==> n > 0 && merged[|merged| - 1].start <= spans[n - 1].start
    {
      var s := spans[n];
      assert spans[..n + 1] == spans[..n] + [s];
      ghost var was := merged;
      if merged != [] && s.start <= merged[|merged| - 1].end {
        var last := merged[|merged| - 1];
        merged := merged[|merged| - 1 := Span(last.start, Max(last.end, s.end))];
        LastGrows(was, spans[..n], s, merged);
      } else {
        merged := merged + [s];
        OneMore(was, spans[..n], s);
      }
    }
    assert spans[..|spans|] == spans;
  }

  /** The runs of unblocked text: in order, apart from each other, none empty, each as long as it can be, and
      together holding every position that is not blocked. */
  ghost predicate MaximalRuns(runs: seq<Span>, spans: seq<Span>, length: nat) {
    && Separate(runs) && AllIn(runs, length)
    && (forall k | 0 <= k < |runs| :: runs[k].start > 0 ==> Blocked(spans, runs[k].start - 1))
    && (forall k | 0 <= k < |runs| :: runs[k].end < length ==> Blocked(spans, runs[k].end))
    && (forall i | 0 <= i < length :: Blocked(runs, i) <==> !Blocked(spans, i))
  }

  /** Before `cursor` the text has been read: `runs` are its maximal runs, and a blocked position ends it. */
  ghost predicate ReadUpTo(runs: seq<Span>, spans: seq<Span>, cursor: nat) {
    && Separate(runs) && (forall k | 0 <= k < |runs| :: runs[k].end < cursor)
    && (forall k | 0 <= k < |runs| :: runs[k].start > 0 ==> Blocked(spans, runs[k].start - 1))
    && (forall k | 0 <= k < |runs| :: Blocked(spans, runs[k].end))
    && (forall i | 0 <= i < cursor :: Blocked(runs, i) <==> !Blocked(spans, i))
    && (cursor > 0 ==> Blocked(spans, cursor - 1))
  }

  lemma SeparateMore(runs: seq<Span>, s: Span)
    requires Separate(runs) && s.start < s.end && forall k | 0 <= k < |runs| :: runs[k].end < s.start
    ensures Separate(runs + [s])
  {
  }

  /** Reading on to the end of the next blocked interval. */
  lemma ReadsOn(merged: seq<Span>, n: nat, cursor: nat, was: seq<Span>, runs: seq<Span>)
    requires Separate(merged) && n < |merged| && cursor == if n == 0 then 0 else merged[n - 1].end
    requires ReadUpTo(was, merged, cursor)
    requires runs == if merged[n].start > cursor then was + [Span(cursor, merged[n].start)] else was
    ensures ReadUpTo(runs, merged, merged[n].end)
  {
    var s := merged[n];
    IntervalIsBlocked(merged, n, cursor);
    StillSeparate(was, merged, cursor, s.start);
    hide Blocked, Separate, ReadUpTo;
    forall i | 0 <= i < s.end
      ensures Blocked(runs, i) <==> !Blocked(merged, i)
    {
      ReadsOnAt(merged, n, cursor, was, runs, i);
    }
    forall k | 0 <= k < |runs|
      ensures runs[k].end < s.end && Blocked(merged, runs[k].end)
      ensures runs[k].start > 0 ==> Blocked(merged, runs[k].start - 1)
    {
      RunStands(merged, n, cursor, was, runs, k);
    }
    IsReadUpTo(runs, merged, s.end);
  }

  lemma IntervalIsBlocked(merged: seq<Span>, n: nat, cursor: nat)
    requires Separate(merged) && n < |merged| && cursor == if n == 0 then 0 else merged[n - 1].end
    ensures Blocked(merged, merged[n].start) && Blocked(merged, merged[n].end - 1)
    ensures cursor <= merged[n].start < merged[n].end
  {
    assert merged[n].Holds(merged[n].start) && merged[n].Holds(merged[n].end - 1);
  }

  lemma StillSeparate(was: seq<Span>, merged: seq<Span>, cursor: nat, start: nat)
    requires ReadUpTo(was, merged, cursor)
    ensures Separate(was) && (start > cursor ==> Separate(was + [Span(cursor, start)]))
  {
    if start > cursor {
      SeparateMore(was, Span(cursor, start));
    }
  }

  lemma RunStands(merged: seq<Span>, n: nat, cursor: nat, was: seq<Span>, runs: seq<Span>, k: nat)
    requires ReadUpTo(was, merged, cursor) && n < |merged| && cursor <= merged[n].start < merged[n].end
    requires Blocked(merged, merged[n].start) && k < |runs|
    requires runs == if merged[n].start > cursor then was + [Span(cursor, merged[n].start)] else was
    ensures runs[k].end < merged[n].end && Blocked(merged, runs[k].end)
    ensures runs[k].start > 0 ==> Blocked(merged, runs[k].start - 1)
  {
    hide Blocked, Separate;
    assert k < |was| ==> runs[k] == was[k];
  }

  lemma IsReadUpTo(runs: seq<Span>, spans: seq<Span>, cursor: nat)
    requires Separate(runs) && forall k | 0 <= k < |runs| :: runs[k].end < cursor && Blocked(spans, runs[k].end)
    requires forall k | 0 <= k < |runs| :: runs[k].start > 0 ==> Blocked(spans, runs[k].start - 1)
    requires forall i | 0 <= i < cursor :: Blocked(runs, i) <==> !Blocked(spans, i)
    requires cursor > 0 ==> Blocked(spans, cursor - 1)
    ensures ReadUpTo(runs, spans, cursor)
  {
    hide Blocked, Separate;
  }

  lemma ReadsOnAt(merged: seq<Span>, n: nat, cursor: nat, was: seq<Span>, runs: seq<Span>, i: nat)
    requires Separate(merged) && n < |merged| && cursor == if n == 0 then 0 else merged[n - 1].end
    requires ReadUpTo(was, merged, cursor) && i < merged[n].end
    requires runs == if merged[n].start > cursor then was + [Span(cursor, merged[n].start)] else was
    ensures Blocked(runs, i) <==> !Blocked(merged, i)
  {
    var s := merged[n];
    GapIsFree(merged, n, cursor);
    assert i >= s.start ==> Blocked(merged, i) by {
      assert i >= s.start ==> merged[n].Holds(i);
    }
    hide Blocked;
    BlockedMore(was, Span(cursor, s.start), i);
    if i >= cursor {
      NothingBeyond(was, cursor, i);
    }
  }

  /** Past the last blocked interval everything is free, and one more run takes it. */
  lemma LastRunAt(merged: seq<Span>, length: nat, cursor: nat, was: seq<Span>, i: nat)
    requires Separate(merged) && cursor == if merged == [] then 0 else merged[|merged| - 1].end
    requires ReadUpTo(was, merged, cursor) && cursor < length && i < length
    ensures Blocked(was + [Span(cursor, length)], i) <==> !Blocked(merged, i)
  {
    GapIsFree(merged, |merged|, cursor);
    hide Blocked;
    BlockedMore(was, Span(cursor, length), i);
    if i >= cursor {
      NothingBeyond(was, cursor, i);
    }
  }

  /** The last run begins where the blocked text ends and reaches the end of the text. */
  lemma LastRunFits(merged: seq<Span>, length: nat, cursor: nat, was: seq<Span>, k: nat)
    requires ReadUpTo(was, merged, cursor) && cursor < length && k <= |was|
    ensures var run := (was + [Span(cursor, length)])[k];
            && run.start < run.end <= length
            && (run.start > 0 ==> Blocked(merged, run.start - 1))
            && (run.end < length ==> Blocked(merged, run.end))
  {
    hide Blocked;
  }

  lemma ReadsToTheEnd(merged: seq<Span>, length: nat, was: seq<Span>)
    requires ReadUpTo(was, merged, length)
    ensures MaximalRuns(was, merged, length)
  {
    hide Blocked;
  }

  /** Reading on from the last blocked interval to the end of the text. */
  lemma ReadsOut(merged: seq<Span>, length: nat, cursor: nat, was: seq<Span>, runs: seq<Span>)
    requires Separate(merged) && AllIn(merged, length) && cursor == if merged == [] then 0 else merged[|merged| - 1].end
    requires ReadUpTo(was, merged, cursor)
    requires runs == if cursor < length then was + [Span(cursor, length)] else was
    ensures MaximalRuns(runs, merged, length)
  {
    if cursor < length {
      SeparateMore(was, Span(cursor, length));
      hide Blocked, Separate, ReadUpTo, AllIn, MaximalRuns;
      forall i | 0 <= i < length
        ensures Blocked(runs, i) <==> !Blocked(merged, i)
      {
        LastRunAt(merged, length, cursor, was, i);
      }
      forall k | 0 <= k < |runs|
        ensures runs[k].start < runs[k].end <= length
        ensures runs[k].start > 0 ==> Blocked(merged, runs[k].start - 1)
        ensures runs[k].end < length ==> Blocked(merged, runs[k].end)
      {
        LastRunFits(merged, length, cursor, was, k);
      }
      AreMaximal(runs, merged, length);
    } else {
      assert cursor == length;
      ReadsToTheEnd(merged, length, was);
    }
  }

  lemma AreMaximal(runs: seq<Span>, spans: seq<Span>, length: nat)
    requires Separate(runs) && forall k | 0 <= k < |runs| :: runs[k].start < runs[k].end <= length
    requires forall k | 0 <= k < |runs| :: runs[k].start > 0 ==> Blocked(spans, runs[k].start - 1)
    requires forall k | 0 <= k < |runs| :: runs[k].end < length ==> Blocked(spans, runs[k].end)
    requires forall i | 0 <= i < length :: Blocked(runs, i) <==> !Blocked(spans, i)
    ensures MaximalRuns(runs, spans, length)
  {
    hide Blocked, Separate;
  }

  method Complement(merged: seq<Span>, length: nat) returns (runs: seq<Span>)
    requires Separate(merged) && AllIn(merged, length)
    ensures MaximalRuns(runs, merged, length)
  {
    hide Blocked, ReadUpTo, MaximalRuns;
    runs := [];
    var cursor := 0;
    assert ReadUpTo([], merged, 0) by {
      NothingRead(merged);
    }
    ghost var was := runs;
    for n := 0 to |merged|
      invariant cursor == if n == 0 then 0 else merged[n - 1].end
      invariant ReadUpTo(runs, merged, cursor)
    {
      was := runs;
      if merged[n].start > cursor {
        runs := runs + [Span(cursor, merged[n].start)];
      }
      ReadsOn(merged, n, cursor, was, runs);
      cursor := merged[n].end;
    }
    was := runs;
    if cursor < length {
      runs := runs + [Span(cursor, length)];
    }
    ReadsOut(merged, length, cursor, was, runs);
  }

  lemma NothingRead(merged: seq<Span>)
    ensures ReadUpTo([], merged, 0)
  {
  }

  /** Between the cursor and the next interval nothing is blocked. */
  lemma GapIsFree(merged: seq<Span>, n: nat, cursor: nat)
    requires Separate(merged) && n <= |merged| && cursor == if n == 0 then 0 else merged[n - 1].end
    ensures forall i | cursor <= i && (n < |merged| ==> i < merged[n].start) :: !Blocked(merged, i)
  {
    forall i | cursor <= i && (n < |merged| ==> i < merged[n].start)
      ensures !Blocked(merged, i)
    {
      forall k | 0 <= k < |merged|
        ensures !merged[k].Holds(i)
      {
        if k < n - 1 {
          assert merged[k].end < merged[n - 1].start;
        } else if k > n {
          assert merged[n].end < merged[k].start;
        }
      }
    }
  }

  lemma NothingBeyond(runs: seq<Span>, cursor: nat, i: int)
    requires (forall k | 0 <= k < |runs| :: runs[k].end < cursor) && i >= cursor
    ensures !Blocked(runs, i)
  {
  }

  // ---- the text ----

  /** The text at the unblocked positions from `i` on. */
  function Unblocked(text: string, spans: seq<Span>, i: nat): string
    decreases |text| - i
  {
    if i >= |text| then ""
    else (if Blocked(spans, i) then "" else [text[i]]) + Unblocked(text, spans, i + 1)
  }

  function Chunks(text: string, runs: seq<Span>): (c: seq<string>)
    requires AllIn(runs, |text|)
  {
    seq(|runs|, k requires 0 <= k < |runs| => text[runs[k].start..runs[k].end])
  }

  function Joined(chunks: seq<string>): string
    decreases |chunks|
  {
    if chunks == [] then "" else chunks[0] + Joined(chunks[1..])
  }

  lemma {:induction false} SkipBlocked(text: string, spans: seq<Span>, i: nat, j: nat)
    requires i <= j <= |text| && forall k | i <= k < j :: Blocked(spans, k)
    ensures Unblocked(text, spans, i) == Unblocked(text, spans, j)
    decreases j - i
  {
    if i < j {
      SkipBlocked(text, spans, i + 1, j);
    }
  }

  lemma {:induction false} TakeFree(text: string, spans: seq<Span>, i: nat, j: nat)
    requires i <= j <= |text| && forall k | i <= k < j :: !Blocked(spans, k)
    ensures Unblocked(text, spans, i) == text[i..j] + Unblocked(text, spans, j)
    decreases j - i
  {
    hide Blocked;
    if i < j {
      TakeFree(text, spans, i + 1, j);
      var rest := Unblocked(text, spans, j);
      assert text[i..j] == [text[i]] + text[i + 1..j];
      assert text[i..j] + rest == [text[i]] + (text[i + 1..j] + rest);
    } else {
      assert text[i..j] == "";
    }
  }

  lemma BlockedRest(runs: seq<Span>, i: int)
    requires Separate(runs) && runs != []
    ensures i < runs[0].start ==> !Blocked(runs, i)
    ensures runs[0].start <= i < runs[0].end ==> Blocked(runs, i)
    ensures i >= runs[0].end ==> (Blocked(runs, i) <==> Blocked(runs[1..], i))
  {
    var rest := runs[1..];
    if Blocked(runs, i) {
      var k :| 0 <= k < |runs| && runs[k].Holds(i);
      assert k == 0 || rest[k - 1].Holds(i);
      assert k > 0 ==> runs[0].end < runs[k].start;
    }
    if Blocked(rest, i) {
      var k :| 0 <= k < |rest| && rest[k].Holds(i);
      assert runs[k + 1].Holds(i);
    }
    assert i >= runs[0].start && i < runs[0].end ==> runs[0].Holds(i);
  }

  /** The chunks, put together, are the text without its blocked positions. */
  lemma {:induction false} ChunksAreTheRest(text: string, spans: seq<Span>, runs: seq<Span>, i: nat)
    requires i <= |text| && Separate(runs) && AllIn(runs, |text|) && (runs != [] ==> i <= runs[0].start)
    requires forall j | i <= j < |text| :: Blocked(runs, j) <==> !Blocked(spans, j)
    ensures Joined(Chunks(text, runs)) == Unblocked(text, spans, i)
    decreases |runs|
  {
    if runs == [] {
      NoChunks(text, spans, i);
    } else {
      var first, rest := runs[0], runs[1..];
      AroundFirst(|text|, spans, runs, i);
      hide Blocked, Separate, AllIn, Unblocked, Joined, Chunks;
      SkipBlocked(text, spans, i, first.start);
      TakeFree(text, spans, first.start, first.end);
      ChunksAreTheRest(text, spans, rest, first.end);
      FirstChunk(text, runs);
    }
  }

  lemma NoChunks(text: string, spans: seq<Span>, i: nat)
    requires i <= |text| && forall j | i <= j < |text| :: Blocked([], j) <==> !Blocked(spans, j)
    ensures Joined(Chunks(text, [])) == Unblocked(text, spans, i)
  {
    assert forall j :: !Blocked([], j);
    hide Blocked;
    SkipBlocked(text, spans, i, |text|);
    assert Chunks(text, []) == [];
  }

  lemma AroundFirst(length: nat, spans: seq<Span>, runs: seq<Span>, i: nat)
    requires Separate(runs) && AllIn(runs, length) && runs != [] && i <= runs[0].start
    requires forall j | i <= j < length :: Blocked(runs, j) <==> !Blocked(spans, j)
    ensures i <= runs[0].start < runs[0].end <= length
    ensures forall j | i <= j < runs[0].start :: Blocked(spans, j)
    ensures forall j | runs[0].start <= j < runs[0].end :: !Blocked(spans, j)
    ensures forall j | runs[0].end <= j < length :: Blocked(runs[1..], j) <==> !Blocked(spans, j)
    ensures Separate(runs[1..]) && AllIn(runs[1..], length)
    ensures runs[1..] != [] ==> runs[0].end <= runs[1..][0].start
  {
    hide Blocked;
    forall j | i <= j < length
      ensures j < runs[0].start ==> Blocked(spans, j)
      ensures runs[0].start <= j < runs[0].end ==> !Blocked(spans, j)
      ensures j >= runs[0].end ==> (Blocked(runs[1..], j) <==> !Blocked(spans, j))
    {
      BlockedRest(runs, j);
    }
  }

  lemma FirstChunk(text: string, runs: seq<Span>)
    requires AllIn(runs, |text|) && runs != []
    ensures AllIn(runs[1..], |text|)
    ensures Joined(Chunks(text, runs)) == text[runs[0].start..runs[0].end] + Joined(Chunks(text, runs[1..]))
  {
    assert Chunks(text, runs)[1..] == Chunks(text, runs[1..]);
  }

  /** `prose`: the chunks of a page's text, given the spans of its protected elements and of its tags. */
  method Read(text: string, protectedSpans: seq<Span>, tags: seq<Span>) returns (chunks: seq<string>)
    requires AllIn(protectedSpans, |text|)
    requires AllIn(tags, |text|)
    ensures exists runs :: MaximalRuns(runs, protectedSpans + tags, |text|) && chunks == Chunks(text, runs)
    ensures Joined(chunks) == Unblocked(text, protectedSpans + tags, 0)
  {
    var spans := protectedSpans + tags;
    var blocked := Sorted(spans);
    assert forall k | 0 <= k < |blocked| :: blocked[k] in spans;
    var merged := Merge(blocked, |text|);
    var free := Complement(merged, |text|);
    forall i
      ensures Blocked(merged, i) <==> Blocked(spans, i)
    {
      SameBlocks(blocked, spans, i);
    }
    ChunksAreTheRest(text, spans, free, 0);
    assert MaximalRuns(free, spans, |text|);
    chunks := Chunks(text, free);
  }
}
