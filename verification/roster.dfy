/** The roster check (services/reliable_nodes/check_roster.py): which entries of a published roster a node
    keeps, and how a report line is cut to the width of the terminal. */
module Roster {
  import opened Prelude

  const ROSTER_VERSION := 1
  const MAX_NODES := 32
  const MAX_RAW_ENTRIES := 256

  datatype Node = Node(name: string, url: string)

  /** A loaded roster; `None` for a member that is missing or not of its kind. */
  datatype Document<R> = Document(version: Option<int>, nodes: Option<seq<R>>)

  datatype Problem =
    | WrongVersion
    | NotAList
    | TooMany(count: nat)
    | Malformed(index: nat)
    | Duplicate(index: nat)
    | Truncated

  /** The first uses of each URL, in order, among the usable entries. */
  function FirstUses<R>(nodes: seq<R>, normalize: R -> Option<Node>): (kept: seq<Node>)
    ensures |kept| <= |nodes|
    decreases |nodes|
  {
    if nodes == [] then []
    else
      var before := FirstUses(nodes[..|nodes| - 1], normalize);
      var last := normalize(nodes[|nodes| - 1]);
      if last.Some? && !Uses(before, last.value.url) then before + [last.value] else before
  }

  predicate Uses(entries: seq<Node>, url: string) {
    exists k | 0 <= k < |entries| :: entries[k].url == url
  }

  /** An entry is kept if it is usable and no usable entry before it has its URL. */
  predicate IsFirstUse<R>(nodes: seq<R>, normalize: R -> Option<Node>, i: nat)
    requires i < |nodes|
  {
    && normalize(nodes[i]).Some?
    && forall j | 0 <= j < i && normalize(nodes[j]).Some? ::
         normalize(nodes[j]).value.url != normalize(nodes[i]).value.url
  }

  lemma {:induction false} UsesBefore<R>(nodes: seq<R>, normalize: R -> Option<Node>, url: string)
    ensures Uses(FirstUses(nodes, normalize), url) <==>
              exists j | 0 <= j < |nodes| :: normalize(nodes[j]).Some? && normalize(nodes[j]).value.url == url
    decreases |nodes|
  {
    if nodes != [] {
      var front, last := nodes[..|nodes| - 1], normalize(nodes[|nodes| - 1]);
      UsesBefore(front, normalize, url);
      var before := FirstUses(front, normalize);
      if last.Some? && !Uses(before, last.value.url) {
        UsesMore(before, last.value, url);
      }
      if last.Some? {
        UsesBefore(front, normalize, last.value.url);
      }
    }
  }

  lemma UsesMore(entries: seq<Node>, node: Node, url: string)
    ensures Uses(entries + [node], url) <==> Uses(entries, url) || node.url == url
  {
    var more := entries + [node];
    assert more[|entries|] == node;
    if Uses(entries, url) {
      var k :| 0 <= k < |entries| && entries[k].url == url;
      assert more[k].url == url;
    }
  }

  /** The last entry adds itself exactly when it is a first use. */
  lemma LastAdds<R>(nodes: seq<R>, normalize: R -> Option<Node>)
    requires nodes != []
    ensures var before := FirstUses(nodes[..|nodes| - 1], normalize);
            FirstUses(nodes, normalize) ==
              if IsFirstUse(nodes, normalize, |nodes| - 1) then before + [normalize(nodes[|nodes| - 1]).value]
              else before
  {
    var front, last := nodes[..|nodes| - 1], normalize(nodes[|nodes| - 1]);
    if last.Some? {
      UsesBefore(front, normalize, last.value.url);
      assert forall j | 0 <= j < |front| :: front[j] == nodes[j];
    }
  }

  /** Whether an earlier entry is a first use depends on no later one. */
  lemma EarlierUse<R>(nodes: seq<R>, normalize: R -> Option<Node>, i: nat)
    requires nodes != [] && i < |nodes| - 1
    ensures IsFirstUse(nodes, normalize, i) <==> IsFirstUse(nodes[..|nodes| - 1], normalize, i)
  {
  }

  /** The kept entries have distinct URLs, and none is lost exactly when every entry is a first use. */
  lemma {:induction false} FirstUsesAre<R>(nodes: seq<R>, normalize: R -> Option<Node>)
    ensures var kept := FirstUses(nodes, normalize);
            && (forall j, k | 0 <= j < k < |kept| :: kept[j].url != kept[k].url)
            && (|kept| == |nodes| <==> forall i | 0 <= i < |nodes| :: IsFirstUse(nodes, normalize, i))
    decreases |nodes|
  {
    if nodes != [] {
      var front := nodes[..|nodes| - 1];
      FirstUsesAre(front, normalize);
      LastAdds(nodes, normalize);
      forall i: nat | i < |front|
        ensures IsFirstUse(nodes, normalize, i) <==> IsFirstUse(front, normalize, i)
      {
        EarlierUse(nodes, normalize, i);
      }
      var before, kept := FirstUses(front, normalize), FirstUses(nodes, normalize);
      forall j, k | 0 <= j < k < |kept|
        ensures kept[j].url != kept[k].url
      {
        assert k == |before| ==> before[j] == kept[j];
      }
      hide IsFirstUse;
    }
  }

  lemma NoUses<R>(normalize: R -> Option<Node>)
    ensures FirstUses([], normalize) == []
  {
  }

  lemma NextUse<R>(nodes: seq<R>, normalize: R -> Option<Node>, index: nat)
    requires index < |nodes|
    ensures var before, next := FirstUses(nodes[..index], normalize), normalize(nodes[index]);
            FirstUses(nodes[..index + 1], normalize) ==
              if next.Some? && !Uses(before, next.value.url) then before + [next.value] else before
  {
    assert nodes[..index + 1][..index] == nodes[..index];
  }

  /** Each problem says what is wrong with the entry it names. */
  predicate Justified<R>(p: Problem, nodes: seq<R>, normalize: R -> Option<Node>) {
    match p
    case Malformed(i) => i < |nodes| && normalize(nodes[i]).None?
    case Duplicate(i) => i < |nodes| && normalize(nodes[i]).Some? && !IsFirstUse(nodes, normalize, i)
    case Truncated => |nodes| > MAX_NODES
    case _ => false
  }

  /** What is wrong with an entry that is no first use. */
  function Wrong<R>(nodes: seq<R>, normalize: R -> Option<Node>, i: nat): Problem
    requires i < |nodes|
  {
    if normalize(nodes[i]).None? then Malformed(i) else Duplicate(i)
  }

  /** What has been kept and reported of the first `index` entries. */
  ghost predicate Checked<R>(
    nodes: seq<R>, normalize: R -> Option<Node>, index: nat, entries: seq<Node>, problems: seq<Problem>)
  {
    && index <= |nodes| && entries == FirstUses(nodes[..index], normalize) && |problems| + |entries| == index
    && (forall p | p in problems :: Justified(p, nodes, normalize) && p != Truncated)
    && forall i | 0 <= i < index && !IsFirstUse(nodes, normalize, i) :: Wrong(nodes, normalize, i) in problems
  }

  lemma ChecksNone<R>(nodes: seq<R>, normalize: R -> Option<Node>)
    ensures Checked(nodes, normalize, 0, [], [])
  {
    NoUses(normalize);
    assert nodes[..0] == [];
  }

  lemma ChecksMalformed<R>(
    nodes: seq<R>, normalize: R -> Option<Node>, index: nat, entries: seq<Node>, problems: seq<Problem>)
    requires Checked(nodes, normalize, index, entries, problems) && index < |nodes| && normalize(nodes[index]).None?
    ensures Checked(nodes, normalize, index + 1, entries, problems + [Malformed(index)])
  {
    NextUse(nodes, normalize, index);
    hide FirstUses, Uses, IsFirstUse;
  }

  lemma ChecksDuplicate<R>(
    nodes: seq<R>, normalize: R -> Option<Node>, index: nat, entries: seq<Node>, problems: seq<Problem>)
    requires Checked(nodes, normalize, index, entries, problems) && index < |nodes| && normalize(nodes[index]).Some?
    requires Uses(entries, normalize(nodes[index]).value.url)
    ensures Checked(nodes, normalize, index + 1, entries, problems + [Duplicate(index)])
  {
    NextUse(nodes, normalize, index);
    assert !IsFirstUse(nodes, normalize, index) by {
      UsesBefore(nodes[..index], normalize, normalize(nodes[index]).value.url);
    }
    hide FirstUses, Uses, IsFirstUse;
  }

  lemma ChecksFirstUse<R>(
    nodes: seq<R>, normalize: R -> Option<Node>, index: nat, entries: seq<Node>, problems: seq<Problem>)
    requires Checked(nodes, normalize, index, entries, problems) && index < |nodes| && normalize(nodes[index]).Some?
    requires !Uses(entries, normalize(nodes[index]).value.url)
    ensures Checked(nodes, normalize, index + 1, entries + [normalize(nodes[index]).value], problems)
  {
    NextUse(nodes, normalize, index);
    assert IsFirstUse(nodes, normalize, index) by {
      UsesBefore(nodes[..index], normalize, normalize(nodes[index]).value.url);
      assert forall j | 0 <= j < index :: nodes[..index][j] == nodes[j];
    }
    hide FirstUses, Uses, IsFirstUse;
  }

  /** What the loop leaves, whether it read all entries or stopped at the limit. */
  lemma ChecksAll<R>(
    nodes: seq<R>, normalize: R -> Option<Node>, index: nat, entries: seq<Node>, problems: seq<Problem>)
    requires Checked(nodes, normalize, index, entries, problems) && (index < |nodes| ==> |entries| == MAX_NODES)
    requires |entries| <= MAX_NODES
    ensures var uses := FirstUses(nodes, normalize); entries == uses[..Min(|uses|, MAX_NODES)]
    ensures forall p | p in problems :: Justified(p, nodes, normalize) && p != Truncated
    ensures index < |nodes| ==> Justified(Truncated, nodes, normalize)
    ensures forall i | 0 <= i < |nodes| && !IsFirstUse(nodes, normalize, i)
              && |FirstUses(nodes[..i], normalize)| < MAX_NODES :: Wrong(nodes, normalize, i) in problems
  {
    FirstUsesGrow(nodes, normalize, index);
    assert nodes[..|nodes|] == nodes;
    hide FirstUses, IsFirstUse, Wrong;
    forall i | index <= i < |nodes|
      ensures |FirstUses(nodes[..i], normalize)| >= MAX_NODES
    {
      assert nodes[..i][..index] == nodes[..index];
      FirstUsesGrow(nodes[..i], normalize, index);
    }
  }

  /** Entries read one by one, stopping once the limit is kept. */
  method ValidateRoster<R>(document: Document<R>, normalize: R -> Option<Node>)
    returns (entries: seq<Node>, problems: seq<Problem>)
    ensures var wellFormed := document.version == Some(ROSTER_VERSION) && document.nodes.Some?
                              && |document.nodes.value| <= MAX_RAW_ENTRIES;
            if !wellFormed then
              && entries == []
              && problems == [if document.version != Some(ROSTER_VERSION) then WrongVersion
                              else if document.nodes.None? then NotAList else TooMany(|document.nodes.value|)]
            else
              && (var uses := FirstUses(document.nodes.value, normalize); entries == uses[..Min(|uses|, MAX_NODES)])
              && (problems == [] <==> |entries| == |document.nodes.value|)
              && (forall p | p in problems :: Justified(p, document.nodes.value, normalize))
              && (Truncated !in problems ==> |problems| + |entries| == |document.nodes.value|)
              && (Truncated in problems ==> |entries| == MAX_NODES)
              && (forall i | 0 <= i < |document.nodes.value| && !IsFirstUse(document.nodes.value, normalize, i)
                    && |FirstUses(document.nodes.value[..i], normalize)| < MAX_NODES ::
                    Wrong(document.nodes.value, normalize, i) in problems)
  {
    if document.version != Some(ROSTER_VERSION) {
      return [], [WrongVersion];
    }
    if document.nodes.None? {
      return [], [NotAList];
    }
    var nodes := document.nodes.value;
    if |nodes| > MAX_RAW_ENTRIES {
      return [], [TooMany(|nodes|)];
    }
    entries, problems := [], [];
    ChecksNone(nodes, normalize);
    hide FirstUses, Uses, IsFirstUse, Justified, Wrong;
    var index, truncated := 0, false;
    while index < |nodes|
      invariant 0 <= index <= |nodes| && |entries| < MAX_NODES
      invariant Checked(nodes, normalize, index, entries, problems)
    {
      var normalized := normalize(nodes[index]);
      if normalized.None? {
        ChecksMalformed(nodes, normalize, index, entries, problems);
        problems := problems + [Malformed(index)];
      } else if Uses(entries, normalized.value.url) {
        ChecksDuplicate(nodes, normalize, index, entries, problems);
        problems := problems + [Duplicate(index)];
      } else {
        ChecksFirstUse(nodes, normalize, index, entries, problems);
        entries := entries + [normalized.value];
        if |entries| >= MAX_NODES {
          truncated := |nodes| > index + 1;
          index := index + 1;
          break;
        }
      }
      index := index + 1;
    }
    ChecksAll(nodes, normalize, index, entries, problems);
    if truncated {
      problems := problems + [Truncated];
    }
  }

  lemma {:induction false} FirstUsesGrow<R>(nodes: seq<R>, normalize: R -> Option<Node>, n: nat)
    requires n <= |nodes|
    ensures FirstUses(nodes[..n], normalize) <= FirstUses(nodes, normalize)
    decreases |nodes|
  {
    if n == |nodes| {
      assert nodes[..n] == nodes;
    } else {
      var front := nodes[..|nodes| - 1];
      assert front[..n] == nodes[..n];
      FirstUsesGrow(front, normalize, n);
    }
  }

  // ---- cutting a token to the terminal ----

  function Columns(c: char, wide: char -> bool): nat {
    if wide(c) then 2 else 1
  }

  function DisplayWidth(text: string, wide: char -> bool): nat {
    if text == "" then 0 else Columns(text[0], wide) + DisplayWidth(text[1..], wide)
  }

  lemma {:induction false} WidthOfSum(a: string, b: string, wide: char -> bool)
    ensures DisplayWidth(a + b, wide) == DisplayWidth(a, wide) + DisplayWidth(b, wide)
    decreases |a|
  {
    if a == "" {
      assert a + b == b;
    } else {
      assert (a + b)[1..] == a[1..] + b;
      WidthOfSum(a[1..], b, wide);
    }
  }

  function Concatenated(pieces: seq<string>): string {
    if pieces == [] then "" else pieces[0] + Concatenated(pieces[1..])
  }

  lemma {:induction false} ConcatenatedMore(pieces: seq<string>, piece: string)
    ensures Concatenated(pieces + [piece]) == Concatenated(pieces) + piece
    decreases |pieces|
  {
    if pieces == [] {
      assert [piece][1..] == [];
    } else {
      assert (pieces + [piece])[1..] == pieces[1..] + [piece];
      ConcatenatedMore(pieces[1..], piece);
    }
  }

  /** A piece fits, and the character after it would not, unless the piece is the one character that must be taken. */
  ghost predicate WellCut(piece: string, rest: string, width: int, wide: char -> bool) {
    && piece != ""
    && (DisplayWidth(piece, wide) <= width || |piece| == 1)
    && rest != "" && DisplayWidth(piece, wide) + Columns(rest[0], wide) > width
  }

  /** Only the character that follows the cut matters. */
  lemma CutStands(piece: string, rest: string, other: string, width: int, wide: char -> bool)
    requires WellCut(piece, rest, width, wide) && other != "" && other[0] == rest[0]
    ensures WellCut(piece, other, width, wide)
  {
  }

  /** The longest beginning of `chunk` that fits, but at least a character. */
  method CutOf(chunk: string, width: int, wide: char -> bool) returns (cut: nat)
    requires DisplayWidth(chunk, wide) > width && chunk != ""
    ensures 1 <= cut <= |chunk|
    ensures DisplayWidth(chunk[..cut], wide) <= width || cut == 1
    ensures width >= 2 ==> DisplayWidth(chunk[..cut], wide) <= width
    ensures cut < |chunk| ==> WellCut(chunk[..cut], chunk[cut..], width, wide)
    ensures cut == |chunk| ==> |chunk| == 1
  {
    var taken, index := 0, 0;
    cut := 0;
    while index < |chunk|
      invariant 0 <= index <= |chunk| && cut == index
      invariant taken == DisplayWidth(chunk[..index], wide) && (index > 0 ==> taken <= width)
    {
      var step := Columns(chunk[index], wide);
      assert chunk[..index + 1] == chunk[..index] + [chunk[index]];
      WidthOfSum(chunk[..index], [chunk[index]], wide);
      if taken + step > width {
        break;
      }
      taken := taken + step;
      cut := index + 1;
      index := index + 1;
    }
    assert chunk[..|chunk|] == chunk;
    if cut == 0 {
      assert chunk[..1] == [chunk[0]];
      cut := 1;
    }
  }

  /** What the loop has cut off so far, and what is left. */
  ghost predicate Cut(token: string, pieces: seq<string>, chunk: string, width: int, wide: char -> bool) {
    && Concatenated(pieces) + chunk == token
    && (forall k | 0 <= k < |pieces| :: pieces[k] != "")
    && (width >= 2 ==> forall k | 0 <= k < |pieces| :: DisplayWidth(pieces[k], wide) <= width)
    && (forall k | 0 <= k < |pieces| - 1 :: WellCut(pieces[k], pieces[k + 1], width, wide))
    && (pieces != [] && chunk != "" ==> WellCut(pieces[|pieces| - 1], chunk, width, wide))
  }

  lemma CutsOn(token: string, pieces: seq<string>, chunk: string, cut: nat, width: int, wide: char -> bool)
    requires Cut(token, pieces, chunk, width, wide) && 1 <= cut <= |chunk|
    requires width >= 2 ==> DisplayWidth(chunk[..cut], wide) <= width
    requires cut < |chunk| ==> WellCut(chunk[..cut], chunk[cut..], width, wide)
    ensures Cut(token, pieces + [chunk[..cut]], chunk[cut..], width, wide)
  {
    hide WellCut, Concatenated, DisplayWidth;
    ConcatenatedMore(pieces, chunk[..cut]);
    assert chunk[..cut] + chunk[cut..] == chunk;
    if pieces != [] {
      CutStands(pieces[|pieces| - 1], chunk, chunk[..cut], width, wide);
    }
  }

  lemma CutEnds(token: string, pieces: seq<string>, chunk: string, width: int, wide: char -> bool)
    requires Cut(token, pieces, chunk, width, wide) && DisplayWidth(chunk, wide) <= width
    ensures Concatenated(pieces + [chunk]) == token
    ensures var all := pieces + [chunk];
            && (forall k | 0 <= k < |all| - 1 :: all[k] != "")
            && (width >= 2 ==> forall k | 0 <= k < |all| :: DisplayWidth(all[k], wide) <= width)
            && (forall k | 0 <= k < |all| - 1 && all[k + 1] != "" :: WellCut(all[k], all[k + 1], width, wide))
  {
    hide WellCut, Concatenated, DisplayWidth;
    ConcatenatedMore(pieces, chunk);
  }

  /** The splitting loop: it ends at any width of 1 or more, loses no character, cuts every piece but the last as
      late as it can, and keeps the pieces within any width of 2 or more. */
  method Split(token: string, width: int, wide: char -> bool) returns (pieces: seq<string>)
    requires width >= 1
    ensures Concatenated(pieces) == token && pieces != []
    ensures forall k | 0 <= k < |pieces| - 1 :: pieces[k] != ""
    ensures width >= 2 ==> forall k | 0 <= k < |pieces| :: DisplayWidth(pieces[k], wide) <= width
    ensures forall k | 0 <= k < |pieces| - 1 && pieces[k + 1] != "" :: WellCut(pieces[k], pieces[k + 1], width, wide)
  {
    hide WellCut, DisplayWidth;
    pieces := [];
    var chunk := token;
    assert Cut(token, pieces, chunk, width, wide);
    hide Concatenated, Cut;
    while DisplayWidth(chunk, wide) > width
      invariant Cut(token, pieces, chunk, width, wide)
      decreases |chunk|
    {
      SomeWidth(chunk, wide);
      var cut := CutOf(chunk, width, wide);
      CutsOn(token, pieces, chunk, cut, width, wide);
      pieces := pieces + [chunk[..cut]];
      chunk := chunk[cut..];
    }
    CutEnds(token, pieces, chunk, width, wide);
    pieces := pieces + [chunk];
  }

  lemma SomeWidth(text: string, wide: char -> bool)
    ensures DisplayWidth(text, wide) > 0 ==> text != ""
    ensures text != "" ==> DisplayWidth(text, wide) > 0
  {
  }
}
