/** What escape sequences do, told of the characters that are fed (scripts/website_ansi_to_html.py). Each law holds
    wherever its sequence stands in whatever is fed: feeding goes on behind it, on the screen the law gives. */
module Sequences {
  import opened Prelude
  import opened Terminal
  import opened Screen

  const ESCAPE: char := '\U{1b}'

  /** `text` stands at `i`. */
  predicate Stands(data: string, i: nat, text: string) {
    i + |text| <= |data| && data[i..i + |text|] == text
  }

  // ---- numbers ----

  function Decimal(n: nat): (digits: string)
    ensures digits != ""
    ensures forall k | 0 <= k < |digits| :: IsDigit(digits[k])
  {
    if n < 10 then ['0' + n as char] else Decimal(n / 10) + ['0' + (n % 10) as char]
  }

  /** Numbers with semicolons between them. */
  function Joined(ps: seq<nat>): (text: string)
    ensures forall k | 0 <= k < |text| :: IsParameter(text[k]) && text[k] != '?'
    ensures ps != [] ==> text != ""
    decreases |ps|
  {
    if ps == [] then "" else if |ps| == 1 then Decimal(ps[0]) else Decimal(ps[0]) + ";" + Joined(ps[1..])
  }

  lemma {:induction false} NumberReads(n: nat, rest: string)
    ensures Numbers(Decimal(n) + rest, 0) == Numbers(rest, n)
    decreases n
  {
    if n < 10 {
      assert (Decimal(n) + rest)[1..] == rest;
    } else {
      var last := ['0' + (n % 10) as char];
      assert Decimal(n) + rest == Decimal(n / 10) + (last + rest);
      NumberReads(n / 10, last + rest);
      assert (last + rest)[1..] == rest;
    }
  }

  /** The parameters written are the parameters read. */
  lemma {:induction false} ParametersReadBack(ps: seq<nat>)
    ensures Parameters(Joined(ps)) == Some(ps)
    decreases |ps|
  {
    if |ps| == 1 {
      NumberReads(ps[0], "");
      assert Decimal(ps[0]) + "" == Decimal(ps[0]);
      assert [ps[0]] == ps;
    } else if |ps| > 1 {
      var rest := ";" + Joined(ps[1..]);
      assert Joined(ps) == Decimal(ps[0]) + rest;
      NumberReads(ps[0], rest);
      assert rest[1..] == Joined(ps[1..]);
      ParametersReadBack(ps[1..]);
      assert [ps[0]] + ps[1..] == ps;
    }
  }

  /** A parameter left out, before others or after them, is 0. */
  lemma LeftOutIsZero(ps: seq<nat>)
    requires ps != []
    ensures Parameters(";" + Joined(ps)) == Some([0] + ps)
    ensures Parameters(Joined(ps) + ";") == Some(ps + [0])
  {
    ParametersReadBack(ps);
    assert (";" + Joined(ps))[1..] == Joined(ps);
    ReadsOnward(ps);
  }

  lemma {:induction false} ReadsOnward(ps: seq<nat>)
    requires ps != []
    ensures Numbers(Joined(ps) + ";", 0) == Some(ps + [0])
    decreases |ps|
  {
    if |ps| == 1 {
      NumberReads(ps[0], ";");
      assert ";"[1..] == "" && [ps[0]] + [0] == ps + [0];
    } else {
      var rest := ";" + (Joined(ps[1..]) + ";");
      assert Joined(ps) + ";" == Decimal(ps[0]) + rest;
      NumberReads(ps[0], rest);
      assert rest[1..] == Joined(ps[1..]) + ";";
      ReadsOnward(ps[1..]);
      assert [ps[0]] + (ps[1..] + [0]) == ps + [0];
    }
  }

  // ---- control sequences ----

  /** A control sequence: what stands between the introducer and the letter at its end. */
  function Sequence(raw: string, final: char): string {
    [ESCAPE, '['] + raw + [final]
  }

  function Control(ps: seq<nat>, final: char): string {
    Sequence(Joined(ps), final)
  }

  lemma {:induction false} ParametersEndThere(data: string, i: nat, j: nat)
    requires i <= j < |data| && (forall k | i <= k < j :: IsParameter(data[k])) && !IsParameter(data[j])
    ensures ParametersEnd(data, i) == j
    decreases j - i
  {
    if i < j {
      ParametersEndThere(data, i + 1, j);
    }
  }

  /** A control sequence is read whole, and acts with its parameters. */
  lemma ControlFed(t: Term, data: string, i: nat, raw: string, final: char)
    requires WellShaped(t) && Stands(data, i, Sequence(raw, final)) && IsLetter(final)
    requires forall k | 0 <= k < |raw| :: IsParameter(raw[k])
    ensures var u := Csi(t, raw, final);
            FeedFrom(t, data, i) == if u.None? then None else FeedFrom(u.value, data, i + |Sequence(raw, final)|)
  {
    var text := Sequence(raw, final);
    var end := i + 2 + |raw|;
    forall k | 0 <= k < |text|
      ensures data[i + k] == text[k]
    {
      assert data[i..i + |text|][k] == text[k];
    }
    forall k | i + 2 <= k < end
      ensures IsParameter(data[k])
    {
      assert text[k - i] == raw[k - i - 2] && data[i + (k - i)] == text[k - i];
    }
    assert data[i + 0] == ESCAPE && data[i + 1] == '[' && data[end] == final by {
      assert text[|text| - 1] == final && data[i + (|text| - 1)] == text[|text| - 1];
    }
    ParametersEndThere(data, i + 2, end);
    assert data[i + 2..end] == raw by {
      assert text[2..2 + |raw|] == raw;
      assert data[i + 2..end] == data[i..i + |text|][2..2 + |raw|];
    }
    hide Csi, ParametersEnd;
  }

  /** The same, for a sequence that does not raise, with its parameters as numbers. */
  lemma Acts(t: Term, data: string, i: nat, ps: seq<nat>, final: char) returns (u: Option<Term>)
    requires WellShaped(t) && Stands(data, i, Control(ps, final)) && IsLetter(final)
    ensures u == Csi(t, Joined(ps), final) && (u.Some? ==> WellShaped(u.value))
    ensures FeedFrom(t, data, i) == if u.None? then None else FeedFrom(u.value, data, i + |Control(ps, final)|)
    ensures Parameters(Joined(ps)) == Some(ps) && (Joined(ps) != "" ==> Joined(ps)[0] != '?')
  {
    ParametersReadBack(ps);
    ControlFed(t, data, i, Joined(ps), final);
    u := Csi(t, Joined(ps), final);
  }

  // ---- the cursor ----

  /** The `n`th of `size` places, counted from one; the first when `n` is 0, and at most the last. */
  function Place(n: nat, size: nat): (place: int)
    requires size > 0
    ensures 0 <= place < size
  {
    if n == 0 then 0 else if n <= size then n - 1 else size - 1
  }

  /** The `n`th parameter; one that is not given is 0. */
  function Given(ps: seq<nat>, n: nat): nat {
    if n < |ps| then ps[n] else 0
  }

  /** How far a movement goes: 0 stands for 1. */
  function Steps(ps: seq<nat>): nat {
    if Given(ps, 0) == 0 then 1 else Given(ps, 0)
  }

  /** Cursor position (section 8.3.21 of ECMA-48), and its twin: first the line, then the column. */
  lemma CursorPosition(t: Term, data: string, i: nat, ps: seq<nat>, final: char)
    requires WellShaped(t) && final in {'H', 'f'} && Stands(data, i, Control(ps, final))
    ensures var u := t.(row := Place(Given(ps, 0), t.height), col := Place(Given(ps, 1), t.width));
            FeedFrom(t, data, i) == FeedFrom(u, data, i + |Control(ps, final)|)
  {
    hide FeedFrom, Joined, Control, Parameters, EraseDisplay, EraseLine, Sgr;
    var u := Acts(t, data, i, ps, final);
  }

  lemma CursorUp(t: Term, data: string, i: nat, ps: seq<nat>)
    requires WellShaped(t) && Stands(data, i, Control(ps, 'A'))
    ensures var row := if Steps(ps) <= t.row then t.row - Steps(ps) else 0;
            FeedFrom(t, data, i) == FeedFrom(t.(row := row), data, i + |Control(ps, 'A')|)
  {
    hide FeedFrom, Joined, Control, Parameters, EraseDisplay, EraseLine, Sgr;
    var u := Acts(t, data, i, ps, 'A');
  }

  lemma CursorDown(t: Term, data: string, i: nat, ps: seq<nat>)
    requires WellShaped(t) && Stands(data, i, Control(ps, 'B'))
    ensures var row := if t.row + Steps(ps) < t.height then t.row + Steps(ps) else t.height - 1;
            FeedFrom(t, data, i) == FeedFrom(t.(row := row), data, i + |Control(ps, 'B')|)
  {
    hide FeedFrom, Joined, Control, Parameters, EraseDisplay, EraseLine, Sgr;
    var u := Acts(t, data, i, ps, 'B');
  }

  lemma CursorForward(t: Term, data: string, i: nat, ps: seq<nat>)
    requires WellShaped(t) && Stands(data, i, Control(ps, 'C'))
    ensures var col := if t.col + Steps(ps) < t.width then t.col + Steps(ps) else t.width - 1;
            FeedFrom(t, data, i) == FeedFrom(t.(col := col), data, i + |Control(ps, 'C')|)
  {
    hide FeedFrom, Joined, Control, Parameters, EraseDisplay, EraseLine, Sgr;
    var u := Acts(t, data, i, ps, 'C');
  }

  lemma CursorBack(t: Term, data: string, i: nat, ps: seq<nat>)
    requires WellShaped(t) && Stands(data, i, Control(ps, 'D'))
    ensures var col := if Steps(ps) <= t.col then t.col - Steps(ps) else 0;
            FeedFrom(t, data, i) == FeedFrom(t.(col := col), data, i + |Control(ps, 'D')|)
  {
    hide FeedFrom, Joined, Control, Parameters, EraseDisplay, EraseLine, Sgr;
    var u := Acts(t, data, i, ps, 'D');
  }

  lemma CursorColumn(t: Term, data: string, i: nat, ps: seq<nat>)
    requires WellShaped(t) && Stands(data, i, Control(ps, 'G'))
    ensures FeedFrom(t, data, i) == FeedFrom(t.(col := Place(Given(ps, 0), t.width)), data, i + |Control(ps, 'G')|)
  {
    hide FeedFrom, Joined, Control, Parameters, EraseDisplay, EraseLine, Sgr;
    var u := Acts(t, data, i, ps, 'G');
  }

  /** The scroll region runs from one line to another, both counted from one; a missing end is the screen's, and a
      first line below the screen stays there. The cursor goes home. */
  lemma ScrollRegion(t: Term, data: string, i: nat, ps: seq<nat>)
    requires WellShaped(t) && Stands(data, i, Control(ps, 'r'))
    ensures var first, last := Given(ps, 0), Given(ps, 1);
            var u := t.(top := if first == 0 then 0 else first - 1,
                        bottom := if last == 0 then t.height - 1 else Place(last, t.height), row := 0, col := 0);
            FeedFrom(t, data, i) == FeedFrom(u, data, i + |Control(ps, 'r')|)
  {
    hide FeedFrom, Joined, Control, Parameters, EraseDisplay, EraseLine, Sgr;
    var u := Acts(t, data, i, ps, 'r');
  }

  // ---- saving and restoring ----

  /** Two ways each to save and to restore the cursor. */
  function Saving(short: bool): string {
    if short then [ESCAPE, '7'] else Control([], 's')
  }

  function Restoring(short: bool): string {
    if short then [ESCAPE, '8'] else Control([], 'u')
  }

  /** Whether the step at `i` saves the cursor. */
  predicate SavesAt(data: string, i: nat) {
    || (i + 1 < |data| && data[i] == ESCAPE && data[i + 1] == '7')
    || (CsiAt(data, i) && data[ParametersEnd(data, i + 2)] == 's')
  }

  /** Feeding from `i` gets to `j`, and saves nothing on the way. */
  ghost predicate Passes(t: Term, data: string, i: nat, j: nat)
    requires WellShaped(t) && j <= |data|
    decreases |data| - i
  {
    i == j
    || (i < j && !SavesAt(data, i)
        && var (u, next) := FeedOne(t, data, i); u.Some? && Passes(u.value, data, next, j))
  }

  ghost function FedTo(t: Term, data: string, i: nat, j: nat): (u: Term)
    requires WellShaped(t) && j <= |data| && Passes(t, data, i, j)
    ensures KeepsShape(t, u) && u.saved == t.saved
    ensures FeedFrom(t, data, i) == FeedFrom(u, data, j)
    decreases |data| - i
  {
    if i == j then t
    else
      var (u, next) := FeedOne(t, data, i);
      assert u.value.saved == t.saved by { OnlySavingSaves(t, data, i); }
      FedTo(u.value, data, next, j)
  }

  lemma OnlySavingSaves(t: Term, data: string, i: nat)
    requires WellShaped(t) && i < |data| && !SavesAt(data, i) && FeedOne(t, data, i).0.Some?
    ensures FeedOne(t, data, i).0.value.saved == t.saved
  {
  }

  lemma ShortFed(t: Term, data: string, i: nat, digit: char)
    requires WellShaped(t) && Stands(data, i, [ESCAPE, digit]) && digit in {'7', '8'}
    ensures FeedFrom(t, data, i)
         == FeedFrom(if digit == '7' then t.(saved := Some(Saved(t.row, t.col, t.style))) else Restored(t), data, i + 2)
  {
    assert data[i..i + 2][0] == ESCAPE && data[i..i + 2][1] == digit;
    hide Csi, Index, Put;
  }

  /** A cursor that is saved comes back, position and rendition, when it is restored, whatever is fed in between that
      saves no other; what was painted stays. */
  lemma SavedComesBack(t: Term, data: string, i: nat, j: nat, shortSave: bool, shortRestore: bool)
    requires WellShaped(t) && Stands(data, i, Saving(shortSave)) && Stands(data, j, Restoring(shortRestore))
    requires Passes(t.(saved := Some(Saved(t.row, t.col, t.style))), data, i + |Saving(shortSave)|, j)
    ensures var kept := t.(saved := Some(Saved(t.row, t.col, t.style)));
            var u := FedTo(kept, data, i + |Saving(shortSave)|, j);
            FeedFrom(t, data, i)
            == FeedFrom(u.(row := t.row, col := t.col, style := t.style), data, j + |Restoring(shortRestore)|)
  {
    hide FeedFrom, FedTo, Passes, FeedOne, Csi;
    SaveFed(t, data, i, shortSave);
    var u := FedTo(t.(saved := Some(Saved(t.row, t.col, t.style))), data, i + |Saving(shortSave)|, j);
    RestoreFed(u, data, j, shortRestore);
  }

  lemma SaveFed(t: Term, data: string, i: nat, short: bool)
    requires WellShaped(t) && Stands(data, i, Saving(short))
    ensures FeedFrom(t, data, i)
         == FeedFrom(t.(saved := Some(Saved(t.row, t.col, t.style))), data, i + |Saving(short)|)
  {
    hide FeedFrom, Joined, Parameters, EraseDisplay, EraseLine, Sgr, Stands;
    if short {
      ShortFed(t, data, i, '7');
    } else {
      var v := Acts(t, data, i, [], 's');
    }
  }

  lemma RestoreFed(t: Term, data: string, i: nat, short: bool)
    requires WellShaped(t) && Stands(data, i, Restoring(short))
    ensures FeedFrom(t, data, i) == FeedFrom(Restored(t), data, i + |Restoring(short)|)
  {
    hide FeedFrom, Joined, Parameters, EraseDisplay, EraseLine, Sgr, Stands;
    if short {
      ShortFed(t, data, i, '8');
    } else {
      var v := Acts(t, data, i, [], 'u');
    }
  }

  /** When nothing was saved, there is nothing to restore. */
  lemma NothingToRestore(t: Term, data: string, i: nat, short: bool)
    requires WellShaped(t) && Stands(data, i, Restoring(short)) && t.saved.None?
    ensures FeedFrom(t, data, i) == FeedFrom(t, data, i + |Restoring(short)|)
  {
    hide FeedFrom, Control;
    RestoreFed(t, data, i, short);
  }

  // ---- erasing ----

  /** Erase in display (section 8.3.39 of ECMA-48) blanks cells and does nothing else. */
  lemma EraseInDisplay(t: Term, data: string, i: nat, ps: seq<nat>) returns (u: Term)
    requires WellShaped(t) && Stands(data, i, Control(ps, 'J'))
    ensures KeepsShape(t, u) && u == t.(cells := u.cells)
    ensures FeedFrom(t, data, i) == FeedFrom(u, data, i + |Control(ps, 'J')|)
    ensures var mode := Given(ps, 0);
            forall r, c | OnScreen(t, r, c) ::
              At(u, r, c) ==
                if || mode == 2
                   || (mode == 0 && (r > t.row || (r == t.row && c >= t.col)))
                   || (mode != 0 && mode != 2 && (r < t.row || (r == t.row && c <= t.col)))
                then BLANK_CELL else At(t, r, c)
  {
    var v := Acts(t, data, i, ps, 'J');
    u := v.value;
    forall r, c | OnScreen(t, r, c) {
      EraseDisplayBlanks(t, Given(ps, 0), r, c);
    }
    hide FeedFrom, Joined, EraseDisplay;
  }

  /** Erase in line (section 8.3.41 of ECMA-48). */
  lemma EraseInLine(t: Term, data: string, i: nat, ps: seq<nat>) returns (u: Term)
    requires WellShaped(t) && Stands(data, i, Control(ps, 'K'))
    ensures KeepsShape(t, u) && u == t.(cells := u.cells)
    ensures FeedFrom(t, data, i) == FeedFrom(u, data, i + |Control(ps, 'K')|)
    ensures var mode := Given(ps, 0);
            forall r, c | OnScreen(t, r, c) ::
              At(u, r, c) ==
                if r == t.row && (if mode == 0 then c >= t.col else if mode == 1 then c <= t.col else true)
                then BLANK_CELL else At(t, r, c)
  {
    var v := Acts(t, data, i, ps, 'K');
    u := v.value;
    forall r, c | OnScreen(t, r, c) {
      EraseLineBlanks(t, Given(ps, 0), r, c);
    }
    hide FeedFrom, Joined, EraseLine;
  }

  // ---- what does nothing ----

  /** A private mode is skipped, whatever follows its question mark. */
  lemma PrivateMode(t: Term, data: string, i: nat, raw: string, final: char)
    requires WellShaped(t) && Stands(data, i, Sequence(raw, final)) && IsLetter(final)
    requires raw != "" && raw[0] == '?' && forall k | 0 <= k < |raw| :: IsParameter(raw[k])
    ensures FeedFrom(t, data, i) == FeedFrom(t, data, i + |Sequence(raw, final)|)
  {
    ControlFed(t, data, i, raw, final);
    hide FeedFrom;
  }

  /** So is a sequence that ends in a letter without a meaning. */
  lemma Skipped(t: Term, data: string, i: nat, ps: seq<nat>, final: char)
    requires WellShaped(t) && IsLetter(final)
    requires final !in {'m', 'H', 'f', 'A', 'B', 'C', 'D', 'G', 'J', 'K', 'r', 's', 'u'}
    requires Stands(data, i, Control(ps, final))
    ensures FeedFrom(t, data, i) == FeedFrom(t, data, i + |Control(ps, final)|)
  {
    var u := Acts(t, data, i, ps, final);
    hide FeedFrom, Joined;
  }

  /** Any other escape takes the character behind it along, if there is one. */
  lemma OtherEscape(t: Term, data: string, i: nat)
    requires WellShaped(t) && i < |data| && data[i] == ESCAPE && !CsiAt(data, i)
    requires i + 1 < |data| ==> data[i + 1] !in {'7', '8'}
    ensures FeedFrom(t, data, i) == FeedFrom(t, data, i + 2)
  {
    hide Csi, Index, Put;
  }

  // ---- characters ----

  /** Line feed: to the start of the next line; on the last line of the region, which scrolls, or of the screen,
      the line stays. */
  lemma LineFeedFed(t: Term, data: string, i: nat) returns (u: Term)
    requires WellShaped(t) && i < |data| && data[i] == '\n' && !(t.row == t.bottom && t.top >= t.height)
    ensures WellShaped(u) && FeedFrom(t, data, i) == FeedFrom(u, data, i + 1)
    ensures u == t.(cells := u.cells, row := u.row, col := 0)
    ensures u.row == if t.row == t.bottom || t.row == t.height - 1 then t.row else t.row + 1
    ensures forall r | 0 <= r < t.height ::
              u.cells[r] ==
                if t.row != t.bottom then t.cells[r]
                else if r == t.bottom then BlankRow(t.width)
                else if t.top <= r < t.bottom then t.cells[r + 1]
                else if t.bottom < r <= t.top then t.cells[r - 1]
                else t.cells[r]
  {
    u := Index(t).value.(col := 0);
    forall r | 0 <= r < t.height {
      ScrollMovesRegion(t, r);
    }
    assert FeedOne(t, data, i) == (Some(u), i + 1);
    hide FeedOne;
  }

  /** Carriage return, backspace, bell and nothing, and the tabulator: to the next multiple of eight, or to the last
      column. */
  lemma PlainControls(t: Term, data: string, i: nat, stop: nat)
    requires WellShaped(t) && i < |data|
    requires stop % 8 == 0 && t.col < stop <= t.col + 8
    ensures data[i] == '\r' ==> FeedFrom(t, data, i) == FeedFrom(t.(col := 0), data, i + 1)
    ensures data[i] == '\U{8}' ==>
              FeedFrom(t, data, i) == FeedFrom(if t.col == 0 then t else t.(col := t.col - 1), data, i + 1)
    ensures data[i] in {'\U{7}', '\U{0}'} ==> FeedFrom(t, data, i) == FeedFrom(t, data, i + 1)
    ensures data[i] == '\t' ==>
              FeedFrom(t, data, i) == FeedFrom(t.(col := if stop < t.width then stop else t.width - 1), data, i + 1)
  {
    assert stop == (t.col / 8 + 1) * 8;
    hide Csi, Index, Put;
  }

  /** A glyph is painted under the cursor, which moves on; at the end of a line it first goes to the next. */
  lemma GlyphFed(t: Term, data: string, i: nat) returns (u: Term)
    requires WellShaped(t) && i < |data| && Printable(data[i]) && t.col < t.width
    ensures KeepsShape(t, u) && FeedFrom(t, data, i) == FeedFrom(u, data, i + 1)
    ensures u == t.(cells := u.cells, col := t.col + 1)
    ensures forall r, c | OnScreen(t, r, c) ::
              At(u, r, c) == if r == t.row && c == t.col then Cell(data[i], t.style) else At(t, r, c)
  {
    u := Put(t, data[i]).value;
    forall r, c | OnScreen(t, r, c) {
      PutPaintsOneCell(t, data[i], r, c);
    }
    assert FeedOne(t, data, i) == (Some(u), i + 1);
    hide FeedOne, Put;
  }

  /** So a position and a glyph paint that glyph at that place, and nothing else. */
  lemma PositionedGlyph(t: Term, line: nat, column: nat, glyph: char)
    requires WellShaped(t) && Printable(glyph)
    ensures var u := Feed(t, Control([line, column], 'H') + [glyph]);
            && u.Some?
            && forall r, c | OnScreen(t, r, c) ::
                 At(u.value, r, c) == if r == Place(line, t.height) && c == Place(column, t.width)
                                      then Cell(glyph, t.style) else At(t, r, c)
  {
    var text := Control([line, column], 'H');
    var data := text + [glyph];
    assert data[0..0 + |text|] == text && data[|text|] == glyph;
    CursorPosition(t, data, 0, [line, column], 'H');
    hide Control, Place;
    var at := t.(row := Place(line, t.height), col := Place(column, t.width));
    var u := GlyphFed(at, data, |text|);
    assert FeedFrom(u, data, |data|) == Some(u);
  }

  lemma {:induction false} TextFed(t: Term, data: string, i: nat)
    requires WellShaped(t) && i <= |data| && t.col + (|data| - i) <= t.width
    requires forall k | i <= k < |data| :: Printable(data[k])
    ensures var u := FeedFrom(t, data, i);
            && u.Some? && u.value == t.(cells := u.value.cells, col := t.col + (|data| - i))
            && forall r, c | OnScreen(t, r, c) ::
                 At(u.value, r, c) == if r == t.row && t.col <= c < t.col + (|data| - i)
                                      then Cell(data[i + (c - t.col)], t.style) else At(t, r, c)
    decreases |data| - i
  {
    if i < |data| {
      var u := GlyphFed(t, data, i);
      TextFed(u, data, i + 1);
    }
  }

  /** A line of text on a new screen shows there from the first cell on, plain, and all else is blank. */
  lemma TextIsShown(width: nat, height: nat, text: string)
    requires height > 0 && 0 < |text| <= width && forall k | 0 <= k < |text| :: Printable(text[k])
    ensures var t := Terminal.Fresh(width, height);
            && WellShaped(t)
            && var u := Feed(t, text);
            && u.Some? && u.value.row == 0 && u.value.col == |text| && u.value.saved.None?
            && u.value.top == 0 && u.value.bottom == height - 1
            && forall r, c | OnScreen(t, r, c) ::
                 At(u.value, r, c)
                 == Cell(if r == 0 && c < |text| then text[c] else ' ', Style(None, None, false, false, false))
  {
    TextFed(Terminal.Fresh(width, height), text, 0);
  }

  // ---- rendition ----

  /** Select graphic rendition (section 8.3.117 of ECMA-48): what the parameter `p` does to each attribute, unless it
      selects a colour by its number or its parts. */
  ghost predicate Renders(p: nat, s: Style, u: Style) {
    && (u.bold <==> p == 1 || (s.bold && p !in {0, 21, 22}))
    && (u.underline <==> p == 4 || (s.underline && p !in {0, 24}))
    && (u.reverse <==> p == 7 || (s.reverse && p !in {0, 27}))
    && u.fg == (if 30 <= p < 38 then Some(Xterm256(p - 30))
                else if 90 <= p < 98 then Some(Xterm256(p - 82))
                else if p in {0, 39} then None else s.fg)
    && u.bg == (if 40 <= p < 48 then Some(Xterm256(p - 40))
                else if 100 <= p < 108 then Some(Xterm256(p - 92))
                else if p in {0, 49} then None else s.bg)
  }

  lemma OneRenders(s: Style, p: nat)
    requires p !in {38, 48}
    ensures Sgr(s, [p]).Some? && Renders(p, s, Sgr(s, [p]).value)
  {
    hide Xterm256;
    assert [p][1..] == [];
    assert Sgr(s, [p]) == Some(SgrOne(s, [p]));
  }

  /** A rendition changes the style, and nothing else. */
  lemma RenditionFed(t: Term, data: string, i: nat, ps: seq<nat>, u: Style)
    requires WellShaped(t) && Stands(data, i, Control(ps, 'm'))
    requires Sgr(t.style, if ps == [] then [0] else ps) == Some(u)
    ensures FeedFrom(t, data, i) == FeedFrom(t.(style := u), data, i + |Control(ps, 'm')|)
  {
    hide FeedFrom, Joined, Control, Parameters, EraseDisplay, EraseLine, Sgr, Stands;
    var v := Acts(t, data, i, ps, 'm');
  }

  /** One parameter changes the rendition so, and nothing else; none at all is 0. */
  lemma OneRendition(t: Term, data: string, i: nat, ps: seq<nat>) returns (u: Style)
    requires WellShaped(t) && Stands(data, i, Control(ps, 'm'))
    requires |ps| <= 1 && Given(ps, 0) !in {38, 48}
    ensures FeedFrom(t, data, i) == FeedFrom(t.(style := u), data, i + |Control(ps, 'm')|)
    ensures Renders(Given(ps, 0), t.style, u)
  {
    OneRenders(t.style, Given(ps, 0));
    hide FeedFrom, Control, Sgr, Renders, Stands;
    u := Sgr(t.style, [Given(ps, 0)]).value;
    assert ps == [] || ps == [Given(ps, 0)];
    RenditionFed(t, data, i, ps, u);
  }

  /** The parameters select a colour, by its number or by its three parts, for the text or for the ground under it. */
  predicate Selects(ps: seq<nat>, under: bool, rgb: Rgb) {
    && |ps| >= 3 && ps[0] == (if under then 48 else 38)
    && (|| (|ps| == 3 && ps[1] == 5 && rgb == Xterm256(ps[2]))
        || (|ps| == 5 && ps[1] == 2 && rgb == Rgb(ps[2], ps[3], ps[4])))
  }

  lemma ColourSelected(s: Style, ps: seq<nat>, under: bool, rgb: Rgb)
    requires Selects(ps, under, rgb)
    ensures Sgr(s, ps) == Some(if under then s.(bg := Some(rgb)) else s.(fg := Some(rgb)))
  {
    hide Xterm256;
    assert SgrLength(ps) == Some(|ps|) && ps[|ps|..] == [];
    assert Sgr(s, ps) == Some(SgrOne(s, ps));
  }

  /** A selector that no known kind of colour follows counts for nothing, and what follows it for itself. */
  lemma SelectorAlone(s: Style, ps: seq<nat>)
    requires ps != [] && ps[0] in {38, 48} && (|ps| > 1 ==> ps[1] !in {2, 5})
    ensures Sgr(s, ps) == Sgr(s, ps[1..])
  {
  }

  lemma ColourRendition(t: Term, data: string, i: nat, ps: seq<nat>, under: bool, rgb: Rgb)
    requires WellShaped(t) && Stands(data, i, Control(ps, 'm')) && Selects(ps, under, rgb)
    ensures var u := if under then t.style.(bg := Some(rgb)) else t.style.(fg := Some(rgb));
            FeedFrom(t, data, i) == FeedFrom(t.(style := u), data, i + |Control(ps, 'm')|)
  {
    ColourSelected(t.style, ps, under, rgb);
    hide FeedFrom, Control, Sgr, Xterm256, Stands;
    RenditionFed(t, data, i, ps, if under then t.style.(bg := Some(rgb)) else t.style.(fg := Some(rgb)));
  }

  /** The palette above its first sixteen colours: a cube of six levels a side, and a ramp of greys. */
  lemma PaletteCube(r: nat, g: nat, b: nat, step: nat)
    requires r < 6 && g < 6 && b < 6 && step < 24
    ensures Xterm256(16 + 36 * r + 6 * g + b) == Rgb(Level(r), Level(g), Level(b))
    ensures Xterm256(232 + step) == Rgb(8 + 10 * step, 8 + 10 * step, 8 + 10 * step)
  {
    assert (36 * r + 6 * g + b) / 36 == r && (36 * r + 6 * g + b) / 6 == 6 * r + g && (36 * r + 6 * g + b) % 6 == b;
  }

  function Level(side: nat): int {
    if side == 0 then 0 else 55 + 40 * side
  }

  /** The first sixteen: the bits of a number say which of red, green and blue are in its colour. */
  lemma PaletteBits(n: nat)
    requires n < 8
    ensures var dim, bright := Xterm256(n), Xterm256(8 + n);
            && (dim.r > 0 <==> n % 2 == 1) && (dim.g > 0 <==> n / 2 % 2 == 1) && (dim.b > 0 <==> n / 4 == 1)
            && (n > 0 ==> (bright.r == 255 <==> n % 2 == 1) && (bright.g == 255 <==> n / 2 % 2 == 1)
                          && (bright.b == 255 <==> n / 4 == 1))
            && dim.r <= bright.r && dim.g <= bright.g && dim.b <= bright.b
  {
  }
}
