/** The emulator object, painting in place, and what its operations do to the cells. */
module Screen {
  import opened Prelude
  import opened Terminal

  class Screen {
    const width: nat
    const height: nat
    var cells: Cells
    var row: int
    var col: int
    var style: Style
    var saved: Option<Saved>
    var top: int
    var bottom: int

    ghost function State(): Term
      reads this
    {
      Term(width, height, cells, row, col, style, saved, top, bottom)
    }

    constructor (width: nat, height: nat)
      ensures State() == Terminal.Fresh(width, height)
    {
      this.width, this.height := width, height;
      cells := seq(height, _ => BlankRow(width));
      row, col, style, saved, top, bottom := 0, 0, BLANK, None, 0, height - 1;
    }

    method LineFeed() returns (ok: bool)
      requires WellShaped(State())
      modifies `cells, `row
      ensures (if ok then Some(State()) else None) == Index(old(State()))
    {
      if row == bottom {
        if top >= height {
          return false;
        }
        cells := cells[..top] + cells[top + 1..];
        cells := cells[..bottom] + [BlankRow(width)] + cells[bottom..];
      } else if row < height - 1 {
        row := row + 1;
      }
      ok := true;
    }

    method PutGlyph(ch: char) returns (ok: bool)
      requires WellShaped(State())
      modifies `cells, `row, `col
      ensures (if ok then Some(State()) else None) == Put(old(State()), ch)
    {
      ok := true;
      if col >= width {
        col := 0;
        ok := LineFeed();
        if !ok {
          return;
        }
      }
      cells := cells[row := cells[row][col := Cell(ch, style)]];
      col := col + 1;
    }

    method ClearLine(mode: int)
      requires WellShaped(State())
      modifies `cells
      ensures State() == EraseLine(old(State()), mode)
    {
      var line := cells[row];
      if mode == 0 {
        line := line[..col] + BlankRow(width - col);
      } else if mode == 1 {
        line := BlankRow(Min(col + 1, width)) + line[Min(col + 1, width)..];
      } else {
        line := BlankRow(width);
      }
      cells := cells[row := line];
    }

    method ClearDisplay(mode: int)
      requires WellShaped(State())
      modifies `cells
      ensures State() == EraseDisplay(old(State()), mode)
    {
      ghost var was := State();
      if mode == 2 {
        cells := seq(height, _ => BlankRow(width));
      } else if mode == 0 {
        ClearLine(0);
        for r := row + 1 to height
          invariant |cells| == height
          invariant forall k | 0 <= k < height ::
                      cells[k] == if row < k < r then BlankRow(width) else EraseLine(was, 0).cells[k]
        {
          cells := cells[r := BlankRow(width)];
        }
        assert cells == EraseDisplay(was, 0).cells;
      } else {
        ClearLine(1);
        for r := 0 to row
          invariant |cells| == height
          invariant forall k | 0 <= k < height ::
                      cells[k] == if k < r then BlankRow(width) else EraseLine(was, 1).cells[k]
        {
          cells := cells[r := BlankRow(width)];
        }
        assert cells == EraseDisplay(was, mode).cells;
      }
    }

    /** Select graphic rendition. */
    method Rendition(params: seq<nat>) returns (ok: bool)
      modifies `style
      ensures (if ok then Some(style) else None) == Sgr(old(style), if params == [] then [0] else params)
    {
      var ps := if params == [] then [0] else params;
      var i := 0;
      while i < |ps|
        invariant 0 <= i <= |ps|
        invariant Sgr(style, ps[i..]) == Sgr(old(style), ps)
      {
        var n := SgrLength(ps[i..]);
        if n.None? {
          return false;
        }
        assert ps[i..][n.value..] == ps[i + n.value..];
        style := SgrOne(style, ps[i..]);
        i := i + n.value;
      }
      ok := true;
    }

    method Control(raw: string, final: char) returns (ok: bool)
      requires WellShaped(State())
      modifies this
      ensures (if ok then Some(State()) else None) == Csi(old(State()), raw, final)
    {
      ok := true;
      if raw != "" && raw[0] == '?' {
        return;
      }
      var params := Parameters(raw);
      if params.None? {
        return false;
      }
      var ps := params.value;
      match final {
        case 'm' => ok := Rendition(ps);
        case 'H' | 'f' =>
          row := Min(height - 1, Max(0, Arg(ps, 0, 1) - 1));
          col := Min(width - 1, Max(0, Arg(ps, 1, 1) - 1));
        case 'A' => row := Max(0, row - Arg(ps, 0, 1));
        case 'B' => row := Min(height - 1, row + Arg(ps, 0, 1));
        case 'C' => col := Min(width - 1, col + Arg(ps, 0, 1));
        case 'D' => col := Max(0, col - Arg(ps, 0, 1));
        case 'G' => col := Min(width - 1, Max(0, Arg(ps, 0, 1) - 1));
        case 'J' => ClearDisplay(Arg(ps, 0, 0));
        case 'K' => ClearLine(Arg(ps, 0, 0));
        case 'r' =>
          top := Max(0, Arg(ps, 0, 1) - 1);
          bottom := Min(height - 1, Arg(ps, 1, height) - 1);
          row, col := 0, 0;
        case 's' => saved := Some(Saved(row, col, style));
        case 'u' => Restore();
        case _ =>
      }
    }

    method Restore()
      modifies `row, `col, `style
      ensures State() == Restored(old(State()))
    {
      if saved.Some? {
        row, col, style := saved.value.row, saved.value.col, saved.value.style;
      }
    }

    /** Feed the emulator; `ok` is false when it raised. */
    method FeedAll(data: string) returns (ok: bool)
      requires WellShaped(State())
      modifies this
      ensures (if ok then Some(State()) else None) == Feed(old(State()), data)
    {
      var i := 0;
      while i < |data|
        invariant WellShaped(State())
        invariant FeedFrom(State(), data, i) == Feed(old(State()), data)
        decreases |data| - i
      {
        var next;
        ok, next := FeedNext(data, i);
        if !ok {
          return;
        }
        i := next;
      }
      ok := true;
    }

    method FeedNext(data: string, i: nat) returns (ok: bool, next: nat)
      requires WellShaped(State()) && i < |data|
      modifies this
      ensures ((if ok then Some(State()) else None), next) == FeedOne(old(State()), data, i)
    {
      ok, next := true, i + 1;
      var ch := data[i];
      if ch == '\U{1b}' {
        if CsiAt(data, i) {
          var end := ParametersEnd(data, i + 2);
          ok := Control(data[i + 2..end], data[end]);
          next := end + 1;
        } else {
          if i + 1 < |data| && data[i + 1] == '7' {
            saved := Some(Saved(row, col, style));
          } else if i + 1 < |data| && data[i + 1] == '8' {
            Restore();
          }
          next := i + 2;
        }
      } else if ch == '\n' {
        ok := LineFeed();
        col := 0;
      } else if ch == '\r' {
        col := 0;
      } else if ch == '\U{8}' {
        col := Max(0, col - 1);
      } else if ch == '\U{7}' || ch == '\U{0}' {
      } else if ch == '\t' {
        col := Min(width - 1, (col / 8 + 1) * 8);
      } else {
        ok := PutGlyph(ch);
      }
    }
  }

  // ---- what the operations do to the cells ----

  predicate OnScreen(t: Term, r: int, c: int) {
    0 <= r < t.height && 0 <= c < t.width
  }

  function At(t: Term, r: int, c: int): (cell: Cell)
    requires 0 <= r < |t.cells| && 0 <= c < |t.cells[r]|
  {
    t.cells[r][c]
  }

  /** A line feed at the bottom of a region moves the region's rows up by one and blanks its last, and
      touches no other row. When the region is upside down (its top below its bottom) the rows
      between move down instead, and the row at `bottom` is blank. Elsewhere nothing is painted. */
  lemma ScrollMovesRegion(t: Term, r: int)
    requires WellShaped(t) && 0 <= r < t.height && Index(t).Some?
    ensures var u := Index(t).value;
            u.cells[r] ==
              if t.row != t.bottom then t.cells[r]
              else if r == t.bottom then BlankRow(t.width)
              else if t.top <= r < t.bottom then t.cells[r + 1]
              else if t.bottom < r <= t.top then t.cells[r - 1]
              else t.cells[r]
  {
  }

  /** Erasing in line (section 8.3.41 of ECMA-48): from the cursor on, up to and including it, or all of its row. */
  predicate InErasedPart(t: Term, mode: int, c: int) {
    if mode == 0 then c >= t.col else if mode == 1 then c <= t.col else true
  }

  lemma EraseLineBlanks(t: Term, mode: int, r: int, c: int)
    requires WellShaped(t) && OnScreen(t, r, c)
    ensures At(EraseLine(t, mode), r, c) ==
              if r == t.row && InErasedPart(t, mode, c) then BLANK_CELL else At(t, r, c)
  {
  }

  /** Erasing in display (section 8.3.39 of ECMA-48): the cells that follow the cursor in reading order and
      itself, those that precede it and itself, or all. */
  lemma EraseDisplayBlanks(t: Term, mode: int, r: int, c: int)
    requires WellShaped(t) && OnScreen(t, r, c)
    ensures At(EraseDisplay(t, mode), r, c) ==
              if || mode == 2
                 || (mode == 0 && (r > t.row || (r == t.row && c >= t.col)))
                 || (mode != 0 && mode != 2 && (r < t.row || (r == t.row && c <= t.col)))
              then BLANK_CELL else At(t, r, c)
  {
    hide ErasedRow;
    EraseLineBlanks(t, if mode == 0 then 0 else 1, t.row, c);
    assert EraseLine(t, if mode == 0 then 0 else 1).cells[t.row] == ErasedRow(t, if mode == 0 then 0 else 1);
  }

  /** A glyph is painted in one cell, after the wrap that was put off. */
  lemma PutPaintsOneCell(t: Term, ch: char, r: int, c: int)
    requires WellShaped(t) && OnScreen(t, r, c) && Put(t, ch).Some?
    ensures var at := if t.col < t.width then t else Index(t.(col := 0)).value;
            var u := Put(t, ch).value;
            && At(u, r, c) == (if r == at.row && c == at.col then Cell(ch, t.style) else At(at, r, c))
            && u.row == at.row && u.col == at.col + 1 && at.col < t.width
  {
  }

  // ---- SGR ----

  /** Rendition parameters of two sequences may be joined into one, unless a colour selector that the first
      leaves hanging would take the second's first parameter for its own. */
  lemma {:induction false} SgrJoins(s: Style, a: seq<nat>, b: seq<nat>)
    requires Sgr(s, a).Some?
    requires a == [] || a[|a| - 1] !in {38, 48} || b == [] || b[0] !in {2, 5}
    ensures Sgr(s, a + b) == Sgr(Sgr(s, a).value, b)
    decreases |a|
  {
    if a == [] {
      assert a + b == b;
    } else {
      var n := SgrLength(a).value;
      assert SgrLength(a + b) == SgrLength(a);
      assert SgrOne(s, a + b) == SgrOne(s, a);
      assert (a + b)[n..] == a[n..] + b;
      SgrJoins(SgrOne(s, a), a[n..], b);
    }
  }

  /** A colour selector with its colour cut short, at the end of the parameters. */
  predicate CutShort(ps: seq<nat>) {
    && |ps| >= 2 && ps[0] in {38, 48}
    && ((ps[1] == 5 && |ps| == 2) || (ps[1] == 2 && |ps| < 5))
  }

  /** The rendition raises exactly when its parameters end in a colour cut short. */
  lemma {:induction false} SgrRaises(s: Style, ps: seq<nat>)
    ensures Sgr(s, ps).None? <==> exists k | 0 <= k <= |ps| :: Sgr(s, ps[..k]).Some? && CutShort(ps[k..])
    decreases |ps|
  {
    if Sgr(s, ps).None? {
      var k := CutPoint(s, ps);
    }
    forall k | 0 <= k <= |ps| && Sgr(s, ps[..k]).Some? && CutShort(ps[k..])
      ensures Sgr(s, ps).None?
    {
      SgrJoins(s, ps[..k], ps[k..]);
      assert ps[..k] + ps[k..] == ps;
    }
  }

  lemma {:induction false} CutPoint(s: Style, ps: seq<nat>) returns (k: nat)
    requires Sgr(s, ps).None?
    ensures k <= |ps| && Sgr(s, ps[..k]).Some? && CutShort(ps[k..])
    decreases |ps|
  {
    if SgrLength(ps).None? {
      k := 0;
      assert ps[..0] == [] && ps[0..] == ps;
    } else {
      var n := SgrLength(ps).value;
      var rest := CutPoint(SgrOne(s, ps), ps[n..]);
      k := n + rest;
      assert ps[k..] == ps[n..][rest..];
      assert ps[..k] == ps[..n] + ps[n..][..rest];
      HeadAlone(s, ps, n, rest);
    }
  }

  lemma HeadAlone(s: Style, ps: seq<nat>, n: nat, rest: nat)
    requires ps != [] && SgrLength(ps) == Some(n) && n + rest <= |ps|
    requires Sgr(SgrOne(s, ps), ps[n..][..rest]).Some?
    requires CutShort(ps[n + rest..])
    ensures Sgr(s, ps[..n + rest]).Some?
  {
    var head := ps[..n + rest];
    assert SgrLength(head) == Some(n);
    assert SgrOne(s, head) == SgrOne(s, ps);
    assert head[n..] == ps[n..][..rest];
  }

  // ---- when the emulator raises ----

  /** A printable character: neither an escape nor one of the controls the emulator knows. */
  predicate Printable(ch: char) {
    ch !in {'\U{1b}', '\n', '\r', '\U{8}', '\U{7}', '\U{0}', '\t'}
  }

  /** A step raises exactly when a line feed, or a wrap, must scroll a region that starts below the screen, when
      a question mark stands inside the parameters, or when a rendition cuts a colour short. */
  lemma StepRaises(t: Term, data: string, i: nat)
    requires WellShaped(t) && i < |data|
    ensures FeedOne(t, data, i).0.None? <==>
              || (t.row == t.bottom && t.top >= t.height
                  && (data[i] == '\n' || (Printable(data[i]) && t.col == t.width)))
              || (CsiAt(data, i)
                  && var raw := data[i + 2..ParametersEnd(data, i + 2)];
                  && !(raw != "" && raw[0] == '?')
                  && (|| '?' in raw
                      || (data[ParametersEnd(data, i + 2)] == 'm'
                          && Parameters(raw).Some?
                          && Sgr(t.style, if Parameters(raw).value == [] then [0] else Parameters(raw).value).None?)))
  {
    if CsiAt(data, i) {
      var raw := data[i + 2..ParametersEnd(data, i + 2)];
      assert forall k | 0 <= k < |raw| :: IsParameter(raw[k]);
      NumbersRefuse(raw, 0);
    }
  }

  lemma {:induction false} NumbersRefuse(raw: string, value: nat)
    requires forall k | 0 <= k < |raw| :: IsParameter(raw[k])
    ensures Numbers(raw, value).None? <==> '?' in raw
    decreases |raw|
  {
    if raw != "" {
      assert raw == [raw[0]] + raw[1..];
      NumbersRefuse(raw[1..], 0);
      if IsDigit(raw[0]) {
        NumbersRefuse(raw[1..], 10 * value + (raw[0] - '0') as nat);
      }
    }
  }
}
