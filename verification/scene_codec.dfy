/** The scene codec: the encoder keeps the cells each frame changes, in runs of one style
    (scripts/website_scene_to_html.py), and the player draws them again, frame by frame
    (web/game-scenes.js). */
module SceneCodec {
  import opened Prelude
  import opened Terminal
  import S = Screen

  // ---- style sheets ----

  /** A colour as a style sheet names it. */
  datatype Paint = Solid(rgb: Rgb) | Transparent

  /** What `background` may be set to. */
  datatype Ground =
    | Plain(paint: Paint)
    | Halves(toRight: bool, first: Paint, second: Paint)
    | Quarters(upperRight: Paint, lowerRight: Paint, lowerLeft: Paint, upperLeft: Paint)

  /** One declaration of a style attribute. */
  datatype Declaration =
    | Color(rgb: Rgb)
    | Background(ground: Ground)
    | Bold
    | Underlined
    | InlineBlock
    | OneCell

  type Css = seq<Declaration>

  const DEFAULT_FG := Rgb(0xC7, 0xCA, 0xD4)
  const DEFAULT_BG := Rgb(0x0A, 0x0C, 0x10)

  function Foreground(s: Style): Option<Rgb> {
    if s.reverse then Some(s.bg.GetOr(DEFAULT_BG)) else s.fg
  }

  function Backdrop(s: Style): Option<Rgb> {
    if s.reverse then Some(s.fg.GetOr(DEFAULT_FG)) else s.bg
  }

  function CssOf(s: Style): Css {
    var fg, bg := Foreground(s), Backdrop(s);
    (if fg.Some? then [Color(fg.value)] else [])
    + (if bg.Some? then [Background(Plain(Solid(bg.value)))] else [])
    + (if s.bold then [Bold] else [])
    + (if s.underline then [Underlined] else [])
    + [InlineBlock, OneCell]
  }

  /** The part of its cell a block glyph fills. */
  datatype Fill = Top | Bottom | Full | Left | Right | Corners(ul: bool, ur: bool, ll: bool, lr: bool)

  function FillOf(glyph: char): Option<Fill> {
    match glyph
    case '\U{2580}' => Some(Top)
    case '\U{2584}' => Some(Bottom)
    case '\U{2588}' => Some(Full)
    case '\U{258C}' => Some(Left)
    case '\U{2590}' => Some(Right)
    case '\U{2598}' => Some(Corners(true, false, false, false))
    case '\U{259D}' => Some(Corners(false, true, false, false))
    case '\U{2596}' => Some(Corners(false, false, true, false))
    case '\U{2597}' => Some(Corners(false, false, false, true))
    case '\U{259E}' => Some(Corners(false, true, true, false))
    case '\U{259A}' => Some(Corners(true, false, false, true))
    case '\U{259B}' => Some(Corners(true, true, true, false))
    case '\U{259C}' => Some(Corners(true, true, false, true))
    case '\U{2599}' => Some(Corners(true, false, true, true))
    case '\U{259F}' => Some(Corners(false, true, true, true))
    case _ => None
  }

  /** How a fill is drawn with one colour on another. */
  function Drawn(fill: Fill, fg: Paint, bg: Paint): Ground {
    match fill
    case Corners(ul, ur, ll, lr) =>
      Quarters(if ur then fg else bg, if lr then fg else bg, if ll then fg else bg, if ul then fg else bg)
    case Full => Plain(fg)
    case Top => Halves(false, fg, bg)
    case Left => Halves(true, fg, bg)
    case Bottom => Halves(false, bg, fg)
    case Right => Halves(true, bg, fg)
  }

  /** The still's rule: from the style. */
  function StillGround(fill: Fill, s: Style): Ground {
    var bg := Backdrop(s);
    Drawn(fill, Solid(Foreground(s).GetOr(DEFAULT_FG)), if bg.Some? then Solid(bg.value) else Transparent)
  }

  function FirstColor(css: Css): Option<Rgb> {
    if css == [] then None else if css[0].Color? then Some(css[0].rgb) else FirstColor(css[1..])
  }

  /** The first background that is a plain colour. */
  function FirstBackground(css: Css): Option<Rgb> {
    if css == [] then None
    else if css[0].Background? && css[0].ground.Plain? && css[0].ground.paint.Solid? then
      Some(css[0].ground.paint.rgb)
    else FirstBackground(css[1..])
  }

  function WithoutFirstBackground(css: Css): Css {
    if css == [] then []
    else if css[0].Background? && css[0].ground.Plain? && css[0].ground.paint.Solid? then css[1..]
    else [css[0]] + WithoutFirstBackground(css[1..])
  }

  /** The player's rule: from the style sheet of the run. */
  function BlockCss(fill: Fill, css: Css): Css {
    var fg, bg := FirstColor(css), FirstBackground(css);
    WithoutFirstBackground(css)
    + [Background(Drawn(fill, Solid(fg.GetOr(Rgb(199, 202, 212))), if bg.Some? then Solid(bg.value) else Transparent))]
  }

  /** What a browser paints behind the cell: the last background declared. */
  function Painted(css: Css): Option<Ground> {
    if css == [] then None
    else if css[|css| - 1].Background? then Some(css[|css| - 1].ground)
    else Painted(css[..|css| - 1])
  }

  /** A style sheet names the colours of its style: its own, or under reverse video each in the other's place, the
      page's defaults standing in for colours that were not set. Bold and underlined text is declared as such. */
  lemma ColoursReadBack(s: Style)
    ensures s.reverse ==>
              && FirstColor(CssOf(s)) == Some(s.bg.GetOr(Rgb(10, 12, 16)))
              && FirstBackground(CssOf(s)) == Some(s.fg.GetOr(Rgb(199, 202, 212)))
    ensures !s.reverse ==> FirstColor(CssOf(s)) == s.fg && FirstBackground(CssOf(s)) == s.bg
    ensures (Bold in CssOf(s) <==> s.bold) && (Underlined in CssOf(s) <==> s.underline)
    ensures InlineBlock in CssOf(s) && OneCell in CssOf(s)
  {
    ColoursAsNamed(s);
    hide FirstColor, FirstBackground;
  }

  lemma ColoursAsNamed(s: Style)
    ensures FirstColor(CssOf(s)) == Foreground(s) && FirstBackground(CssOf(s)) == Backdrop(s)
  {
    var fg, bg := Foreground(s), Backdrop(s);
    var rest := (if s.bold then [Bold] else []) + (if s.underline then [Underlined] else []) + [InlineBlock, OneCell];
    NoColours(rest);
    hide FirstColor, FirstBackground;
    var under := if bg.Some? then [Background(Plain(Solid(bg.value)))] + rest else rest;
    if bg.Some? {
      ReadsOn(Background(Plain(Solid(bg.value))), rest);
    }
    var over := if fg.Some? then [Color(fg.value)] + under else under;
    if fg.Some? {
      ReadsOn(Color(fg.value), under);
    }
    CssIs(s, rest);
  }

  lemma CssIs(s: Style, rest: Css)
    requires rest == (if s.bold then [Bold] else []) + (if s.underline then [Underlined] else [])
                     + [InlineBlock, OneCell]
    ensures var fg, bg := Foreground(s), Backdrop(s);
            var under := if bg.Some? then [Background(Plain(Solid(bg.value)))] + rest else rest;
            CssOf(s) == if fg.Some? then [Color(fg.value)] + under else under
  {
    hide Foreground, Backdrop;
    var fg, bg := Foreground(s), Backdrop(s);
    var a: Css := if fg.Some? then [Color(fg.value)] else [];
    var b: Css := if bg.Some? then [Background(Plain(Solid(bg.value)))] else [];
    Regroup(a, b, if s.bold then [Bold] else [], if s.underline then [Underlined] else [], [InlineBlock, OneCell]);
    assert b == [] ==> b + rest == rest;
    assert a == [] ==> a + (b + rest) == b + rest;
  }

  lemma Regroup<T>(a: seq<T>, b: seq<T>, c: seq<T>, d: seq<T>, e: seq<T>)
    ensures a + b + c + d + e == a + (b + (c + d + e))
  {
  }

  lemma ReadsOn(d: Declaration, css: Css)
    ensures FirstColor([d] + css) == if d.Color? then Some(d.rgb) else FirstColor(css)
    ensures FirstBackground([d] + css)
         == if d.Background? && d.ground.Plain? && d.ground.paint.Solid? then Some(d.ground.paint.rgb)
            else FirstBackground(css)
  {
    assert ([d] + css)[1..] == css;
  }

  lemma PaintedLast(css: Css, ground: Ground)
    ensures Painted(css + [Background(ground)]) == Some(ground)
  {
  }

  /** The player draws a block glyph exactly as the still does, whatever the style, reversed or not. */
  lemma BlocksAgree(fill: Fill, s: Style)
    ensures Painted(BlockCss(fill, CssOf(s))) == Some(StillGround(fill, s))
  {
    ColoursAsNamed(s);
    PaintedLast(WithoutFirstBackground(CssOf(s)), StillGround(fill, s));
  }

  /** What a ground shows in a quarter of the cell: a gradient's first paint is on top, or on the left. */
  function PaintAt(ground: Ground, right: bool, lower: bool): Paint {
    match ground
    case Plain(paint) => paint
    case Halves(toRight, first, second) => if (if toRight then right else lower) then second else first
    case Quarters(ur, lr, ll, ul) => if right then (if lower then lr else ur) else if lower then ll else ul
  }

  /** The block glyphs that fill a quarter of their cell. */
  predicate Fills(glyph: char, right: bool, lower: bool) {
    || glyph == '\U{2588}'
    || glyph == (if lower then '\U{2584}' else '\U{2580}')
    || glyph == (if right then '\U{2590}' else '\U{258C}')
    || (!right && !lower && glyph in {'\U{2598}', '\U{259A}', '\U{259B}', '\U{259C}', '\U{2599}'})
    || (right && !lower && glyph in {'\U{259D}', '\U{259E}', '\U{259B}', '\U{259C}', '\U{259F}'})
    || (!right && lower && glyph in {'\U{2596}', '\U{259E}', '\U{259B}', '\U{2599}', '\U{259F}'})
    || (right && lower && glyph in {'\U{2597}', '\U{259A}', '\U{259C}', '\U{2599}', '\U{259F}'})
  }

  lemma FillsAgree(glyph: char, right: bool, lower: bool, fg: Paint, bg: Paint)
    requires FillOf(glyph).Some?
    ensures PaintAt(Drawn(FillOf(glyph).value, fg, bg), right, lower) == if Fills(glyph, right, lower) then fg else bg
  {
  }

  /** In each quarter of its cell a block glyph shows its colour where it fills the quarter, and the ground under it
      elsewhere, reverse video exchanging the two. Glyphs that fill no quarter are not drawn so. */
  lemma BlockGlyphsFill(glyph: char, s: Style, right: bool, lower: bool)
    ensures Fills(glyph, right, lower) ==> FillOf(glyph).Some?
    ensures FillOf(glyph).Some? ==> exists r, l :: Fills(glyph, r, l)
    ensures FillOf(glyph).Some? ==>
              PaintAt(StillGround(FillOf(glyph).value, s), right, lower)
              == if Fills(glyph, right, lower)
                 then Solid(if s.reverse then s.bg.GetOr(Rgb(10, 12, 16)) else s.fg.GetOr(Rgb(199, 202, 212)))
                 else if s.reverse then Solid(s.fg.GetOr(Rgb(199, 202, 212)))
                 else if s.bg.Some? then Solid(s.bg.value) else Transparent
  {
    if FillOf(glyph).Some? {
      assert Fills(glyph, false, false) || Fills(glyph, true, false) || Fills(glyph, false, true)
             || Fills(glyph, true, true);
      var bg := Backdrop(s);
      FillsAgree(glyph, right, lower, Solid(Foreground(s).GetOr(DEFAULT_FG)),
                 if bg.Some? then Solid(bg.value) else Transparent);
    }
    hide Drawn, PaintAt;
  }

  lemma {:induction false} NoColours(css: Css)
    requires forall d | d in css :: !d.Color? && !d.Background?
    ensures FirstColor(css) == None && FirstBackground(css) == None
    decreases |css|
  {
    if css != [] {
      assert css[0] in css;
      NoColours(css[1..]);
    }
  }

  // ---- the player's grid ----

  /** One span of the page. */
  datatype Span = Span(text: char, css: Css)

  type Grid = seq<seq<Span>>

  /** What a glyph in a style looks like in its span. */
  function Shown(glyph: char, css: Css): Span {
    var fill := FillOf(glyph);
    if fill.Some? then Span(' ', BlockCss(fill.value, css)) else Span(glyph, css)
  }

  function ShownCell(cell: Cell): Span {
    Shown(cell.glyph, CssOf(cell.style))
  }

  function ShownCells(cells: Cells): Grid {
    seq(|cells|, r requires 0 <= r < |cells| =>
      seq(|cells[r]|, c requires 0 <= c < |cells[r]| => ShownCell(cells[r][c])))
  }

  /** The player's blank grid. */
  function BlankGrid(rows: nat, cols: nat): Grid {
    seq(rows, _ => seq(cols, _ => Span(' ', [InlineBlock, OneCell])))
  }

  // ---- what the encoder writes ----

  /** A run of changed cells: its row, the column it starts at, its style, and a glyph for each cell. */
  datatype Run = Run(row: nat, start: nat, style: nat, text: string) {
    predicate Covers(r: int, c: int) {
      r == row && start <= c < start + |text|
    }
  }

  datatype Frame = Frame(wait: int, runs: seq<Run>)

  datatype Scene = Scene(cols: nat, rows: nat, styles: seq<Css>, frames: seq<Frame>)

  predicate SameShape(a: Cells, b: Cells) {
    |a| == |b| && forall r | 0 <= r < |a| :: |a[r]| == |b[r]|
  }

  predicate Changed(a: Cells, b: Cells, r: int, c: int)
    requires SameShape(a, b)
  {
    0 <= r < |a| && 0 <= c < |a[r]| && a[r][c] != b[r][c]
  }

  /** The run lies on the grid, has a style of the table, and gives changed cells their new look. */
  ghost predicate RunFits(run: Run, styles: seq<Css>, a: Cells, b: Cells)
    requires SameShape(a, b)
  {
    && run.row < |b| && run.start + |run.text| <= |b[run.row]| && run.style < |styles| && run.text != []
    && forall k | 0 <= k < |run.text| ::
         && a[run.row][run.start + k] != b[run.row][run.start + k]
         && run.text[k] == b[run.row][run.start + k].glyph
         && styles[run.style] == CssOf(b[run.row][run.start + k].style)
  }

  /** Runs in reading order, none overlapping another. */
  predicate InOrder(runs: seq<Run>) {
    forall i, j | 0 <= i < j < |runs| ::
      runs[i].row < runs[j].row
      || (runs[i].row == runs[j].row && runs[i].start + |runs[i].text| <= runs[j].start)
  }

  predicate Covered(runs: seq<Run>, r: int, c: int) {
    exists i | 0 <= i < |runs| :: runs[i].Covers(r, c)
  }

  /** The runs take the cells `a` to the cells `b`: every changed cell is written once, and no other. */
  ghost predicate Encodes(runs: seq<Run>, styles: seq<Css>, a: Cells, b: Cells)
    requires SameShape(a, b)
  {
    && (forall i | 0 <= i < |runs| :: RunFits(runs[i], styles, a, b))
    && InOrder(runs)
    && (forall r, c | Changed(a, b, r, c) :: Covered(runs, r, c))
  }

  /** Each frame writes exactly the cells it changed, and each of them by exactly one run. */
  lemma WritesExactlyTheChanges(runs: seq<Run>, styles: seq<Css>, a: Cells, b: Cells, r: int, c: int)
    requires SameShape(a, b) && Encodes(runs, styles, a, b)
    ensures Covered(runs, r, c) <==> Changed(a, b, r, c)
    ensures forall i, j | 0 <= i < |runs| && 0 <= j < |runs| && runs[i].Covers(r, c) && runs[j].Covers(r, c) :: i == j
  {
    if Covered(runs, r, c) {
      var i :| 0 <= i < |runs| && runs[i].Covers(r, c);
      assert RunFits(runs[i], styles, a, b);
      var run, k := runs[i], c - runs[i].start;
      assert run.text[k] == b[r][run.start + k].glyph;
    }
  }

  // ---- the encoder ----

  datatype CastFrame = CastFrame(wait: int, ansi: string)

  predicate NoDuplicates(styles: seq<Css>) {
    forall i, j | 0 <= i < j < |styles| :: styles[i] != styles[j]
  }

  /** The index of a style sheet in the table, which grows when it is new. */
  method Intern(styles: seq<Css>, css: Css) returns (grown: seq<Css>, index: nat)
    requires NoDuplicates(styles)
    ensures NoDuplicates(grown) && styles <= grown && index < |grown| && grown[index] == css
  {
    if i :| 0 <= i < |styles| && styles[i] == css {
      return styles, i;
    }
    grown, index := styles + [css], |styles|;
  }

  /** The encoder stands at column `c` of row `r`: what comes before is written. */
  ghost predicate WrittenUpTo(runs: seq<Run>, styles: seq<Css>, a: Cells, b: Cells, r: int, c: int)
    requires SameShape(a, b)
  {
    && (forall i | 0 <= i < |runs| :: RunFits(runs[i], styles, a, b))
    && (forall i | 0 <= i < |runs| :: runs[i].row < r || (runs[i].row == r && runs[i].start + |runs[i].text| <= c))
    && InOrder(runs)
    && (forall r', c' | Changed(a, b, r', c') && (r' < r || (r' == r && c' < c)) :: Covered(runs, r', c'))
  }

  lemma StillCovered(runs: seq<Run>, run: Run)
    ensures forall r, c | Covered(runs, r, c) || run.Covers(r, c) :: Covered(runs + [run], r, c)
  {
    var longer := runs + [run];
    assert longer[|runs|] == run;
    forall r, c | Covered(runs, r, c)
      ensures Covered(longer, r, c)
    {
      var i :| 0 <= i < |runs| && runs[i].Covers(r, c);
      assert longer[i].Covers(r, c);
    }
  }

  /** A new style in the table disturbs no run. */
  lemma TableGrows(runs: seq<Run>, styles: seq<Css>, grown: seq<Css>, a: Cells, b: Cells)
    requires SameShape(a, b) && styles <= grown && forall i | 0 <= i < |runs| :: RunFits(runs[i], styles, a, b)
    ensures forall i | 0 <= i < |runs| :: RunFits(runs[i], grown, a, b)
  {
    forall i | 0 <= i < |runs|
      ensures RunFits(runs[i], grown, a, b)
    {
      StillFits(runs[i], styles, grown, a, b);
    }
  }

  lemma StillFits(run: Run, styles: seq<Css>, grown: seq<Css>, a: Cells, b: Cells)
    requires SameShape(a, b) && styles <= grown && RunFits(run, styles, a, b)
    ensures RunFits(run, grown, a, b)
  {
    assert grown[run.style] == styles[run.style];
  }

  lemma OneMoreRun(runs: seq<Run>, run: Run, styles: seq<Css>, a: Cells, b: Cells, r: int, c: int)
    requires SameShape(a, b) && WrittenUpTo(runs, styles, a, b, r, c)
    requires RunFits(run, styles, a, b) && run.row == r && run.start == c
    ensures WrittenUpTo(runs + [run], styles, a, b, r, c + |run.text|)
  {
    hide RunFits;
    StillCovered(runs, run);
    var longer := runs + [run];
    forall r', c' | Changed(a, b, r', c') && (r' < r || (r' == r && c' < c + |run.text|))
      ensures Covered(longer, r', c')
    {
      assert Covered(runs, r', c') || run.Covers(r', c');
    }
  }

  lemma NothingThere(runs: seq<Run>, styles: seq<Css>, a: Cells, b: Cells, r: int, c: int)
    requires SameShape(a, b) && WrittenUpTo(runs, styles, a, b, r, c) && !Changed(a, b, r, c)
    ensures WrittenUpTo(runs, styles, a, b, r, c + 1)
  {
  }

  lemma NextRow(runs: seq<Run>, styles: seq<Css>, a: Cells, b: Cells, r: nat)
    requires SameShape(a, b) && r < |b| && WrittenUpTo(runs, styles, a, b, r, |b[r]|)
    ensures WrittenUpTo(runs, styles, a, b, r + 1, 0)
  {
  }

  /** The glyphs of the run of changed cells in one style that starts at `start`. */
  method TakeRun(was: seq<Cell>, new': seq<Cell>, start: nat) returns (text: string)
    requires |was| == |new'| && start < |new'| && was[start] != new'[start]
    ensures text != [] && start + |text| <= |new'|
    ensures forall c | start <= c < start + |text| ::
              was[c] != new'[c] && new'[c].style == new'[start].style && text[c - start] == new'[c].glyph
  {
    text := [];
    var c := start;
    while c < |new'| && was[c] != new'[c] && new'[c].style == new'[start].style
      invariant start <= c <= |new'| && c == start + |text|
      invariant forall j | start <= j < c ::
                  was[j] != new'[j] && new'[j].style == new'[start].style && text[j - start] == new'[j].glyph
    {
      text := text + [new'[c].glyph];
      c := c + 1;
    }
  }

  lemma TakenRunFits(run: Run, styles: seq<Css>, a: Cells, b: Cells)
    requires SameShape(a, b) && run.row < |b| && run.text != [] && run.start + |run.text| <= |b[run.row]|
    requires run.style < |styles| && styles[run.style] == CssOf(b[run.row][run.start].style)
    requires forall c | run.start <= c < run.start + |run.text| ::
               && a[run.row][c] != b[run.row][c] && b[run.row][c].style == b[run.row][run.start].style
               && run.text[c - run.start] == b[run.row][c].glyph
    ensures RunFits(run, styles, a, b)
  {
    forall k | 0 <= k < |run.text|
      ensures a[run.row][run.start + k] != b[run.row][run.start + k]
      ensures run.text[k] == b[run.row][run.start + k].glyph
      ensures styles[run.style] == CssOf(b[run.row][run.start + k].style)
    {
      var c := run.start + k;
      assert a[run.row][c] != b[run.row][c];
    }
  }

  lemma WrittenRunsFit(runs: seq<Run>, styles: seq<Css>, grown: seq<Css>, a: Cells, b: Cells, r: int, c: int)
    requires SameShape(a, b) && WrittenUpTo(runs, styles, a, b, r, c) && styles <= grown
    ensures WrittenUpTo(runs, grown, a, b, r, c)
  {
    hide RunFits;
    TableGrows(runs, styles, grown, a, b);
  }

  method EncodeRow(r: nat, a: Cells, b: Cells, runs: seq<Run>, styles: seq<Css>)
    returns (more: seq<Run>, grown: seq<Css>)
    requires SameShape(a, b) && r < |b| && NoDuplicates(styles) && WrittenUpTo(runs, styles, a, b, r, 0)
    ensures NoDuplicates(grown) && styles <= grown && WrittenUpTo(more, grown, a, b, r + 1, 0)
  {
    hide WrittenUpTo, RunFits, CssOf;
    more, grown := runs, styles;
    var c := 0;
    while c < |b[r]|
      invariant 0 <= c <= |b[r]|
      invariant NoDuplicates(grown) && styles <= grown
      invariant WrittenUpTo(more, grown, a, b, r, c)
    {
      if a[r][c] == b[r][c] {
        NothingThere(more, grown, a, b, r, c);
        c := c + 1;
        continue;
      }
      var text := TakeRun(a[r], b[r], c);
      ghost var before := grown;
      var index;
      grown, index := Intern(grown, CssOf(b[r][c].style));
      WrittenRunsFit(more, before, grown, a, b, r, c);
      var run := Run(r, c, index, text);
      TakenRunFits(run, grown, a, b);
      OneMoreRun(more, run, grown, a, b, r, c);
      more := more + [run];
      c := c + |text|;
    }
    NextRow(more, grown, a, b, r);
  }

  method EncodeFrame(a: Cells, b: Cells, styles: seq<Css>) returns (runs: seq<Run>, grown: seq<Css>)
    requires SameShape(a, b) && NoDuplicates(styles)
    ensures NoDuplicates(grown) && styles <= grown && Encodes(runs, grown, a, b)
  {
    runs, grown := [], styles;
    for r := 0 to |b|
      invariant NoDuplicates(grown) && styles <= grown
      invariant WrittenUpTo(runs, grown, a, b, r, 0)
    {
      runs, grown := EncodeRow(r, a, b, runs, grown);
    }
  }

  /** The emulator after the first `k` frames. */
  ghost function Watched(t: Term, cast: seq<CastFrame>, k: nat): (r: Option<Term>)
    requires WellShaped(t) && k <= |cast|
    ensures r.Some? ==> KeepsShape(t, r.value)
  {
    if k == 0 then Some(t)
    else
      var before := Watched(t, cast, k - 1);
      if before.None? then None else Feed(before.value, cast[k - 1].ansi)
  }

  lemma {:induction false} WatchedBefore(t: Term, cast: seq<CastFrame>, j: nat, k: nat)
    requires WellShaped(t) && j <= k <= |cast| && Watched(t, cast, k).Some?
    ensures Watched(t, cast, j).Some?
    decreases k
  {
    if j < k {
      WatchedBefore(t, cast, j, k - 1);
    }
  }

  ghost predicate FrameFaithful(scene: Scene, t: Term, cast: seq<CastFrame>, k: nat)
    requires WellShaped(t) && k < |cast| && k < |scene.frames|
  {
    && Watched(t, cast, k).Some? && Watched(t, cast, k + 1).Some?
    && scene.frames[k].wait == cast[k].wait
    && Encodes(scene.frames[k].runs, scene.styles, Watched(t, cast, k).value.cells, Watched(t, cast, k + 1).value.cells)
  }

  /** The first `n` frames of the scene encode what the emulator shows. */
  ghost predicate Faithful(scene: Scene, t: Term, cast: seq<CastFrame>, n: nat)
    requires WellShaped(t) && n <= |cast|
  {
    && scene.cols == t.width && scene.rows == t.height && |scene.frames| == n && NoDuplicates(scene.styles)
    && forall k | 0 <= k < n :: FrameFaithful(scene, t, cast, k)
  }

  lemma FramesStayFaithful(scene: Scene, grown: seq<Css>, frame: Frame, t: Term, cast: seq<CastFrame>, n: nat)
    requires WellShaped(t) && n < |cast| && Faithful(scene, t, cast, n)
    requires NoDuplicates(grown) && scene.styles <= grown && frame.wait == cast[n].wait
    requires Watched(t, cast, n).Some? && Watched(t, cast, n + 1).Some?
    requires Encodes(frame.runs, grown, Watched(t, cast, n).value.cells, Watched(t, cast, n + 1).value.cells)
    ensures Faithful(scene.(styles := grown, frames := scene.frames + [frame]), t, cast, n + 1)
  {
    hide Watched, RunFits;
    var longer := scene.(styles := grown, frames := scene.frames + [frame]);
    forall k | 0 <= k < n + 1
      ensures FrameFaithful(longer, t, cast, k)
    {
      if k < n {
        assert FrameFaithful(scene, t, cast, k);
        TableGrows(scene.frames[k].runs, scene.styles, grown, Watched(t, cast, k).value.cells,
                   Watched(t, cast, k + 1).value.cells);
      }
    }
  }

  /** Convert a cast: nothing when the emulator raises on one of its frames. */
  method Convert(width: nat, height: nat, cast: seq<CastFrame>) returns (scene: Option<Scene>)
    requires width > 0 && height > 0
    ensures scene.None? <==> Watched(Terminal.Fresh(width, height), cast, |cast|).None?
    ensures scene.Some? ==> Faithful(scene.value, Terminal.Fresh(width, height), cast, |cast|)
  {
    hide Encodes, RunFits, Feed, FrameFaithful;
    ghost var t := Terminal.Fresh(width, height);
    var screen := new S.Screen(width, height);
    var previous := screen.cells;
    var made := Scene(width, height, [], []);
    for k := 0 to |cast|
      invariant fresh(screen)
      invariant Watched(t, cast, k) == Some(screen.State()) && previous == screen.cells
      invariant Faithful(made, t, cast, k)
    {
      var ok := screen.FeedAll(cast[k].ansi);
      if !ok {
        if Watched(t, cast, |cast|).Some? {
          WatchedBefore(t, cast, k + 1, |cast|);
        }
        return None;
      }
      var runs, styles := EncodeFrame(previous, screen.cells, made.styles);
      FramesStayFaithful(made, styles, Frame(cast[k].wait, runs), t, cast, k);
      made := made.(styles := styles, frames := made.frames + [Frame(cast[k].wait, runs)]);
      previous := screen.cells;
    }
    scene := Some(made);
  }

  // ---- the player ----

  /** A run drawn on a row; what would fall off its end is dropped. */
  function PaintedRow(row: seq<Span>, start: nat, text: string, css: Css): (r: seq<Span>)
    ensures |r| == |row|
  {
    seq(|row|, c requires 0 <= c < |row| =>
      if start <= c < start + |text| then Shown(text[c - start], css) else row[c])
  }

  predicate Drawable(runs: seq<Run>, styles: seq<Css>, grid: Grid) {
    forall i | 0 <= i < |runs| :: runs[i].row < |grid| && runs[i].style < |styles|
  }

  function PaintedRuns(grid: Grid, runs: seq<Run>, styles: seq<Css>): (g: Grid)
    requires Drawable(runs, styles, grid)
    ensures |g| == |grid| && forall r | 0 <= r < |g| :: |g[r]| == |grid[r]|
    decreases |runs|
  {
    if runs == [] then grid
    else
      var run := runs[0];
      PaintedRuns(grid[run.row := PaintedRow(grid[run.row], run.start, run.text, styles[run.style])], runs[1..], styles)
  }

  predicate CellOf(grid: Grid, cells: Cells) {
    |grid| == |cells| && forall r | 0 <= r < |grid| :: |grid[r]| == |cells[r]|
  }

  /** Drawing runs that give cells of `b` their look changes the cells they cover to it, and no other. */
  lemma {:induction false} PaintedRunsAt(
    grid: Grid, runs: seq<Run>, styles: seq<Css>, a: Cells, b: Cells, r: int, c: int)
    requires SameShape(a, b) && CellOf(grid, b) && Drawable(runs, styles, grid)
    requires forall i | 0 <= i < |runs| :: RunFits(runs[i], styles, a, b)
    requires 0 <= r < |b| && 0 <= c < |b[r]|
    ensures PaintedRuns(grid, runs, styles)[r][c] == if Covered(runs, r, c) then ShownCell(b[r][c]) else grid[r][c]
    decreases |runs|
  {
    if runs != [] {
      var run, rest := runs[0], runs[1..];
      var next := grid[run.row := PaintedRow(grid[run.row], run.start, run.text, styles[run.style])];
      assert RunFits(run, styles, a, b);
      assert next[r][c] == if run.Covers(r, c) then ShownCell(b[r][c]) else grid[r][c];
      PaintedRunsAt(next, rest, styles, a, b, r, c);
      assert Covered(runs, r, c) <==> run.Covers(r, c) || Covered(rest, r, c) by {
        CoveredSplits(runs, r, c);
      }
    }
  }

  lemma CoveredSplits(runs: seq<Run>, r: int, c: int)
    requires runs != []
    ensures Covered(runs, r, c) <==> runs[0].Covers(r, c) || Covered(runs[1..], r, c)
  {
    if Covered(runs, r, c) {
      var i :| 0 <= i < |runs| && runs[i].Covers(r, c);
      assert i > 0 ==> runs[1..][i - 1].Covers(r, c);
    }
    if Covered(runs[1..], r, c) {
      var i :| 0 <= i < |runs[1..]| && runs[1..][i].Covers(r, c);
      assert runs[i + 1].Covers(r, c);
    }
  }

  /** A faithful frame takes the player from what the emulator showed to what it shows. */
  lemma FrameDecodes(runs: seq<Run>, styles: seq<Css>, a: Cells, b: Cells)
    requires SameShape(a, b) && Encodes(runs, styles, a, b)
    ensures Drawable(runs, styles, ShownCells(a))
    ensures PaintedRuns(ShownCells(a), runs, styles) == ShownCells(b)
  {
    var grid := ShownCells(a);
    assert Drawable(runs, styles, grid) by {
      forall i | 0 <= i < |runs| ensures runs[i].row < |grid| && runs[i].style < |styles| {
        assert RunFits(runs[i], styles, a, b);
      }
    }
    var painted := PaintedRuns(grid, runs, styles);
    forall r, c | 0 <= r < |b| && 0 <= c < |b[r]|
      ensures painted[r][c] == ShownCells(b)[r][c]
    {
      PaintedRunsAt(grid, runs, styles, a, b, r, c);
      assert !Covered(runs, r, c) ==> !Changed(a, b, r, c);
    }
    SameGrid(painted, ShownCells(b));
  }

  lemma SameGrid(g: Grid, h: Grid)
    requires |g| == |h| && forall r | 0 <= r < |g| :: |g[r]| == |h[r]|
    requires forall r, c | 0 <= r < |g| && 0 <= c < |g[r]| :: g[r][c] == h[r][c]
    ensures g == h
  {
    forall r | 0 <= r < |g| ensures g[r] == h[r] {
      assert forall c | 0 <= c < |g[r]| :: g[r][c] == h[r][c];
    }
  }

  ghost predicate Playable(scene: Scene) {
    forall k | 0 <= k < |scene.frames| ::
      forall i | 0 <= i < |scene.frames[k].runs| ::
        scene.frames[k].runs[i].row < scene.rows && scene.frames[k].runs[i].style < |scene.styles|
  }

  /** The player's grid after the first `k` frames. */
  ghost function Played(scene: Scene, k: nat): (g: Grid)
    requires Playable(scene) && k <= |scene.frames|
    ensures |g| == scene.rows
  {
    if k == 0 then BlankGrid(scene.rows, scene.cols)
    else PaintedRuns(Played(scene, k - 1), scene.frames[k - 1].runs, scene.styles)
  }

  lemma FaithfulIsPlayable(scene: Scene, t: Term, cast: seq<CastFrame>)
    requires WellShaped(t) && Faithful(scene, t, cast, |cast|)
    ensures Playable(scene)
  {
    forall k, i | 0 <= k < |scene.frames| && 0 <= i < |scene.frames[k].runs|
      ensures scene.frames[k].runs[i].row < scene.rows && scene.frames[k].runs[i].style < |scene.styles|
    {
      assert FrameFaithful(scene, t, cast, k);
      hide FrameFaithful, Watched;
      assert RunFits(scene.frames[k].runs[i], scene.styles, Watched(t, cast, k).value.cells,
                     Watched(t, cast, k + 1).value.cells);
    }
  }

  /** Encoder and decoder undo each other: after any number of frames every cell of the player's grid has
      the glyph and the style sheet of the emulator's cell. */
  lemma {:induction false} RoundTrip(scene: Scene, width: nat, height: nat, cast: seq<CastFrame>, k: nat)
    requires width > 0 && height > 0 && k <= |cast|
    requires Faithful(scene, Terminal.Fresh(width, height), cast, |cast|)
    ensures Playable(scene)
    ensures Watched(Terminal.Fresh(width, height), cast, k).Some?
    ensures Played(scene, k) == ShownCells(Watched(Terminal.Fresh(width, height), cast, k).value.cells)
    decreases k
  {
    var t := Terminal.Fresh(width, height);
    FaithfulIsPlayable(scene, t, cast);
    if k == 0 {
      SameGrid(BlankGrid(height, width), ShownCells(t.cells));
    } else {
      RoundTrip(scene, width, height, cast, k - 1);
      assert FrameFaithful(scene, t, cast, k - 1);
      hide Watched, Encodes;
      FrameDecodes(scene.frames[k - 1].runs, scene.styles, Watched(t, cast, k - 1).value.cells,
                   Watched(t, cast, k).value.cells);
    }
  }

  class Player {
    const data: Scene
    var cells: Grid
    var frame: nat

    constructor (data: Scene)
      requires Playable(data)
      ensures this.data == data && frame == 0 && cells == Played(data, 0)
    {
      this.data := data;
      cells := BlankGrid(data.rows, data.cols);
      frame := 0;
    }

    ghost predicate Valid()
      reads this
    {
      Playable(data) && frame <= |data.frames| && cells == Played(data, frame)
    }

    /** Draw the runs of one frame. */
    method Apply(index: nat)
      requires Playable(data) && index < |data.frames| && |cells| == data.rows
      modifies `cells
      ensures |cells| == data.rows
      ensures Drawable(data.frames[index].runs, data.styles, old(cells))
      ensures cells == PaintedRuns(old(cells), data.frames[index].runs, data.styles)
    {
      var runs := data.frames[index].runs;
      var i := 0;
      while i < |runs|
        invariant 0 <= i <= |runs| && |cells| == data.rows
        invariant Drawable(runs[i..], data.styles, cells) && Drawable(runs, data.styles, old(cells))
        invariant PaintedRuns(cells, runs[i..], data.styles) == PaintedRuns(old(cells), runs, data.styles)
      {
        var run := runs[i];
        assert runs[i..][0] == run && runs[i..][1..] == runs[i + 1..];
        var row := cells[run.row];
        var k := 0;
        while k < |run.text| && run.start + k < |row|
          invariant 0 <= k <= |run.text| && |row| == |cells[run.row]|
          invariant forall c | 0 <= c < |row| ::
                      row[c] == if run.start <= c < run.start + k
                                then Shown(run.text[c - run.start], data.styles[run.style])
                                else cells[run.row][c]
        {
          row := row[run.start + k := Shown(run.text[k], data.styles[run.style])];
          k := k + 1;
        }
        assert row == PaintedRow(cells[run.row], run.start, run.text, data.styles[run.style]);
        cells := cells[run.row := row];
        i := i + 1;
      }
    }

    /** Draw what is left of the scene at once. */
    method Finish()
      requires Valid()
      modifies this
      ensures Valid() && frame == |data.frames|
    {
      while frame < |data.frames|
        invariant Valid()
        decreases |data.frames| - frame
      {
        Apply(frame);
        frame := frame + 1;
      }
    }
  }
}
