/** The terminal emulator (scripts/website_ansi_to_html.py): a buffer of cells painted by a stream of
    characters and escape sequences. `None` stands for the exception the emulator raises. */
module Terminal {
  import opened Prelude

  datatype Rgb = Rgb(r: int, g: int, b: int)

  datatype Style = Style(fg: Option<Rgb>, bg: Option<Rgb>, bold: bool, underline: bool, reverse: bool)

  const BLANK := Style(None, None, false, false, false)

  datatype Cell = Cell(glyph: char, style: Style)

  const BLANK_CELL := Cell(' ', BLANK)

  type Cells = seq<seq<Cell>>

  datatype Saved = Saved(row: int, col: int, style: Style)

  datatype Term = Term(
    width: nat, height: nat, cells: Cells, row: int, col: int, style: Style, saved: Option<Saved>,
    top: int, bottom: int)

  // ---- colours ----

  const BASE16: seq<Rgb> := [
    Rgb(0, 0, 0), Rgb(205, 0, 0), Rgb(0, 205, 0), Rgb(205, 205, 0),
    Rgb(0, 0, 238), Rgb(205, 0, 205), Rgb(0, 205, 205), Rgb(229, 229, 229),
    Rgb(127, 127, 127), Rgb(255, 0, 0), Rgb(0, 255, 0), Rgb(255, 255, 0),
    Rgb(92, 92, 255), Rgb(255, 0, 255), Rgb(0, 255, 255), Rgb(255, 255, 255)]

  const LEVELS: seq<int> := [0, 95, 135, 175, 215, 255]

  function Xterm256(index: nat): Rgb {
    if index < 16 then BASE16[index]
    else if index < 232 then
      var i := index - 16;
      Rgb(LEVELS[i / 36], LEVELS[i / 6 % 6], LEVELS[i % 6])
    else
      var grey := 8 + 10 * (index - 232);
      Rgb(grey, grey, grey)
  }

  // ---- painting ----

  function BlankRow(width: nat): (row: seq<Cell>)
    ensures |row| == width
  {
    seq(width, _ => BLANK_CELL)
  }

  function Fresh(width: nat, height: nat): Term {
    Term(width, height, seq(height, _ => BlankRow(width)), 0, 0, BLANK, None, 0, height - 1)
  }

  /** A full buffer, a cursor on the screen (its column may stand one past the end, for the deferred wrap),
      a saved cursor that was, and a region that ends on the screen. */
  ghost predicate WellShaped(t: Term) {
    && t.width > 0 && t.height > 0
    && |t.cells| == t.height && (forall r | 0 <= r < t.height :: |t.cells[r]| == t.width)
    && 0 <= t.row < t.height && 0 <= t.col <= t.width
    && (t.saved.Some? ==> 0 <= t.saved.value.row < t.height && 0 <= t.saved.value.col <= t.width)
    && 0 <= t.top && 0 <= t.bottom < t.height
  }

  /** Painting keeps the shape of the buffer, and its size. */
  ghost predicate KeepsShape(t: Term, u: Term) {
    WellShaped(u) && u.width == t.width && u.height == t.height
  }

  /** Line feed. A region that starts below the screen cannot scroll. */
  ghost function Index(t: Term): (r: Option<Term>)
    requires WellShaped(t)
    ensures r.None? <==> t.row == t.bottom && t.top >= t.height
    ensures r.Some? ==> KeepsShape(t, r.value)
  {
    if t.row == t.bottom then
      if t.top >= t.height then None
      else
        var left := t.cells[..t.top] + t.cells[t.top + 1..];
        Some(t.(cells := left[..t.bottom] + [BlankRow(t.width)] + left[t.bottom..]))
    else if t.row < t.height - 1 then Some(t.(row := t.row + 1))
    else Some(t)
  }

  ghost function Put(t: Term, ch: char): (r: Option<Term>)
    requires WellShaped(t)
    ensures r.Some? ==> KeepsShape(t, r.value)
  {
    var at := if t.col >= t.width then Index(t.(col := 0)) else Some(t);
    if at.None? then None
    else
      var u := at.value;
      Some(u.(cells := u.cells[u.row := u.cells[u.row][u.col := Cell(ch, u.style)]], col := u.col + 1))
  }

  ghost function ErasedRow(t: Term, mode: int): (row: seq<Cell>)
    requires WellShaped(t)
    ensures |row| == t.width
  {
    var row := t.cells[t.row];
    if mode == 0 then row[..t.col] + BlankRow(t.width - t.col)
    else if mode == 1 then BlankRow(Min(t.col + 1, t.width)) + row[Min(t.col + 1, t.width)..]
    else BlankRow(t.width)
  }

  ghost function EraseLine(t: Term, mode: int): (r: Term)
    requires WellShaped(t)
    ensures KeepsShape(t, r)
  {
    t.(cells := t.cells[t.row := ErasedRow(t, mode)])
  }

  ghost function EraseDisplay(t: Term, mode: int): (r: Term)
    requires WellShaped(t)
    ensures KeepsShape(t, r)
  {
    if mode == 2 then t.(cells := seq(t.height, _ => BlankRow(t.width)))
    else if mode == 0 then
      t.(cells := t.cells[..t.row] + [ErasedRow(t, 0)] + seq(t.height - t.row - 1, _ => BlankRow(t.width)))
    else
      t.(cells := seq(t.row, _ => BlankRow(t.width)) + [ErasedRow(t, 1)] + t.cells[t.row + 1..])
  }

  // ---- SGR ----

  /** How many parameters the one at the head takes with it, or nothing when they are not all there. */
  function SgrLength(ps: seq<nat>): (n: Option<nat>)
    requires ps != []
    ensures n.Some? ==> 1 <= n.value <= |ps|
  {
    if ps[0] in {38, 48} && |ps| > 1 && ps[1] == 5 then if |ps| > 2 then Some(3) else None
    else if ps[0] in {38, 48} && |ps| > 1 && ps[1] == 2 then if |ps| > 4 then Some(5) else None
    else Some(1)
  }

  function SgrOne(s: Style, ps: seq<nat>): Style
    requires ps != [] && SgrLength(ps).Some?
  {
    var p := ps[0];
    if p == 0 then BLANK
    else if p == 1 then s.(bold := true)
    else if p == 21 || p == 22 then s.(bold := false)
    else if p == 4 then s.(underline := true)
    else if p == 24 then s.(underline := false)
    else if p == 7 then s.(reverse := true)
    else if p == 27 then s.(reverse := false)
    else if 30 <= p <= 37 then s.(fg := Some(Xterm256(p - 30)))
    else if 90 <= p <= 97 then s.(fg := Some(Xterm256(p - 90 + 8)))
    else if p == 39 then s.(fg := None)
    else if 40 <= p <= 47 then s.(bg := Some(Xterm256(p - 40)))
    else if 100 <= p <= 107 then s.(bg := Some(Xterm256(p - 100 + 8)))
    else if p == 49 then s.(bg := None)
    else if SgrLength(ps) == Some(3) then Coloured(s, p, Xterm256(ps[2]))
    else if SgrLength(ps) == Some(5) then Coloured(s, p, Rgb(ps[2], ps[3], ps[4]))
    else s
  }

  function Coloured(s: Style, target: int, colour: Rgb): Style {
    if target == 38 then s.(fg := Some(colour)) else s.(bg := Some(colour))
  }

  function Sgr(s: Style, ps: seq<nat>): Option<Style>
    decreases |ps|
  {
    if ps == [] then Some(s)
    else
      var n := SgrLength(ps);
      if n.None? then None else Sgr(SgrOne(s, ps), ps[n.value..])
  }

  // ---- escape sequences ----

  predicate IsDigit(c: char) { '0' <= c <= '9' }

  predicate IsLetter(c: char) { 'A' <= c <= 'Z' || 'a' <= c <= 'z' }

  predicate IsParameter(c: char) { IsDigit(c) || c == ';' || c == '?' }

  /** Where the parameter characters that start at `i` end. */
  function ParametersEnd(data: string, i: nat): (j: nat)
    requires i <= |data|
    ensures i <= j <= |data|
    ensures forall k | i <= k < j :: IsParameter(data[k])
    ensures j < |data| ==> !IsParameter(data[j])
    decreases |data| - i
  {
    if i < |data| && IsParameter(data[i]) then ParametersEnd(data, i + 1) else i
  }

  /** Whether a control sequence stands at `i`; it then ends with the letter at `ParametersEnd`. */
  predicate CsiAt(data: string, i: nat) {
    && i + 1 < |data| && data[i] == '\U{1b}' && data[i + 1] == '['
    && ParametersEnd(data, i + 2) < |data| && IsLetter(data[ParametersEnd(data, i + 2)])
  }

  /** The numbers between semicolons, a missing one being 0; a question mark among them is refused. */
  function Numbers(raw: string, value: nat): Option<seq<nat>>
    decreases |raw|
  {
    if raw == "" then Some([value])
    else if raw[0] == ';' then
      var rest := Numbers(raw[1..], 0);
      if rest.None? then None else Some([value] + rest.value)
    else if IsDigit(raw[0]) then Numbers(raw[1..], 10 * value + (raw[0] - '0') as nat)
    else None
  }

  function Parameters(raw: string): Option<seq<nat>> {
    if raw == "" then Some([]) else Numbers(raw, 0)
  }

  function Arg(ps: seq<nat>, n: nat, default: int): int {
    if n < |ps| && ps[n] != 0 then ps[n] else default
  }

  ghost function Restored(t: Term): Term {
    if t.saved.None? then t
    else t.(row := t.saved.value.row, col := t.saved.value.col, style := t.saved.value.style)
  }

  ghost function Csi(t: Term, raw: string, final: char): (r: Option<Term>)
    requires WellShaped(t)
    ensures r.Some? ==> KeepsShape(t, r.value)
  {
    if raw != "" && raw[0] == '?' then Some(t)
    else if Parameters(raw).None? then None
    else
      var ps := Parameters(raw).value;
      match final
      case 'm' =>
        var style := Sgr(t.style, if ps == [] then [0] else ps);
        if style.None? then None else Some(t.(style := style.value))
      case 'H' | 'f' =>
        Some(t.(row := Min(t.height - 1, Max(0, Arg(ps, 0, 1) - 1)),
                col := Min(t.width - 1, Max(0, Arg(ps, 1, 1) - 1))))
      case 'A' => Some(t.(row := Max(0, t.row - Arg(ps, 0, 1))))
      case 'B' => Some(t.(row := Min(t.height - 1, t.row + Arg(ps, 0, 1))))
      case 'C' => Some(t.(col := Min(t.width - 1, t.col + Arg(ps, 0, 1))))
      case 'D' => Some(t.(col := Max(0, t.col - Arg(ps, 0, 1))))
      case 'G' => Some(t.(col := Min(t.width - 1, Max(0, Arg(ps, 0, 1) - 1))))
      case 'J' => Some(EraseDisplay(t, Arg(ps, 0, 0)))
      case 'K' => Some(EraseLine(t, Arg(ps, 0, 0)))
      case 'r' =>
        Some(t.(top := Max(0, Arg(ps, 0, 1) - 1), bottom := Min(t.height - 1, Arg(ps, 1, t.height) - 1),
                row := 0, col := 0))
      case 's' => Some(t.(saved := Some(Saved(t.row, t.col, t.style))))
      case 'u' => Some(Restored(t))
      case _ => Some(t)
  }

  /** One character or escape sequence at `i`, and where the next one starts. */
  ghost function FeedOne(t: Term, data: string, i: nat): (r: (Option<Term>, nat))
    requires WellShaped(t) && i < |data|
    ensures r.1 > i
    ensures r.0.Some? ==> KeepsShape(t, r.0.value)
  {
    var ch := data[i];
    if ch == '\U{1b}' then
      if CsiAt(data, i) then
        var end := ParametersEnd(data, i + 2);
        (Csi(t, data[i + 2..end], data[end]), end + 1)
      else if i + 1 < |data| && data[i + 1] == '7' then
        (Some(t.(saved := Some(Saved(t.row, t.col, t.style)))), i + 2)
      else if i + 1 < |data| && data[i + 1] == '8' then (Some(Restored(t)), i + 2)
      else (Some(t), i + 2)
    else if ch == '\n' then
      var u := Index(t);
      (if u.None? then None else Some(u.value.(col := 0)), i + 1)
    else if ch == '\r' then (Some(t.(col := 0)), i + 1)
    else if ch == '\U{8}' then (Some(t.(col := Max(0, t.col - 1))), i + 1)
    else if ch == '\U{7}' || ch == '\U{0}' then (Some(t), i + 1)
    else if ch == '\t' then (Some(t.(col := Min(t.width - 1, (t.col / 8 + 1) * 8))), i + 1)
    else (Put(t, ch), i + 1)
  }

  /** Whatever is fed, unless it raises: the buffer keeps its shape and the cursor its range. */
  ghost function FeedFrom(t: Term, data: string, i: nat): (r: Option<Term>)
    requires WellShaped(t)
    ensures r.Some? ==> KeepsShape(t, r.value)
    decreases |data| - i
  {
    if i >= |data| then Some(t)
    else
      var (u, next) := FeedOne(t, data, i);
      if u.None? then None else FeedFrom(u.value, data, next)
  }

  ghost function Feed(t: Term, data: string): (r: Option<Term>)
    requires WellShaped(t)
    ensures r.Some? ==> KeepsShape(t, r.value)
  {
    FeedFrom(t, data, 0)
  }
}
