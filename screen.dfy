/// The read-only screen view over the embedded emulator's grid, colour
/// resolution and cell/cursor conversion (crates/phantom-vt/src/screen.rs).
///
/// The emulator's own types are modelled here only as far as the conversion
/// reads them: a grid cell has a character, two colours and a set of
/// attribute flags; a colour is a direct RGB value, a named colour or a
/// palette index; the palette holds the colours the running program set.
module Screen {
  import opened Text
  import opened Cell

  // ---------------------------------------------------------------------
  // The emulator's colour and cell types

  /** The emulator's named colours; `Index` is the library's discriminant,
      which is also the colour's slot in the palette. */
  datatype NamedColor =
    | Black | Red | Green | Yellow | Blue | Magenta | Cyan | White
    | BrightBlack | BrightRed | BrightGreen | BrightYellow
    | BrightBlue | BrightMagenta | BrightCyan | BrightWhite
    | Foreground | Background | Cursor
    | DimBlack | DimRed | DimGreen | DimYellow | DimBlue | DimMagenta | DimCyan | DimWhite
    | BrightForeground | DimForeground
  {
    function Index(): nat {
      match this
      case Black => 0 case Red => 1 case Green => 2 case Yellow => 3
      case Blue => 4 case Magenta => 5 case Cyan => 6 case White => 7
      case BrightBlack => 8 case BrightRed => 9 case BrightGreen => 10 case BrightYellow => 11
      case BrightBlue => 12 case BrightMagenta => 13 case BrightCyan => 14 case BrightWhite => 15
      case Foreground => 256 case Background => 257 case Cursor => 258
      case DimBlack => 259 case DimRed => 260 case DimGreen => 261 case DimYellow => 262
      case DimBlue => 263 case DimMagenta => 264 case DimCyan => 265 case DimWhite => 266
      case BrightForeground => 267 case DimForeground => 268
    }
  }

  datatype Color = Spec(rgb: Rgb) | Named(name: NamedColor) | Indexed(idx: u8)

  /** The palette: slot index to the colour a program set there; a slot
      missing from the map is unset. */
  type Colors = map<int, Rgb>

  /** The emulator's cell attribute flags that the conversion reads, and the
      others, which it ignores. */
  datatype AlacFlag =
    | Bold | Italic | Underline | Strikeout | Inverse | Dim | Hidden
    | WideChar | WideCharSpacer
    | Wrapline | DoubleUnderline | Undercurl | DottedUnderline | DashedUnderline | LeadingWideCharSpacer

  datatype AlacCell = AlacCell(c: char, fg: Color, bg: Color, flags: set<AlacFlag>)

  /** A cell of a freshly created grid. */
  const BLANK_CELL: AlacCell := AlacCell(' ', Named(Foreground), Named(Background), {})

  // ---------------------------------------------------------------------
  // Colour resolution

  /** The standard xterm-256color ANSI palette. */
  const ANSI_COLORS: seq<Rgb> := [
    Rgb(0, 0, 0), Rgb(205, 0, 0), Rgb(0, 205, 0), Rgb(205, 205, 0),
    Rgb(0, 0, 238), Rgb(205, 0, 205), Rgb(0, 205, 205), Rgb(229, 229, 229),
    Rgb(127, 127, 127), Rgb(255, 0, 0), Rgb(0, 255, 0), Rgb(255, 255, 0),
    Rgb(92, 92, 255), Rgb(255, 0, 255), Rgb(0, 255, 255), Rgb(255, 255, 255)
  ]

  const WHITE: Rgb := Rgb(255, 255, 255)
  const BLACK: Rgb := Rgb(0, 0, 0)

  /** One component of the 6x6x6 colour cube. */
  function CubeLevel(v: nat): u8
    requires v < 6
  {
    if v == 0 then 0 else 55 + 40 * v
  }

  /** Fallback for a named colour the palette leaves unset. */
  function NamedDefault(name: NamedColor, isFg: bool): Rgb {
    match name
    case Foreground => WHITE
    case BrightForeground => WHITE
    case Background => BLACK
    case Cursor => WHITE
    case DimBlack => Rgb(0, 0, 0)
    case DimRed => Rgb(154, 0, 0)
    case DimGreen => Rgb(0, 154, 0)
    case DimYellow => Rgb(154, 154, 0)
    case DimBlue => Rgb(0, 0, 178)
    case DimMagenta => Rgb(154, 0, 154)
    case DimCyan => Rgb(0, 154, 154)
    case DimWhite => Rgb(178, 178, 178)
    case DimForeground => Rgb(178, 178, 178)
    case _ => if name.Index() < 16 then ANSI_COLORS[name.Index()] else if isFg then WHITE else BLACK
  }

  /** `resolve_color`: a direct colour as given, otherwise the palette slot when
      it is set, otherwise the built-in table for that slot. */
  function ResolveColor(color: Color, colors: Colors, isFg: bool): (c: Rgb)
    ensures color.Spec? ==> c == color.rgb
    ensures color.Indexed? && color.idx !in colors && 232 <= color.idx ==> c.r == c.g == c.b
  {
    match color
    case Spec(rgb) => rgb
    case Named(name) =>
      if name.Index() in colors then colors[name.Index()] else NamedDefault(name, isFg)
    case Indexed(idx) =>
      if idx in colors then colors[idx]
      else if idx < 16 then ANSI_COLORS[idx]
      else if idx < 232 then
        var n := idx - 16;
        Rgb(CubeLevel((n / 36) % 6), CubeLevel((n / 6) % 6), CubeLevel(n % 6))
      else
        var v := 8 + 10 * (idx - 232);
        Rgb(v, v, v)
  }

  /** A direct RGB colour passes through, and a set palette slot wins over every built-in default. */
  lemma ResolveDirectAndOverride(color: Color, colors: Colors, isFg: bool)
    ensures color.Spec? ==> ResolveColor(color, colors, isFg) == color.rgb
    ensures color.Indexed? && color.idx in colors ==> ResolveColor(color, colors, isFg) == colors[color.idx]
    ensures color.Named? && color.name.Index() in colors ==>
              ResolveColor(color, colors, isFg) == colors[color.name.Index()]
  {
  }

  /** Unset indices 0-15 use the ANSI table. */
  lemma ResolveAnsi(idx: u8, colors: Colors, isFg: bool)
    requires idx < 16 && idx !in colors
    ensures ResolveColor(Indexed(idx), colors, isFg) == ANSI_COLORS[idx]
    ensures ResolveColor(Indexed(idx), colors, isFg) == ResolveColor(Indexed(idx), colors, !isFg)
  {
  }

  /** The cube levels are exactly 0, 95, 135, 175, 215 and 255. */
  predicate IsCubeByte(x: int) {
    x == 0 || x == 95 || x == 135 || x == 175 || x == 215 || x == 255
  }

  /** Unset indices 16-231 resolve through the 6x6x6 cube: with n = idx - 16 the
      components are n/36, n/6 mod 6 and n mod 6, level 0 is byte 0 and level v > 0
      is 55 + 40v, so every byte is one of six cube values. */
  lemma ResolveCube(idx: u8, colors: Colors, isFg: bool)
    requires 16 <= idx < 232 && idx !in colors
    ensures var c := ResolveColor(Indexed(idx), colors, isFg);
            var n := idx - 16;
            && c.r == (if n / 36 == 0 then 0 else 55 + 40 * (n / 36))
            && c.g == (if (n / 6) % 6 == 0 then 0 else 55 + 40 * ((n / 6) % 6))
            && c.b == (if n % 6 == 0 then 0 else 55 + 40 * (n % 6))
            && IsCubeByte(c.r) && IsCubeByte(c.g) && IsCubeByte(c.b)
  {
    var n := idx - 16;
    assert n / 36 < 6;
    CubeLevelIsCubeByte((n / 36) % 6);
    CubeLevelIsCubeByte((n / 6) % 6);
    CubeLevelIsCubeByte(n % 6);
  }

  lemma CubeLevelIsCubeByte(v: nat)
    requires v < 6
    ensures IsCubeByte(CubeLevel(v))
  {
  }

  /** Unset indices 232-255 are the grey ramp 8 + 10(idx - 232): equal components between 8 and 238. */
  lemma ResolveGrey(idx: u8, colors: Colors, isFg: bool)
    requires 232 <= idx && idx !in colors
    ensures var c := ResolveColor(Indexed(idx), colors, isFg);
            c.r == c.g == c.b == 8 + 10 * (idx - 232) && 8 <= c.r <= 238
  {
  }

  /** Unset foreground-like names are white and the background is black; since every
      name of the emulator is listed before the last fallback, whether the colour is a
      foreground never changes a named colour. */
  lemma ResolveNamedDefaults(name: NamedColor, colors: Colors, isFg: bool)
    requires name.Index() !in colors
    ensures name in {Foreground, BrightForeground, Cursor} ==> ResolveColor(Named(name), colors, isFg) == WHITE
    ensures name == Background ==> ResolveColor(Named(name), colors, isFg) == BLACK
    ensures name.Index() < 16 ==> ResolveColor(Named(name), colors, isFg) == ANSI_COLORS[name.Index()]
    ensures ResolveColor(Named(name), colors, isFg) == ResolveColor(Named(name), colors, !isFg)
  {
  }

  // ---------------------------------------------------------------------
  // Cell conversion

  /** The attribute byte built from the emulator's flags, one `|=` per attribute. */
  function ConvertFlags(f: set<AlacFlag>): (flags: CellFlags)
    ensures (flags & BOLD != 0) <==> Bold in f
    ensures (flags & ITALIC != 0) <==> Italic in f
    ensures (flags & UNDERLINE != 0) <==> Underline in f
    ensures (flags & STRIKETHROUGH != 0) <==> Strikeout in f
    ensures (flags & INVERSE != 0) <==> Inverse in f
    ensures (flags & DIM != 0) <==> Dim in f
    ensures (flags & HIDDEN != 0) <==> Hidden in f
    ensures flags & BLINK == 0
  {
    var f0 := EMPTY_FLAGS;
    var f1 := if Bold in f then f0 | BOLD else f0;
    var f2 := if Italic in f then f1 | ITALIC else f1;
    var f3 := if Underline in f then f2 | UNDERLINE else f2;
    var f4 := if Strikeout in f then f3 | STRIKETHROUGH else f3;
    var f5 := if Inverse in f then f4 | INVERSE else f4;
    var f6 := if Dim in f then f5 | DIM else f5;
    var f7 := if Hidden in f then f6 | HIDDEN else f6;
    f7
  }

  /** `convert_cell`: the character as is, both colours resolved, the flags
      translated and the width 2 for a wide character, 0 for its spacer, otherwise 1. */
  function ConvertCell(cell: AlacCell, colors: Colors): (r: VtCell)
    ensures r.codepoint == cell.c
    ensures r.fg == ResolveColor(cell.fg, colors, true) && r.bg == ResolveColor(cell.bg, colors, false)
    ensures r.flags == ConvertFlags(cell.flags)
    ensures r.width == (if WideChar in cell.flags then 2 else if WideCharSpacer in cell.flags then 0 else 1)
    ensures r.width <= 2
  {
    var width := if WideChar in cell.flags then 2 else if WideCharSpacer in cell.flags then 0 else 1;
    VtCell(cell.c, ResolveColor(cell.fg, colors, true), ResolveColor(cell.bg, colors, false),
           ConvertFlags(cell.flags), width)
  }

  // ---------------------------------------------------------------------
  // The screen view

  /** The emulator's visible grid: its dimensions, the cell at each position
      and the palette. Positions outside the dimensions are never read. */
  datatype Grid = Grid(columns: u16, screenLines: u16, content: (int, int) -> AlacCell, colors: Colors)

  /** A grid of blank cells, as a new emulator has. */
  function BlankGrid(cols: u16, rows: u16): (g: Grid)
    ensures g.columns == cols && g.screenLines == rows && g.colors == map[]
  {
    Grid(cols, rows, (row, col) => BLANK_CELL, map[])
  }

  function Rows(g: Grid): u16 { g.screenLines }

  function Cols(g: Grid): u16 { g.columns }

  /** `ScreenView::cell`: the converted cell, or the default cell outside the grid. */
  function CellAt(g: Grid, row: u16, col: u16): (r: VtCell)
    ensures row >= Rows(g) || col >= Cols(g) ==> r == DEFAULT_CELL
    ensures row < Rows(g) && col < Cols(g) ==> r == ConvertCell(g.content(row, col), g.colors)
  {
    if row >= g.screenLines || col >= g.columns then DEFAULT_CELL
    else ConvertCell(g.content(row, col), g.colors)
  }

  /** `ScreenView::row_cells`: one cell per column, left to right. */
  function RowCells(g: Grid, row: u16): (r: seq<VtCell>)
    ensures |r| == Cols(g)
    ensures forall c :: 0 <= c < |r| ==> r[c] == CellAt(g, row, c)
  {
    seq(g.columns, c requires 0 <= c < g.columns => CellAt(g, row, c))
  }

  // ---------------------------------------------------------------------
  // Cursor and damage

  datatype CursorShape = BlockShape | UnderlineShape | BarShape | HiddenShape

  datatype AlacCursorShape = AlacBlock | AlacUnderline | AlacBeam | AlacHollowBlock | AlacHidden

  /** `convert_cursor_shape`. */
  function ConvertCursorShape(shape: AlacCursorShape): (s: CursorShape)
    ensures s == HiddenShape <==> shape == AlacHidden
  {
    match shape
    case AlacBlock => BlockShape
    case AlacHollowBlock => BlockShape
    case AlacUnderline => UnderlineShape
    case AlacBeam => BarShape
    case AlacHidden => HiddenShape
  }

  /** Both block shapes become a block, a beam becomes a bar, and only the hidden
      shape becomes hidden, so the visible flag the terminal derives from the
      emulator's shape agrees with the converted shape. */
  lemma ConvertCursorShapeCases(shape: AlacCursorShape)
    ensures ConvertCursorShape(shape) == BlockShape <==> shape in {AlacBlock, AlacHollowBlock}
    ensures ConvertCursorShape(shape) == BarShape <==> shape == AlacBeam
    ensures ConvertCursorShape(shape) == UnderlineShape <==> shape == AlacUnderline
    ensures ConvertCursorShape(shape) == HiddenShape <==> shape == AlacHidden
  {
  }

  datatype CursorState = CursorState(row: u16, col: u16, shape: CursorShape, visible: bool)

  datatype DamagedRow = DamagedRow(row: u16, left: u16, right: u16)

  datatype DamageInfo = Full | Partial(rows: seq<DamagedRow>)
}
