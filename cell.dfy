/// The screen's value types: an RGB colour, the one-byte attribute set and
/// one grid cell (crates/phantom-vt/src/cell.rs).
module Cell {
  import opened Text

  /** An RGB colour; `Rgb::new(r, g, b)` is the constructor itself. */
  datatype Rgb = Rgb(r: u8, g: u8, b: u8)

  /** Cell attributes packed into one byte. */
  type CellFlags = bv8

  const BOLD: CellFlags := 0x01
  const ITALIC: CellFlags := 0x02
  const UNDERLINE: CellFlags := 0x04
  const STRIKETHROUGH: CellFlags := 0x08
  const INVERSE: CellFlags := 0x10
  const DIM: CellFlags := 0x20
  const HIDDEN: CellFlags := 0x40
  const BLINK: CellFlags := 0x80

  /** The eight attributes in bit order, BOLD first. */
  const ALL_FLAGS: seq<CellFlags> := [BOLD, ITALIC, UNDERLINE, STRIKETHROUGH, INVERSE, DIM, HIDDEN, BLINK]

  const EMPTY_FLAGS: CellFlags := 0

  /** One cell of the grid: its character, colours, attributes and display width. */
  datatype VtCell = VtCell(codepoint: char, fg: Rgb, bg: Rgb, flags: CellFlags, width: u8)

  /** `VtCell::default()`: a space, white on black, no attributes, one column wide. */
  const DEFAULT_CELL: VtCell := VtCell(' ', Rgb(255, 255, 255), Rgb(0, 0, 0), EMPTY_FLAGS, 1)

  /** The k-th attribute is bit k, so the eight attributes are pairwise disjoint single bits. */
  lemma FlagsAreSingleBits()
    ensures |ALL_FLAGS| == 8
    ensures forall k :: 0 <= k < 8 ==> ALL_FLAGS[k] == (1 as bv8) << k
    ensures forall j, k :: 0 <= j < 8 && 0 <= k < 8 && j != k ==> ALL_FLAGS[j] & ALL_FLAGS[k] == 0
  {
  }

  /** Together the eight attributes fill the byte. */
  lemma FlagsFillTheByte()
    ensures BOLD | ITALIC | UNDERLINE | STRIKETHROUGH | INVERSE | DIM | HIDDEN | BLINK == 0xFF
  {
  }
}
