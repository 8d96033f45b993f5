/// The messages the backend sends to the frontend and the binary cell record
/// they carry (crates/phantom-app/src/ipc.rs).
module Ipc {
  import opened Wrappers
  import opened Text
  import opened Cell
  import opened Screen

  /** One row of encoded cells for an incremental update. */
  datatype DirtyRow = DirtyRow(y: u16, cells: seq<u8>)

  /** `TerminalEvent`. */
  datatype TerminalEvent =
    | FullFrame(cols: u16, rows: u16, cells: seq<u8>,
                cursorRow: u16, cursorCol: u16, cursorShape: string, cursorVisible: bool)
    | DirtyRows(dirty: seq<DirtyRow>,
                cursorRow: u16, cursorCol: u16, cursorShape: string, cursorVisible: bool)
    | TitleChanged(title: string)
    | Bell
    | Exited(code: Option<u32>)

  /** The number of bytes of one encoded cell. */
  const CELL_BYTES: nat := 16

  // ---------------------------------------------------------------------
  // Little-endian u32

  /** The four bytes of `n`, least significant first. */
  function U32Le(n: u32): (b: seq<u8>)
    ensures |b| == 4
  {
    [n % 0x100, (n / 0x100) % 0x100, (n / 0x1_0000) % 0x100, n / 0x100_0000]
  }

  /** `u32::from_le_bytes`. */
  function FromU32Le(b0: u8, b1: u8, b2: u8, b3: u8): (n: u32) {
    b0 + 0x100 * b1 + 0x1_0000 * b2 + 0x100_0000 * b3
  }

  /** Reassembling the four bytes gives the number back. */
  lemma U32LeRoundTrip(n: u32)
    ensures var b := U32Le(n); FromU32Le(b[0], b[1], b[2], b[3]) == n
  {
    var q1 := n / 0x100;
    var q2 := q1 / 0x100;
    var q3 := q2 / 0x100;
    assert n / 0x1_0000 == q2;
    assert n / 0x100_0000 == q3;
  }

  // ---------------------------------------------------------------------
  // The 16-byte cell record

  /** `CellFlags::bits`: the flag set as a byte. */
  function FlagBits(f: CellFlags): (b: u8)
    ensures b as bv8 == f
  {
    f as int
  }

  /** Whether a number is a Unicode scalar value, the code of some `char`. */
  predicate IsScalar(n: int) {
    (0 <= n < 0xD800) || (0xE000 <= n < 0x11_0000)
  }

  /** The documented layout of one cell: codepoint (u32 little-endian),
      foreground r g b, background r g b, flag bits, width, then four zero
      bytes (hyperlink id, grapheme length, padding). */
  function CellRecord(cell: VtCell): (rec: seq<u8>)
    ensures |rec| == CELL_BYTES
  {
    var cp := U32Le(cell.codepoint as int);
    [cp[0], cp[1], cp[2], cp[3], cell.fg.r, cell.fg.g, cell.fg.b, cell.bg.r, cell.bg.g, cell.bg.b,
     FlagBits(cell.flags), cell.width, 0, 0, 0, 0]
  }

  /** Byte by byte, the record follows the documented layout. */
  lemma CellRecordLayout(cell: VtCell)
    ensures var rec := CellRecord(cell);
            && rec[..4] == U32Le(cell.codepoint as int)
            && rec[4] == cell.fg.r && rec[5] == cell.fg.g && rec[6] == cell.fg.b
            && rec[7] == cell.bg.r && rec[8] == cell.bg.g && rec[9] == cell.bg.b
            && rec[10] as bv8 == cell.flags && rec[11] == cell.width
            && rec[12..] == [0, 0, 0, 0]
  {
  }

  /** `rec` holds, byte by byte, the documented layout of `cell`. */
  predicate IsRecordOf(rec: seq<u8>, cell: VtCell) {
    var cp := U32Le(cell.codepoint as int);
    && |rec| == CELL_BYTES
    && rec[0] == cp[0] && rec[1] == cp[1] && rec[2] == cp[2] && rec[3] == cp[3]
    && rec[4] == cell.fg.r && rec[5] == cell.fg.g && rec[6] == cell.fg.b
    && rec[7] == cell.bg.r && rec[8] == cell.bg.g && rec[9] == cell.bg.b
    && rec[10] == FlagBits(cell.flags) && rec[11] == cell.width
    && rec[12] == 0 && rec[13] == 0 && rec[14] == 0 && rec[15] == 0
  }

  /** Only the record itself has the layout of a cell. */
  lemma IsRecordOfUnique(rec: seq<u8>, cell: VtCell)
    requires IsRecordOf(rec, cell)
    ensures rec == CellRecord(cell)
  {
  }

  /** `encode_cell`: fill a zeroed 16-byte buffer in place with the record. */
  method EncodeCell(cell: VtCell) returns (buf: array<u8>)
    ensures fresh(buf) && buf.Length == CELL_BYTES
    ensures buf[..] == CellRecord(cell)
  {
    buf := new u8[CELL_BYTES];
    var cp := U32Le(cell.codepoint as int);
    buf[0], buf[1], buf[2], buf[3] := cp[0], cp[1], cp[2], cp[3];
    buf[4], buf[5], buf[6] := cell.fg.r, cell.fg.g, cell.fg.b;
    buf[7], buf[8], buf[9] := cell.bg.r, cell.bg.g, cell.bg.b;
    buf[10] := FlagBits(cell.flags);
    buf[11] := cell.width;
    buf[12], buf[13] := 0, 0;
    buf[14] := 0;
    buf[15] := 0;
    IsRecordOfUnique(buf[..], cell);
  }

  /** Reading a record back by the documented layout; None when the record
      is not 16 bytes, its codepoint is not a scalar value or a reserved
      byte is not zero. */
  function DecodeCell(rec: seq<u8>): (r: Option<VtCell>)
    ensures r.Some? ==> |rec| == CELL_BYTES && rec[12..] == [0, 0, 0, 0]
  {
    if |rec| != CELL_BYTES || rec[12..] != [0, 0, 0, 0] then None
    else
      var cp := FromU32Le(rec[0], rec[1], rec[2], rec[3]);
      if !IsScalar(cp) then None
      else Some(VtCell(cp as char, Rgb(rec[4], rec[5], rec[6]), Rgb(rec[7], rec[8], rec[9]),
                       rec[10] as bv8, rec[11]))
  }

  /** The record determines the cell: decoding it gives back all five fields. */
  lemma DecodeEncodeCell(cell: VtCell)
    ensures DecodeCell(CellRecord(cell)) == Some(cell)
  {
    var rec := CellRecord(cell);
    U32LeRoundTrip(cell.codepoint as int);
    assert rec[12..] == [0, 0, 0, 0];
  }

  /** The default cell encodes as a space, white on black, no flags, width 1;
      a CJK character and an emoji keep their codepoints. */
  lemma CellRecordExamples()
    ensures CellRecord(DEFAULT_CELL) == [32, 0, 0, 0, 255, 255, 255, 0, 0, 0, 0, 1, 0, 0, 0, 0]
    ensures U32Le(0x4E16) == [0x16, 0x4E, 0, 0] && FromU32Le(0x16, 0x4E, 0, 0) == 0x4E16
    ensures U32Le(0x1F600) == [0x00, 0xF6, 0x01, 0] && FromU32Le(0x00, 0xF6, 0x01, 0) == 0x1F600
  {
  }

  /** Hence `encode_cell` is injective. */
  lemma CellRecordInjective(a: VtCell, b: VtCell)
    ensures CellRecord(a) == CellRecord(b) ==> a == b
  {
    DecodeEncodeCell(a);
    DecodeEncodeCell(b);
  }

  // ---------------------------------------------------------------------
  // Rows

  /** The records of the first `n` cells of a screen row, concatenated. */
  function RowRecordUpTo(g: Grid, row: u16, n: nat): (data: seq<u8>)
    requires n <= Cols(g)
    ensures |data| == n * CELL_BYTES
    decreases n
  {
    if n == 0 then [] else RowRecordUpTo(g, row, n - 1) + CellRecord(CellAt(g, row, n - 1))
  }

  /** The records of a whole screen row, left to right. */
  function RowRecord(g: Grid, row: u16): (data: seq<u8>)
    ensures |data| == Cols(g) * CELL_BYTES
  {
    RowRecordUpTo(g, row, Cols(g))
  }

  /** Block `c` of a row's first `n` records is the record of cell `c`. */
  lemma {:induction false} RowRecordUpToBlocks(g: Grid, row: u16, n: nat, c: nat)
    requires n <= Cols(g) && c < n
    ensures RowRecordUpTo(g, row, n)[c * CELL_BYTES .. c * CELL_BYTES + CELL_BYTES] == CellRecord(CellAt(g, row, c))
    decreases n
  {
    var prefix := RowRecordUpTo(g, row, n - 1);
    var last := CellRecord(CellAt(g, row, n - 1));
    assert RowRecordUpTo(g, row, n) == prefix + last;
    BlockOfAppend(prefix, last, c, n - 1);
    if c < n - 1 {
      RowRecordUpToBlocks(g, row, n - 1, c);
    }
  }

  /** Appending one more block keeps the earlier blocks and adds it as the last. */
  lemma BlockOfAppend(prefix: seq<u8>, last: seq<u8>, c: nat, k: nat)
    requires |prefix| == k * CELL_BYTES && |last| == CELL_BYTES && c <= k
    ensures c < k ==> (prefix + last)[c * CELL_BYTES .. c * CELL_BYTES + CELL_BYTES]
                      == prefix[c * CELL_BYTES .. c * CELL_BYTES + CELL_BYTES]
    ensures c == k ==> (prefix + last)[c * CELL_BYTES .. c * CELL_BYTES + CELL_BYTES] == last
  {
    var start := c * CELL_BYTES;
    if c < k {
      assert start + CELL_BYTES == (c + 1) * CELL_BYTES <= k * CELL_BYTES;
    }
  }

  /** `encode_row` yields `cols * 16` bytes and block `c` is the record of `cell(row, c)`. */
  lemma RowRecordBlocks(g: Grid, row: u16)
    ensures |RowRecord(g, row)| == Cols(g) * CELL_BYTES
    ensures forall c :: 0 <= c < Cols(g) ==>
              RowRecord(g, row)[c * CELL_BYTES .. c * CELL_BYTES + CELL_BYTES] == CellRecord(CellAt(g, row, c))
  {
    forall c | 0 <= c < Cols(g)
      ensures RowRecord(g, row)[c * CELL_BYTES .. c * CELL_BYTES + CELL_BYTES] == CellRecord(CellAt(g, row, c))
    {
      RowRecordUpToBlocks(g, row, Cols(g), c);
    }
  }

  /** `encode_row`: append the encoded cells of the row, column by column. */
  method EncodeRow(g: Grid, row: u16) returns (data: seq<u8>)
    ensures data == RowRecord(g, row)
  {
    data := [];
    var col := 0;
    while col < Cols(g)
      invariant 0 <= col <= Cols(g)
      invariant data == RowRecordUpTo(g, row, col)
    {
      var buf := EncodeCell(CellAt(g, row, col));
      data := data + buf[..];
      col := col + 1;
    }
  }

  // ---------------------------------------------------------------------
  // Cursor shape

  /** `cursor_shape_str`. */
  function CursorShapeStr(shape: CursorShape): (s: string)
    ensures shape == BlockShape <==> s == "block"
    ensures shape == UnderlineShape <==> s == "underline"
    ensures shape == BarShape <==> s == "bar"
    ensures shape == HiddenShape <==> s == "hidden"
  {
    match shape
    case BlockShape => "block"
    case UnderlineShape => "underline"
    case BarShape => "bar"
    case HiddenShape => "hidden"
  }
}
