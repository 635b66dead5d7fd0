/**
 * The token sheet of the holder tracker as a grid of text cells, and the reading of the
 * previous snapshot out of its last column. Each snapshot column holds a timestamp in
 * row 3 and one holder per row from row 4 on, written as `address (percentage%)`.
 */
module HolderSheet {
  import opened Wrappers
  import opened Text
  import opened Numbers

  /** The row that holds a snapshot's timestamp. */
  const TimestampRow: nat := 3

  /** The row of a snapshot's first holder. */
  const FirstHolderRow: nat := 4

  /** What separates the address from the bracketed percentage in a display line. */
  const AddressSeparator: string := " ("

  /** The grid: the text of every cell that holds a value, by (row, column), both from 1. */
  type Cells = map<(int, int), string>

  /** One top holder: a wallet address and its share of the supply in percent. */
  datatype Holder = Holder(address: string, percentage: real)

  /** `f"{address} ({percentage:.4f}%)"`. */
  function DisplayLine(h: Holder): (line: string) {
    h.address + AddressSeparator + FormatFixed4(h.percentage) + "%)"
  }

  /**
   * One line of a snapshot cell: stripped and split on `" ("`; with exactly two parts the
   * first is the address and the second, without its `%` and `)` characters, must parse
   * as a number. Any other line yields nothing. A parsed address never contains `" ("`.
   */
  function ParseLine(line: string): (r: Option<Holder>)
    ensures r.Some? ==> Free(r.value.address, AddressSeparator)
  {
    var parts := Split(Strip(line), AddressSeparator);
    if |parts| == 2 then
      match ParseNum(Remove(Remove(parts[1], '%'), ')'))
      case Some(p) => Some(Holder(parts[0], p))
      case None => None
    else None
  }

  /** The holders parsed from the first `n` of `lines`, in line order. */
  function LinesHolders(lines: seq<string>, n: nat): (parsed: seq<Holder>)
    requires n <= |lines|
  {
    if n == 0 then [] else LinesHolders(lines, n - 1) + ParseLine(lines[n - 1]).ToSeq()
  }

  /** The holders of one cell: none when it is empty or has no value, else those of its lines. */
  function CellHolders(value: Option<string>): (hs: seq<Holder>) {
    if value.Some? && value.value != "" then
      var lines := Split(value.value, "\n");
      LinesHolders(lines, |lines|)
    else []
  }

  /** The value of cell (`row`, `col`), if it has one. */
  function CellAt(cells: Cells, row: int, col: int): (value: Option<string>) {
    if (row, col) in cells then Some(cells[(row, col)]) else None
  }

  /** The holders read from column `col`, rows `FirstHolderRow` to `last`, in row order. */
  function RowsHolders(cells: Cells, col: int, last: int): (hs: seq<Holder>)
    decreases last
  {
    if last < FirstHolderRow then []
    else RowsHolders(cells, col, last - 1) + CellHolders(CellAt(cells, last, col))
  }

  /**
   * The previous snapshot of a sheet with `maxRow` rows and `maxCol` columns: nothing when
   * it has fewer than two columns, and otherwise the holders read from its last column.
   */
  function PreviousHoldersOf(cells: Cells, maxRow: int, maxCol: int): (r: Option<seq<Holder>>)
    ensures r.None? <==> maxCol < 2
  {
    if maxCol < 2 then None else Some(RowsHolders(cells, maxCol, maxRow))
  }

  /**
   * Only the last column is read: two grids that agree on column `col` give the same
   * holders, whatever else they hold.
   */
  lemma {:induction false} OnlyColumnRead(cells: Cells, other: Cells, col: int, last: int)
    requires forall r :: CellAt(cells, r, col) == CellAt(other, r, col)
    ensures RowsHolders(cells, col, last) == RowsHolders(other, col, last)
    decreases last
  {
    if last >= FirstHolderRow {
      OnlyColumnRead(cells, other, col, last - 1);
      assert CellAt(cells, last, col) == CellAt(other, last, col);
    }
  }

  /**
   * An address that can be read back: not empty, not starting with whitespace (which
   * `strip` would remove), and containing neither `" ("` nor a line break.
   */
  predicate ReadableAddress(a: string) {
    |a| > 0 && !IsSpace(a[0]) && Free(a, AddressSeparator) && '\n' !in a
  }

  /** `h` as it reads back from its display line: the percentage rounded to four places. */
  function Rounded(h: Holder): (rounded: Holder) {
    Holder(h.address, Round4(h.percentage))
  }

  /** The percentage text of a display line, `%)` included, keeps no separator and no bracket or percent sign of its own. */
  lemma PercentText(p: real)
    ensures var x := FormatFixed4(p);
            Free(x + "%)", AddressSeparator) && Remove(Remove(x + "%)", '%'), ')') == x
  {
    var x := FormatFixed4(p);
    FormatFixed4Chars(p);
    assert ' ' !in x + "%)" by {
      forall i | 0 <= i < |x + "%)"| ensures (x + "%)")[i] != ' ' {
        if i < |x| {
          assert (x + "%)")[i] == x[i] && NumberChar(x[i]);
        }
      }
    }
    FreeOfFirstChar(x + "%)", AddressSeparator);
    assert '%' !in x && ')' !in x by {
      forall i | 0 <= i < |x| ensures x[i] != '%' && x[i] != ')' {
        assert NumberChar(x[i]);
      }
    }
    RemoveAppend(x, "%)", '%');
    RemoveAbsent(x, '%');
    assert Remove("%)", '%') == ")";
    RemoveAppend(x, ")", ')');
    RemoveAbsent(x, ')');
    assert Remove(")", ')') == "";
    assert x + "" == x;
  }

  /** A display line of a readable address parses back to that address and the rounded percentage. */
  lemma ParseDisplayLine(h: Holder)
    requires ReadableAddress(h.address)
    ensures ParseLine(DisplayLine(h)) == Some(Rounded(h))
  {
    var a, x := h.address, FormatFixed4(h.percentage);
    var line := DisplayLine(h);
    PercentText(h.percentage);
    assert Strip(line) == line by {
      assert line[0] == a[0];
      assert line[|line| - 1] == ')';
      StripUnchanged(line);
    }
    assert line == a + AddressSeparator + (x + "%)");
    SplitAround(a, AddressSeparator, x + "%)");
    ParseFormatted(h.percentage);
  }

  /** A display line of an address without line breaks is a single line. */
  lemma DisplayLineUnbroken(h: Holder)
    requires '\n' !in h.address
    ensures '\n' !in DisplayLine(h)
  {
    var x := FormatFixed4(h.percentage);
    FormatFixed4Chars(h.percentage);
    assert DisplayLine(h) == h.address + (AddressSeparator + x + "%)");
    forall i | 0 <= i < |x| ensures x[i] != '\n' {
      assert NumberChar(x[i]);
    }
  }

  /** A cell holding one display line of a readable address yields exactly that holder, rounded. */
  lemma CellOfDisplayLine(h: Holder)
    requires ReadableAddress(h.address)
    ensures CellHolders(Some(DisplayLine(h))) == [Rounded(h)]
  {
    var line := DisplayLine(h);
    DisplayLineUnbroken(h);
    FreeOfChar(line, '\n');
    SplitFree(line, "\n");
    ParseDisplayLine(h);
    LinesHoldersStep([line], 0);
  }

  /** One more line of a cell adds the holder it parses to, if any. */
  lemma LinesHoldersStep(lines: seq<string>, j: nat)
    requires j < |lines|
    ensures LinesHolders(lines, j + 1) == LinesHolders(lines, j) + ParseLine(lines[j]).ToSeq()
  {
  }

  /** One more row of the column adds the holders of its cell. */
  lemma RowsHoldersStep(grid: Cells, col: int, row: int)
    requires row >= FirstHolderRow
    ensures RowsHolders(grid, col, row) == RowsHolders(grid, col, row - 1) + CellHolders(CellAt(grid, row, col))
  {
  }

  /** The holders of the lines that parse, in line order. */
  method ReadLines(lines: seq<string>) returns (found: seq<Holder>)
    ensures found == LinesHolders(lines, |lines|)
  {
    found := [];
    for j := 0 to |lines|
      invariant found == LinesHolders(lines, j)
    {
      var holder := ParseLine(lines[j]);
      LinesHoldersStep(lines, j);
      found := found + holder.ToSeq();
    }
  }

  /** The lines of one cell: skip an empty cell, else keep the holders of the lines that parse, in order. */
  method ReadCell(value: Option<string>) returns (found: seq<Holder>)
    ensures found == CellHolders(value)
  {
    found := [];
    if value.Some? && value.value != "" {
      found := ReadLines(Split(value.value, "\n"));
    }
  }

  /** The walk down column `col` from row 4 to row `last`, reading each cell in turn. */
  method ReadColumn(grid: Cells, col: int, last: int) returns (data: seq<Holder>)
    ensures data == RowsHolders(grid, col, last)
  {
    data := [];
    for row := FirstHolderRow to Max(last + 1, FirstHolderRow)
      invariant data == RowsHolders(grid, col, row - 1)
    {
      var found := ReadCell(CellAt(grid, row, col));
      RowsHoldersStep(grid, col, row);
      data := data + found;
    }
  }

  /** The larger of two numbers. */
  function Max(a: int, b: int): (m: int) {
    if a >= b then a else b
  }

  /** The contents of a worksheet at one moment: what a `Sheet` holds in its fields. */
  datatype SheetState = SheetState(cells: Cells, maxRow: nat, maxCol: nat, fills: set<(int, int)>)

  /**
   * A worksheet: its cells, the extent openpyxl reports as `max_row` and `max_column`
   * (at least 1 even when empty), and the cells that carry the highlight fill.
   */
  class Sheet {
    var cells: Cells
    var maxRow: nat
    var maxCol: nat
    var fills: set<(int, int)>

    /** Every cell with a value or a fill lies within the reported extent. */
    ghost predicate Valid()
      reads this
    {
      1 <= maxRow && 1 <= maxCol &&
      (forall k | k in cells :: 1 <= k.0 <= maxRow && 1 <= k.1 <= maxCol) &&
      (forall k | k in fills :: 1 <= k.0 <= maxRow && 1 <= k.1 <= maxCol)
    }

    /** The sheet's contents as a value. */
    function State(): (state: SheetState)
      reads this
    {
      SheetState(cells, maxRow, maxCol, fills)
    }

    /** An empty sheet, whose extent openpyxl reports as one row and one column. */
    constructor ()
      ensures Valid() && cells == map[] && maxRow == 1 && maxCol == 1 && fills == {}
    {
      cells := map[];
      maxRow := 1;
      maxCol := 1;
      fills := {};
    }

    /**
     * `get_previous_holders`: nothing on a sheet with fewer than two columns; otherwise
     * walk the last column from row 4 to the last row, skip empty cells, split each cell
     * into lines and keep the holders of the lines that parse, in row and line order.
     */
    method PreviousHolders() returns (r: Option<seq<Holder>>)
      ensures r == PreviousHoldersOf(cells, maxRow, maxCol)
    {
      if maxCol < 2 {
        return None;
      }
      var data := ReadColumn(cells, maxCol, maxRow);
      r := Some(data);
    }

    /** `cell(row, col, value=v)`: set the cell's value, growing the extent to include it. */
    method Put(row: int, col: int, v: string)
      requires Valid() && 1 <= row && 1 <= col
      modifies this
      ensures Valid()
      ensures cells == old(cells)[(row, col) := v] && fills == old(fills)
      ensures maxRow == Max(old(maxRow), row) && maxCol == Max(old(maxCol), col)
    {
      cells := cells[(row, col) := v];
      maxRow := Max(maxRow, row);
      maxCol := Max(maxCol, col);
    }

    /** `cell(row, col).fill = yellow_fill`: highlight the cell, growing the extent to include it. */
    method Fill(row: int, col: int)
      requires Valid() && 1 <= row && 1 <= col
      modifies this
      ensures Valid()
      ensures fills == old(fills) + {(row, col)} && cells == old(cells)
      ensures maxRow == Max(old(maxRow), row) && maxCol == Max(old(maxCol), col)
    {
      fills := fills + {(row, col)};
      maxRow := Max(maxRow, row);
      maxCol := Max(maxCol, col);
    }
  }
}
