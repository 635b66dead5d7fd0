/**
 * Writing a new holder snapshot: the new column of the token sheet, the added and removed
 * wallets against the previous snapshot, the highlight on added wallets and the row of
 * the change sheet.
 */
module HolderDiff {
  import opened Wrappers
  import opened Text
  import opened HolderSheet

  /**
   * `{h['address']: h['percentage'] for h in holders[:n]}`: each address of the first `n`
   * holders, mapped to the percentage of its last occurrence.
   */
  function AddressMap(hs: seq<Holder>, n: nat): (m: map<string, real>)
    requires n <= |hs|
  {
    if n == 0 then map[]
    else AddressMap(hs, n - 1)[hs[n - 1].address := hs[n - 1].percentage]
  }

  /** The keys of the map are exactly the addresses of the first `n` holders. */
  lemma {:induction false} AddressMapKeys(hs: seq<Holder>, n: nat)
    requires n <= |hs|
    ensures forall a :: a in AddressMap(hs, n) <==> exists i :: 0 <= i < n && hs[i].address == a
  {
    if n > 0 {
      AddressMapKeys(hs, n - 1);
    }
  }

  /** One more holder sets its address to its percentage. */
  lemma AddressMapStep(hs: seq<Holder>, n: nat)
    requires n < |hs|
    ensures AddressMap(hs, n + 1) == AddressMap(hs, n)[hs[n].address := hs[n].percentage]
  {
  }

  /** The address map of a whole snapshot. */
  function Percentages(hs: seq<Holder>): (pcts: map<string, real>) {
    AddressMap(hs, |hs|)
  }

  /** When an address repeats, the percentage of its last occurrence is the one kept. */
  lemma {:induction false} LastOccurrenceWins(hs: seq<Holder>, n: nat, i: nat)
    requires i < n <= |hs|
    requires forall j :: i < j < n ==> hs[j].address != hs[i].address
    ensures hs[i].address in AddressMap(hs, n) && AddressMap(hs, n)[hs[i].address] == hs[i].percentage
  {
    if i < n - 1 {
      LastOccurrenceWins(hs, n - 1, i);
    }
  }

  /** Addresses in the current snapshot and not in the previous one. */
  function Added(current: seq<Holder>, previous: seq<Holder>): (added: set<string>) {
    Percentages(current).Keys - Percentages(previous).Keys
  }

  /** Addresses in the previous snapshot and not in the current one. */
  function Removed(current: seq<Holder>, previous: seq<Holder>): (removed: set<string>) {
    Percentages(previous).Keys - Percentages(current).Keys
  }

  /** Some holder of `hs` has address `a`. */
  predicate Holds(hs: seq<Holder>, a: string) {
    exists i :: 0 <= i < |hs| && hs[i].address == a
  }

  /**
   * The diff in terms of the snapshots: an address is added exactly when some current
   * holder has it and no previous holder does, and removed in the opposite case.
   */
  lemma DiffMembers(current: seq<Holder>, previous: seq<Holder>, a: string)
    ensures a in Added(current, previous) <==> Holds(current, a) && !Holds(previous, a)
    ensures a in Removed(current, previous) <==> Holds(previous, a) && !Holds(current, a)
  {
    AddressMapKeys(current, |current|);
    AddressMapKeys(previous, |previous|);
  }

  /**
   * The two lists never share an address, an address in both snapshots is in neither,
   * and both are empty exactly when the snapshots hold the same addresses.
   */
  lemma DiffDisjoint(current: seq<Holder>, previous: seq<Holder>)
    ensures Added(current, previous) * Removed(current, previous) == {}
    ensures forall a :: a in Percentages(current) && a in Percentages(previous) ==>
                          a !in Added(current, previous) && a !in Removed(current, previous)
    ensures Added(current, previous) == {} && Removed(current, previous) == {} <==>
            Percentages(current).Keys == Percentages(previous).Keys
  {
    var c, p := Percentages(current).Keys, Percentages(previous).Keys;
    if c - p == {} && p - c == {} {
      assert c == p by {
        forall a | a in c ensures a in p {
          assert a !in c - p;
        }
        forall a | a in p ensures a in c {
          assert a !in p - c;
        }
      }
    }
  }

  /** `order` lists the elements of `s`, each once. */
  predicate Enumerates(order: seq<string>, s: set<string>) {
    (forall i, j :: 0 <= i < j < |order| ==> order[i] != order[j]) &&
    (forall i :: 0 <= i < |order| ==> order[i] in s) &&
    (forall x | x in s :: x in order)
  }

  /** `list(s)`: the elements of a set in an order the model leaves open. */
  method Enumerate(s: set<string>) returns (order: seq<string>)
    ensures Enumerates(order, s)
    ensures |order| == |s|
  {
    order := [];
    var rest := s;
    while rest != {}
      invariant rest <= s
      invariant forall x :: x in order <==> x in s && x !in rest
      invariant forall i, j :: 0 <= i < j < |order| ==> order[i] != order[j]
      invariant |order| + |rest| == |s|
      decreases |rest|
    {
      var x :| x in rest;
      order := order + [x];
      rest := rest - {x};
    }
  }

  /** The display lines of the addresses `order`, with their percentages from `pcts`, one per line. */
  function ChangeLines(order: seq<string>, pcts: map<string, real>): (text: string)
    requires forall i :: 0 <= i < |order| ==> order[i] in pcts
  {
    Join(seq(|order|, i requires 0 <= i < |order| => DisplayLine(Holder(order[i], pcts[order[i]]))), "\n")
  }

  /**
   * The grid after writing a snapshot into the fresh column `col`: the timestamp in row 3
   * and the display line of holder `i` (of the first `n`) in row `i + 4`. No other cell
   * changes.
   */
  function ColumnCells(cells: Cells, col: int, timestamp: string, hs: seq<Holder>, n: nat): (written: Cells)
    requires n <= |hs|
  {
    if n == 0 then cells[(TimestampRow, col) := timestamp]
    else ColumnCells(cells, col, timestamp, hs, n - 1)[(FirstHolderRow + n - 1, col) := DisplayLine(hs[n - 1])]
  }

  /** After writing the first `n` holders, row `i + 4` of column `col` holds the display line of holder `i`. */
  lemma {:induction false} ColumnCellHolder(cells: Cells, col: int, timestamp: string, hs: seq<Holder>, n: nat, row: int)
    requires FirstHolderRow <= row < FirstHolderRow + n <= FirstHolderRow + |hs|
    ensures CellAt(ColumnCells(cells, col, timestamp, hs, n), row, col) == Some(DisplayLine(hs[row - FirstHolderRow]))
  {
    var before := ColumnCells(cells, col, timestamp, hs, n - 1);
    var after := ColumnCells(cells, col, timestamp, hs, n);
    assert after == before[(FirstHolderRow + n - 1, col) := DisplayLine(hs[n - 1])];
    if row < FirstHolderRow + n - 1 {
      assert CellAt(after, row, col) == CellAt(before, row, col);
      ColumnCellHolder(cells, col, timestamp, hs, n - 1, row);
    }
  }

  /** Row 3 of column `col` holds the timestamp. */
  lemma {:induction false} ColumnCellTimestamp(cells: Cells, col: int, timestamp: string, hs: seq<Holder>, n: nat)
    requires n <= |hs|
    ensures CellAt(ColumnCells(cells, col, timestamp, hs, n), TimestampRow, col) == Some(timestamp)
  {
    if n > 0 {
      ColumnCellTimestamp(cells, col, timestamp, hs, n - 1);
    }
  }

  /** Every other cell holds what it held before, value or none. */
  lemma {:induction false} ColumnCellOther(cells: Cells, col: int, timestamp: string, hs: seq<Holder>, n: nat, row: int, c: int)
    requires n <= |hs|
    requires c != col || (row != TimestampRow && !(FirstHolderRow <= row < FirstHolderRow + n))
    ensures CellAt(ColumnCells(cells, col, timestamp, hs, n), row, c) == CellAt(cells, row, c)
  {
    if n > 0 {
      ColumnCellOther(cells, col, timestamp, hs, n - 1, row, c);
    }
  }

  /** Writing one more holder adds its display line in the next row. */
  lemma ColumnCellsStep(cells: Cells, col: int, timestamp: string, hs: seq<Holder>, n: nat)
    requires n < |hs|
    ensures ColumnCells(cells, col, timestamp, hs, n + 1) ==
            ColumnCells(cells, col, timestamp, hs, n)[(FirstHolderRow + n, col) := DisplayLine(hs[n])]
  {
  }

  /** The holder cells among the first `n` whose address is in the list `added`. */
  function Highlighted(hs: seq<Holder>, added: seq<string>, col: int, n: nat): (filled: set<(int, int)>)
    requires n <= |hs|
  {
    set i | 0 <= i < n && hs[i].address in added :: (FirstHolderRow + i, col)
  }

  /**
   * With `added` listing the set `s`, the highlighted cells are exactly the rows `i + 4`
   * of column `col` whose holder's address is in `s`.
   */
  lemma HighlightedCells(hs: seq<Holder>, added: seq<string>, s: set<string>, col: int, r: int, c: int)
    requires Enumerates(added, s)
    ensures (r, c) in Highlighted(hs, added, col, |hs|) <==>
            c == col && FirstHolderRow <= r < FirstHolderRow + |hs| && hs[r - FirstHolderRow].address in s
  {
    if c == col && FirstHolderRow <= r < FirstHolderRow + |hs| && hs[r - FirstHolderRow].address in s {
      var i := r - FirstHolderRow;
      assert (FirstHolderRow + i, col) in Highlighted(hs, added, col, |hs|);
    }
  }

  /** One more holder adds its cell to the highlight exactly when its address is listed. */
  lemma HighlightedStep(hs: seq<Holder>, added: seq<string>, col: int, n: nat)
    requires n < |hs|
    ensures Highlighted(hs, added, col, n + 1) ==
            Highlighted(hs, added, col, n) + (if hs[n].address in added then {(FirstHolderRow + n, col)} else {})
  {
    var next := Highlighted(hs, added, col, n + 1);
    var want := Highlighted(hs, added, col, n) + (if hs[n].address in added then {(FirstHolderRow + n, col)} else {});
    forall k | k in next ensures k in want {
      var i :| 0 <= i < n + 1 && hs[i].address in added && k == (FirstHolderRow + i, col);
    }
  }

  /** The holders as they read back from their display lines, the first `n` of them. */
  function RoundedHolders(hs: seq<Holder>, n: nat): (r: seq<Holder>)
    requires n <= |hs|
    ensures |r| == n && forall i :: 0 <= i < n ==> r[i] == Rounded(hs[i])
  {
    if n == 0 then [] else RoundedHolders(hs, n - 1) + [Rounded(hs[n - 1])]
  }

  /** One more holder adds its rounded self at the end. */
  lemma RoundedHoldersStep(hs: seq<Holder>, n: nat)
    requires n < |hs|
    ensures RoundedHolders(hs, n + 1) == RoundedHolders(hs, n) + [Rounded(hs[n])]
  {
  }

  /** Every holder's address can be read back from its display line. */
  predicate AllReadable(hs: seq<Holder>) {
    forall i :: 0 <= i < |hs| ==> ReadableAddress(hs[i].address)
  }

  /** A row of the fresh column that holds a readable holder yields that holder, rounded. */
  lemma WrittenRowReads(cells: Cells, col: int, timestamp: string, hs: seq<Holder>, row: int)
    requires FirstHolderRow <= row < FirstHolderRow + |hs|
    requires ReadableAddress(hs[row - FirstHolderRow].address)
    ensures CellHolders(CellAt(ColumnCells(cells, col, timestamp, hs, |hs|), row, col)) == [Rounded(hs[row - FirstHolderRow])]
  {
    ColumnCellHolder(cells, col, timestamp, hs, |hs|, row);
    CellOfDisplayLine(hs[row - FirstHolderRow]);
  }

  /** A row of the fresh column below its last holder yields nothing. */
  lemma RowBelowReads(cells: Cells, col: int, timestamp: string, hs: seq<Holder>, row: int)
    requires FirstHolderRow + |hs| <= row && (row, col) !in cells
    ensures CellHolders(CellAt(ColumnCells(cells, col, timestamp, hs, |hs|), row, col)) == []
  {
    ColumnCellOther(cells, col, timestamp, hs, |hs|, row, col);
  }

  /** The number of holders written in rows 4 to `last`. */
  function RowsWritten(hs: seq<Holder>, last: int): (rows: nat)
    requires TimestampRow <= last
  {
    if last - TimestampRow <= |hs| then last - TimestampRow else |hs|
  }

  /** Reading the row of a holder appends its rounded self to the holders read so far. */
  lemma HolderRowRead(hs: seq<Holder>, last: int, front: seq<Holder>, cell: seq<Holder>)
    requires TimestampRow < last && last - FirstHolderRow < |hs|
    requires front == RoundedHolders(hs, RowsWritten(hs, last - 1))
    requires cell == [Rounded(hs[last - FirstHolderRow])]
    ensures front + cell == RoundedHolders(hs, RowsWritten(hs, last))
  {
    var k := last - FirstHolderRow;
    assert RowsWritten(hs, last - 1) == k && RowsWritten(hs, last) == k + 1;
    RoundedHoldersStep(hs, k);
  }

  /** Reading a row below the last holder leaves the holders read so far. */
  lemma EmptyRowRead(hs: seq<Holder>, last: int, front: seq<Holder>, cell: seq<Holder>)
    requires TimestampRow < last && |hs| <= last - FirstHolderRow
    requires front == RoundedHolders(hs, RowsWritten(hs, last - 1)) && cell == []
    ensures front + cell == RoundedHolders(hs, RowsWritten(hs, last))
  {
    assert RowsWritten(hs, last - 1) == RowsWritten(hs, last);
    assert front + cell == front;
  }

  /**
   * Reading any column whose rows 4 to `last` yield the rounded holders of `hs` in rows
   * 4 to `|hs| + 3` and nothing below gives the rounded holders written up to `last`.
   */
  lemma {:induction false} ColumnRows(grid: Cells, col: int, hs: seq<Holder>, last: int)
    requires TimestampRow <= last
    requires forall row | FirstHolderRow <= row <= last ::
               CellHolders(CellAt(grid, row, col)) ==
               if row - FirstHolderRow < |hs| then [Rounded(hs[row - FirstHolderRow])] else []
    ensures RowsHolders(grid, col, last) == RoundedHolders(hs, RowsWritten(hs, last))
    decreases last
  {
    if last > TimestampRow {
      ColumnRows(grid, col, hs, last - 1);
      RowsHoldersStep(grid, col, last);
      if last - FirstHolderRow < |hs| {
        HolderRowRead(hs, last, RowsHolders(grid, col, last - 1), CellHolders(CellAt(grid, last, col)));
      } else {
        EmptyRowRead(hs, last, RowsHolders(grid, col, last - 1), CellHolders(CellAt(grid, last, col)));
      }
    }
  }

  /**
   * Reading the fresh column row by row: up to row `last` it yields the rounded holders
   * written in rows 4 to `last`.
   */
  lemma ColumnReadsBack(cells: Cells, col: int, timestamp: string, hs: seq<Holder>, last: int)
    requires forall row :: (row, col) !in cells
    requires AllReadable(hs) && TimestampRow <= last
    ensures RowsHolders(ColumnCells(cells, col, timestamp, hs, |hs|), col, last) ==
            RoundedHolders(hs, RowsWritten(hs, last))
  {
    var grid := ColumnCells(cells, col, timestamp, hs, |hs|);
    forall row | FirstHolderRow <= row <= last
      ensures CellHolders(CellAt(grid, row, col)) ==
              if row - FirstHolderRow < |hs| then [Rounded(hs[row - FirstHolderRow])] else []
    {
      if row - FirstHolderRow < |hs| {
        WrittenRowReads(cells, col, timestamp, hs, row);
      } else {
        RowBelowReads(cells, col, timestamp, hs, row);
      }
    }
    ColumnRows(grid, col, hs, last);
  }

  /**
   * The round trip across two cycles: after a snapshot is written, the next cycle reads
   * exactly those holders back from the sheet's last column, percentages rounded to four
   * places.
   */
  lemma WrittenSnapshotReadsBack(cells: Cells, maxRow: nat, maxCol: nat, timestamp: string, hs: seq<Holder>)
    requires forall k :: k in cells ==> k.1 <= maxCol
    requires 1 <= maxCol && AllReadable(hs)
    ensures PreviousHoldersOf(ColumnCells(cells, maxCol + 1, timestamp, hs, |hs|),
                              Max(maxRow, |hs| + TimestampRow), maxCol + 1) == Some(RoundedHolders(hs, |hs|))
  {
    ColumnReadsBack(cells, maxCol + 1, timestamp, hs, Max(maxRow, |hs| + TimestampRow));
  }

  /** The display lines of the first `n` holders, in order. */
  predicate DisplaysOf(display: seq<string>, hs: seq<Holder>, n: nat)
    requires n <= |hs|
  {
    |display| == n && forall i :: 0 <= i < n ==> display[i] == DisplayLine(hs[i])
  }

  /** One turn of the first loop: holder `i`'s display line appended and its address mapped to its percentage. */
  method DisplayNext(hs: seq<Holder>, i: nat, display: seq<string>, pcts: map<string, real>)
    returns (display': seq<string>, pcts': map<string, real>)
    requires i < |hs| && DisplaysOf(display, hs, i) && pcts == AddressMap(hs, i)
    ensures DisplaysOf(display', hs, i + 1) && pcts' == AddressMap(hs, i + 1)
  {
    AddressMapStep(hs, i);
    display' := display + [DisplayLine(hs[i])];
    pcts' := pcts[hs[i].address := hs[i].percentage];
  }

  /**
   * The first loop of `write_holders_to_excel`: the display line of every holder, in
   * order, and the map from each address to its percentage, the last occurrence winning.
   */
  method DisplayData(hs: seq<Holder>) returns (display: seq<string>, pcts: map<string, real>)
    ensures DisplaysOf(display, hs, |hs|)
    ensures pcts == Percentages(hs)
  {
    display := [];
    pcts := map[];
    for i := 0 to |hs|
      invariant DisplaysOf(display, hs, i) && pcts == AddressMap(hs, i)
    {
      display, pcts := DisplayNext(hs, i, display, pcts);
    }
  }

  /** The token sheet once the first `n` holders of the new column `col` are written. */
  function ColumnWritten(start: Cells, rows: nat, fills: set<(int, int)>, col: nat, timestamp: string,
                         hs: seq<Holder>, n: nat): (written: SheetState)
    requires n <= |hs|
  {
    SheetState(ColumnCells(start, col, timestamp, hs, n), Max(rows, n + TimestampRow), col, fills)
  }

  /** Display line `i` into row `i + 4` of column `col`, once lines 0 to `i - 1` are written. */
  method WriteLine(sheet: Sheet, ghost start: Cells, ghost rows: nat, ghost fills: set<(int, int)>, col: nat,
                   timestamp: string, hs: seq<Holder>, display: seq<string>, i: nat)
    requires sheet.Valid() && 1 <= col && i < |hs| && DisplaysOf(display, hs, |hs|)
    requires sheet.State() == ColumnWritten(start, rows, fills, col, timestamp, hs, i)
    modifies sheet
    ensures sheet.Valid()
    ensures sheet.State() == ColumnWritten(start, rows, fills, col, timestamp, hs, i + 1)
  {
    ColumnCellsStep(start, col, timestamp, hs, i);
    sheet.Put(FirstHolderRow + i, col, display[i]);
  }

  /** The second loop: display line `i` into row `i + 4` of column `col`, for every holder. */
  method WriteLines(sheet: Sheet, ghost start: Cells, ghost rows: nat, col: nat, timestamp: string,
                    hs: seq<Holder>, display: seq<string>)
    requires sheet.Valid() && 1 <= col
    requires DisplaysOf(display, hs, |hs|)
    requires sheet.State() == ColumnWritten(start, rows, sheet.fills, col, timestamp, hs, 0)
    modifies sheet
    ensures sheet.Valid()
    ensures sheet.State() == ColumnWritten(start, rows, old(sheet.fills), col, timestamp, hs, |hs|)
  {
    for i := 0 to |hs|
      invariant sheet.Valid()
      invariant sheet.State() == ColumnWritten(start, rows, old(sheet.fills), col, timestamp, hs, i)
    {
      WriteLine(sheet, start, rows, old(sheet.fills), col, timestamp, hs, display, i);
    }
  }

  /**
   * The new snapshot column `maxCol + 1` of the token sheet: the timestamp in row 3, then
   * display line `i` in row `i + 4`. Returns the current percentages.
   */
  method WriteColumn(sheet: Sheet, timestamp: string, hs: seq<Holder>) returns (pcts: map<string, real>)
    requires sheet.Valid()
    modifies sheet
    ensures sheet.Valid()
    ensures sheet.cells == ColumnCells(old(sheet.cells), old(sheet.maxCol) + 1, timestamp, hs, |hs|)
    ensures sheet.fills == old(sheet.fills)
    ensures sheet.maxCol == old(sheet.maxCol) + 1 && sheet.maxRow == Max(old(sheet.maxRow), |hs| + TimestampRow)
    ensures pcts == Percentages(hs)
  {
    var col := sheet.maxCol + 1;
    sheet.Put(TimestampRow, col, timestamp);
    assert sheet.State() == ColumnWritten(old(sheet.cells), old(sheet.maxRow), sheet.fills, col, timestamp, hs, 0);
    var display;
    display, pcts := DisplayData(hs);
    WriteLines(sheet, old(sheet.cells), old(sheet.maxRow), col, timestamp, hs, display);
  }

  /** Highlight the cell of holder `i` in column `col` if its address is listed in `added`. */
  method HighlightOne(sheet: Sheet, ghost before: set<(int, int)>, col: int, hs: seq<Holder>, added: seq<string>, i: nat)
    requires sheet.Valid() && 1 <= col <= sheet.maxCol && i < |hs| && |hs| + TimestampRow <= sheet.maxRow
    requires sheet.fills == before + Highlighted(hs, added, col, i)
    modifies sheet
    ensures sheet.Valid()
    ensures sheet.fills == before + Highlighted(hs, added, col, i + 1)
    ensures sheet.cells == old(sheet.cells) && sheet.maxRow == old(sheet.maxRow) && sheet.maxCol == old(sheet.maxCol)
  {
    HighlightedStep(hs, added, col, i);
    if hs[i].address in added {
      sheet.Fill(FirstHolderRow + i, col);
    }
  }

  /** The highlight loop: fill the cell of every current holder whose address was added. */
  method HighlightAdded(sheet: Sheet, col: int, hs: seq<Holder>, added: seq<string>)
    requires sheet.Valid() && 1 <= col <= sheet.maxCol && |hs| + TimestampRow <= sheet.maxRow
    modifies sheet
    ensures sheet.Valid()
    ensures sheet.fills == old(sheet.fills) + Highlighted(hs, added, col, |hs|)
    ensures sheet.cells == old(sheet.cells) && sheet.maxRow == old(sheet.maxRow) && sheet.maxCol == old(sheet.maxCol)
  {
    for i := 0 to |hs|
      invariant sheet.Valid()
      invariant sheet.fills == old(sheet.fills) + Highlighted(hs, added, col, i)
      invariant sheet.cells == old(sheet.cells) && sheet.maxRow == old(sheet.maxRow) && sheet.maxCol == old(sheet.maxCol)
    {
      HighlightOne(sheet, old(sheet.fills), col, hs, added, i);
    }
  }

  /**
   * The change sheet after appending one cycle's row below its last one: the timestamp,
   * the added display lines and the removed ones in columns 1 to 3.
   */
  function WithChangeRow(st: SheetState, timestamp: string, addedText: string, removedText: string): (updated: SheetState) {
    var row := st.maxRow + 1;
    SheetState(st.cells[(row, 1) := timestamp][(row, 2) := addedText][(row, 3) := removedText],
               row, Max(st.maxCol, 3), st.fills)
  }

  /** Append the row of one cycle's wallet changes below the last row of the change sheet. */
  method AppendChangeRow(changes: Sheet, timestamp: string, addedText: string, removedText: string)
    requires changes.Valid()
    modifies changes
    ensures changes.Valid()
    ensures changes.State() == WithChangeRow(old(changes.State()), timestamp, addedText, removedText)
  {
    var row := changes.maxRow + 1;
    changes.Put(row, 1, timestamp);
    changes.Put(row, 2, addedText);
    changes.Put(row, 3, removedText);
  }

  /**
   * The change row is written exactly when the snapshots' address sets differ: lists that
   * enumerate the added and removed sets are both empty exactly when the sets are equal.
   */
  lemma ChangeRowCondition(current: seq<Holder>, previous: seq<Holder>, added: seq<string>, removed: seq<string>)
    requires Enumerates(added, Added(current, previous)) && Enumerates(removed, Removed(current, previous))
    ensures |added| > 0 || |removed| > 0 <==> Percentages(current).Keys != Percentages(previous).Keys
  {
    DiffDisjoint(current, previous);
    if |added| > 0 {
      assert added[0] in Added(current, previous);
    }
    if |removed| > 0 {
      assert removed[0] in Removed(current, previous);
    }
  }

  /** `if previous_holders:` the diff is taken only against a previous snapshot that has holders. */
  predicate Diffed(previous: Option<seq<Holder>>) {
    previous.Some? && |previous.value| > 0
  }

  /** The added and removed lists, listing the two sets of the diff. */
  method DiffLists(pcts: map<string, real>, prevPcts: map<string, real>) returns (added: seq<string>, removed: seq<string>)
    ensures Enumerates(added, pcts.Keys - prevPcts.Keys) && Enumerates(removed, prevPcts.Keys - pcts.Keys)
  {
    added := Enumerate(pcts.Keys - prevPcts.Keys);
    removed := Enumerate(prevPcts.Keys - pcts.Keys);
  }

  /**
   * The diff against a previous snapshot with holders, once the new column `col` is
   * written: list the added and removed wallets, highlight the added ones, and append the
   * change row when either list is non-empty.
   */
  method RecordDiff(token: Sheet, changes: Sheet, col: int, current: seq<Holder>, previous: seq<Holder>,
                    pcts: map<string, real>, timestamp: string)
    returns (added: seq<string>, removed: seq<string>)
    requires token != changes && token.Valid() && changes.Valid()
    requires 1 <= col <= token.maxCol && |current| + TimestampRow <= token.maxRow && pcts == Percentages(current)
    modifies token, changes
    ensures token.Valid() && changes.Valid()
    ensures token.cells == old(token.cells) && token.maxRow == old(token.maxRow) && token.maxCol == old(token.maxCol)
    ensures Enumerates(added, Added(current, previous)) && Enumerates(removed, Removed(current, previous))
    ensures token.fills == old(token.fills) + Highlighted(current, added, col, |current|)
    ensures changes.State() ==
            if |added| > 0 || |removed| > 0 then
              WithChangeRow(old(changes.State()), timestamp, ChangeLines(added, Percentages(current)),
                            ChangeLines(removed, Percentages(previous)))
            else old(changes.State())
  {
    var prevPcts := Percentages(previous);
    added, removed := DiffLists(pcts, prevPcts);
    HighlightAdded(token, col, current, added);
    if |added| > 0 || |removed| > 0 {
      AppendChangeRow(changes, timestamp, ChangeLines(added, pcts), ChangeLines(removed, prevPcts));
    }
  }

  /**
   * `write_holders_to_excel`: the current snapshot goes into the new last column of the
   * token sheet. Against a previous snapshot with holders, the added and removed wallets
   * are listed, the cells of added wallets highlighted, and, when the address sets differ,
   * a row appended to the change sheet with the timestamp, the added wallets with their
   * current percentages and the removed ones with their previous percentages.
   */
  method WriteHolders(token: Sheet, changes: Sheet, current: seq<Holder>, previous: Option<seq<Holder>>, timestamp: string)
    returns (added: seq<string>, removed: seq<string>)
    requires token != changes && token.Valid() && changes.Valid()
    modifies token, changes
    ensures token.Valid() && changes.Valid()
    ensures token.cells == ColumnCells(old(token.cells), old(token.maxCol) + 1, timestamp, current, |current|)
    ensures token.maxCol == old(token.maxCol) + 1 && token.maxRow == Max(old(token.maxRow), |current| + TimestampRow)
    ensures !Diffed(previous) ==> added == [] && removed == [] && token.fills == old(token.fills)
    ensures Diffed(previous) ==>
              Enumerates(added, Added(current, previous.value)) && Enumerates(removed, Removed(current, previous.value)) &&
              token.fills == old(token.fills) + Highlighted(current, added, old(token.maxCol) + 1, |current|)
    ensures changes.State() ==
            if Diffed(previous) && (|added| > 0 || |removed| > 0) then
              WithChangeRow(old(changes.State()), timestamp, ChangeLines(added, Percentages(current)),
                            ChangeLines(removed, Percentages(previous.value)))
            else old(changes.State())
  {
    var col := token.maxCol + 1;
    var pcts := WriteColumn(token, timestamp, current);
    added, removed := [], [];
    if previous.Some? && |previous.value| > 0 {
      added, removed := RecordDiff(token, changes, col, current, previous.value, pcts, timestamp);
    }
  }
}
