/**
 * The identifier assigner (generate_uniqueId.py): it finds or appends the
 * `unique_id` header, draws one fresh identifier per data row from the UUID
 * source and writes them all with a single batch request addressed by an A1
 * range.
 *
 * The UUID source is an oracle: `uuid(k)` is the value of the k-th call to
 * `create_unique_id` in a run.
 */
module IdAssigner {
  import opened Options
  import opened Text
  import opened Sheets

  /**
   * The 1-based column of the identifiers: the first `unique_id` header if
   * there is one, otherwise the column just past the last header.
   */
  function IdColumn(headers: seq<string>): (col: nat)
    ensures col >= 1
    ensures UniqueIdHeader in headers ==>
      col <= |headers| && headers[col - 1] == UniqueIdHeader && UniqueIdHeader !in headers[..col - 1]
    ensures UniqueIdHeader !in headers ==> col == |headers| + 1
  {
    if UniqueIdHeader in headers then IndexOf(headers, UniqueIdHeader) + 1 else |headers| + 1
  }

  /**
   * `chr(64 + col)`, the character the source uses as the column letter;
   * `None` where that code point is not a character (Python's `chr` fails
   * beyond U+10FFFF, and the surrogate block has no character value).
   */
  function ColumnLetter(col: nat): Option<char>
  {
    var code := 64 + col;
    if code < 0xD800 || 0xE000 <= code < 0x11_0000 then Some(code as char) else None
  }

  /** `f"{L}2:{L}{num_rows}"` with `L = chr(64 + col)`. */
  function A1Range(col: nat, numRows: nat): Option<string>
  {
    match ColumnLetter(col)
    case None => None
    case Some(letter) => Some([letter] + Decimal(2) + ":" + [letter] + Decimal(numRows))
  }

  /**
   * The column a range spelled with `chr(64 + col)` addresses: the column of
   * that character when it is a column letter (of either case), none
   * otherwise.
   */
  function TargetColumn(col: nat): Option<nat>
  {
    match ColumnLetter(col)
    case None => None
    case Some(letter) => ColumnOf(letter)
  }

  /**
   * Columns 1..26 are spelled `A`..`Z` and address themselves; columns
   * 33..58 are spelled `a`..`z` and address column `col - 32`; every other
   * column is spelled with a character that is no column letter.
   */
  lemma TargetColumnIs(col: nat)
    ensures TargetColumn(col) ==
      if 1 <= col <= 26 then Some(col) else if 33 <= col <= 58 then Some(col - 32) else None
  {
    if col <= 58 {
      assert ColumnLetter(col) == Some((64 + col) as char);
    }
  }

  /** A range spelled with a column letter names exactly rows 2 to `numRows` of the column that letter addresses. */
  lemma A1RangeNamesColumn(col: nat, numRows: nat)
    requires TargetColumn(col).Some? && numRows >= 1
    ensures A1Range(col, numRows).Some?
    ensures ParseRange(A1Range(col, numRows).value) == Some(ColumnRange(TargetColumn(col).value, 2, numRows))
  {
    ParseColumnRange(ColumnLetter(col).value, 2, numRows);
  }

  /** A range spelled with a character that is no column letter is rejected by the store. */
  lemma A1RangeWithoutColumn(col: nat, numRows: nat)
    requires TargetColumn(col).None?
    ensures A1Range(col, numRows).Some? ==> ParseRange(A1Range(col, numRows).value) == None
  {
    if A1Range(col, numRows).Some? {
      assert A1Range(col, numRows).value[0] == ColumnLetter(col).value;
      RangeNeedsColumnLetter(A1Range(col, numRows).value);
    }
  }

  /** The identifiers of one run: the first `n` values of the UUID source, in call order. */
  function FreshIds(uuid: nat -> string, n: nat): (ids: seq<string>)
    ensures |ids| == n && forall k :: 0 <= k < n ==> ids[k] == uuid(k)
  {
    seq(n, k requires 0 <= k < n => uuid(k))
  }

  /** The `values` of the batch request: one single-cell row per identifier. */
  function IdBatch(ids: seq<string>): (rows: seq<seq<string>>)
    ensures |rows| == |ids| && forall k :: 0 <= k < |ids| ==> rows[k] == [ids[k]]
  {
    seq(|ids|, k requires 0 <= k < |ids| => [ids[k]])
  }

  /**
   * For a column spelled with a column letter the batch write is accepted,
   * and it puts identifier k into the data row k + 1 (0-based) of the
   * addressed column, for every data row, whatever the cell held before; no
   * other cell changes.
   */
  lemma {:induction false} BatchOverwritesEveryDataRow(t: Table, col: nat, ids: seq<string>)
    requires TargetColumn(col).Some? && |t| >= 1 && |ids| == |t| - 1
    ensures A1Range(col, |t|).Some? && ApplyBatch(t, A1Range(col, |t|).value, IdBatch(ids)).Some?
    ensures var r := ApplyBatch(t, A1Range(col, |t|).value, IdBatch(ids)).value;
      var target := TargetColumn(col).value;
      && |r| == |t| && r[0] == t[0]
      && forall i: nat, j: nat :: Cell(r, i, j) == if j == target - 1 && 1 <= i < |t| then ids[i - 1] else Cell(t, i, j)
  {
    A1RangeNamesColumn(col, |t|);
    var target := TargetColumn(col).value;
    var values := IdBatch(ids);
    var r := WriteRows(t, target, Min(2, |t|), values);
    if |t| == 1 {
      assert values == [];
    } else {
      forall i: nat, j: nat
        ensures Cell(r, i, j) == if j == target - 1 && 1 <= i < |t| then ids[i - 1] else Cell(t, i, j)
      {
        CellAfterWriteRows(t, target, 2, values, i, j);
      }
      WriteRowsKeepsHeader(t, target, 2, values);
      WriteRowsLength(t, target, 2, values);
    }
  }

  /** A column write that stays inside the table does not add rows. */
  lemma {:induction false} WriteRowsLength(t: Table, col: nat, row: nat, values: seq<seq<string>>)
    requires col >= 1 && row >= 1 && row - 1 + |values| <= |t|
    requires forall k :: 0 <= k < |values| ==> |values[k]| <= 1
    ensures |WriteRows(t, col, row, values)| == |t|
    decreases |values|
  {
    if values != [] {
      var next := if values[0] == [] then t else SetCell(t, row, col, values[0][0]);
      WriteRowsLength(next, col, row + 1, values[1..]);
    }
  }

  /** The table once the `unique_id` header is in place: written just past the last header when missing. */
  function WithIdHeader(t: Table): Table
    requires t != []
  {
    if UniqueIdHeader in t[0] then t else SetCell(t, 1, |t[0]| + 1, UniqueIdHeader)
  }

  /** The header step adds the `unique_id` header at most once and touches no other cell. */
  lemma IdHeaderStep(t: Table)
    requires t != []
    ensures var t1 := WithIdHeader(t);
      && |t1| == |t|
      && t1[0] == (if UniqueIdHeader in t[0] then t[0] else t[0] + [UniqueIdHeader])
      && forall i: nat, j: nat :: Cell(t1, i, j) ==
           if j == IdColumn(t[0]) - 1 && i == 0 then UniqueIdHeader else Cell(t, i, j)
  {
    if UniqueIdHeader !in t[0] {
      AppendHeader(t, UniqueIdHeader);
    }
  }

  /**
   * The table a run leaves behind when its writes go through, given the
   * identifiers it drew: the batch lands in the column the range addresses.
   */
  function AssignedTable(t: Table, ids: seq<string>): Table
    requires t != [] && |ids| == |t| - 1
  {
    match TargetColumn(IdColumn(t[0]))
    case Some(target) => WriteRows(WithIdHeader(t), target, 2, IdBatch(ids))
    case None => WithIdHeader(t)
  }

  /** The write requests of a run on a non-empty table, in the order they are sent. */
  function AssignWrites(t: Table, ids: seq<string>): seq<Write>
    requires t != []
  {
    var col := IdColumn(t[0]);
    IdHeaderWrites(t[0])
    + (if A1Range(col, |t|).Some? then [RangeWrite(A1Range(col, |t|).value, IdBatch(ids))] else [])
  }

  /** The header write of a run: one, to row 1 just past the headers, when `unique_id` is missing. */
  function IdHeaderWrites(headers: seq<string>): seq<Write>
  {
    if UniqueIdHeader in headers then [] else [CellWrite(1, |headers| + 1, UniqueIdHeader)]
  }

  /**
   * When the identifier column is spelled with a column letter, the store
   * takes the batch of one run and what it writes is the run's table; a
   * range spelled with any other character is rejected.
   */
  lemma {:induction false} BatchAccepted(t: Table, ids: seq<string>)
    requires t != [] && |ids| == |t| - 1
    ensures var col := IdColumn(t[0]);
      TargetColumn(col).Some? ==>
        && A1Range(col, |t|).Some?
        && ApplyBatch(WithIdHeader(t), A1Range(col, |t|).value, IdBatch(ids)) == Some(AssignedTable(t, ids))
    ensures var col := IdColumn(t[0]);
      TargetColumn(col).None? && A1Range(col, |t|).Some? ==>
        ApplyBatch(WithIdHeader(t), A1Range(col, |t|).value, IdBatch(ids)).None?
  {
    var col := IdColumn(t[0]);
    IdHeaderStep(t);
    if TargetColumn(col).Some? {
      var target := TargetColumn(col).value;
      A1RangeNamesColumn(col, |t|);
      var range := A1Range(col, |t|).value;
      assert ParseRange(range) == Some(ColumnRange(target, 2, |t|));
      if |t| == 1 {
        assert IdBatch(ids) == [];
      } else {
        assert Min(2, |t|) == 2;
      }
    } else {
      A1RangeWithoutColumn(col, |t|);
    }
  }

  /**
   * The effect of one run on a non-empty table: the header cell of the
   * identifier column holds `unique_id`, and when the column is spelled with
   * a column letter every data row's cell in the addressed column holds its
   * new identifier, whatever it held before; otherwise only the header step
   * remains. Nothing else changes.
   */
  lemma {:induction false} AssignEffect(t: Table, ids: seq<string>)
    requires t != [] && |ids| == |t| - 1
    ensures var r := AssignedTable(t, ids);
      var target := TargetColumn(IdColumn(t[0]));
      && |r| == |t|
      && r[0] == (if UniqueIdHeader in t[0] then t[0] else t[0] + [UniqueIdHeader])
      && forall i: nat, j: nat :: Cell(r, i, j) ==
           if j == IdColumn(t[0]) - 1 && i == 0 then UniqueIdHeader
           else if target == Some(j + 1) && 1 <= i < |t| then ids[i - 1]
           else Cell(t, i, j)
  {
    IdHeaderStep(t);
    if TargetColumn(IdColumn(t[0])).Some? {
      BatchEffect(t, ids);
    }
  }

  /** `AssignEffect` when the batch lands: the header step's cell and the batch's cells, cell by cell. */
  lemma BatchEffect(t: Table, ids: seq<string>)
    requires t != [] && |ids| == |t| - 1 && TargetColumn(IdColumn(t[0])).Some?
    ensures var r := AssignedTable(t, ids);
      var target := TargetColumn(IdColumn(t[0]));
      && |r| == |t|
      && r[0] == WithIdHeader(t)[0]
      && forall i: nat, j: nat :: Cell(r, i, j) ==
           if j == IdColumn(t[0]) - 1 && i == 0 then UniqueIdHeader
           else if target == Some(j + 1) && 1 <= i < |t| then ids[i - 1]
           else Cell(t, i, j)
  {
    var t1 := WithIdHeader(t);
    IdHeaderStep(t);
    BatchAccepted(t, ids);
    BatchOverwritesEveryDataRow(t1, IdColumn(t[0]), ids);
    var r := AssignedTable(t, ids);
    var target := TargetColumn(IdColumn(t[0]));
    assert |t1| == |t|;
    forall i: nat, j: nat
      ensures Cell(r, i, j) ==
        if j == IdColumn(t[0]) - 1 && i == 0 then UniqueIdHeader
        else if target == Some(j + 1) && 1 <= i < |t| then ids[i - 1]
        else Cell(t, i, j)
    {
      assert Cell(r, i, j) == if j == target.value - 1 && 1 <= i < |t| then ids[i - 1] else Cell(t1, i, j);
    }
  }

  /**
   * An identifier column from 33 to 58 is spelled with a lower-case letter,
   * which addresses column `col - 32`, one of the existing columns: every
   * data row's cell there is replaced by its new identifier, while the
   * identifier column itself only gains its header.
   */
  lemma LowerCaseLetterOverwrites(t: Table, ids: seq<string>, i: nat)
    requires t != [] && |ids| == |t| - 1 && 1 <= i < |t|
    requires 33 <= IdColumn(t[0]) <= 58
    ensures var col := IdColumn(t[0]);
      && col - 32 <= |t[0]|
      && Cell(AssignedTable(t, ids), i, col - 33) == ids[i - 1]
      && Cell(AssignedTable(t, ids), i, col - 1) == Cell(t, i, col - 1)
  {
    TargetColumnIs(IdColumn(t[0]));
    AssignEffect(t, ids);
  }

  datatype AssignOutcome =
    | SheetEmpty          // "Sheet is empty!": nothing is written
    | Failed              // a write request or the column letter raised; earlier writes stay
    | Assigned(count: nat)

  /**
   * `add_unique_ids_to_sheet`. On an empty sheet nothing happens. A failed
   * header write ends the run before any identifier is drawn. Otherwise the
   * identifiers are the next `|t| - 1` values of the UUID source and one
   * batch request follows when the column has a character; the table
   * becomes `AssignedTable` (see `AssignEffect` for what that means cell by
   * cell) exactly when the column is spelled with a column letter and the
   * request succeeds, which is exactly when the run reports success.
   */
  method AddUniqueIdsToSheet(sheet: Sheet, uuid: nat -> string) returns (outcome: AssignOutcome, ids: seq<string>)
    modifies sheet
    ensures old(sheet.cells) == [] ==>
      outcome == SheetEmpty && ids == [] && sheet.cells == old(sheet.cells) && sheet.log == old(sheet.log)
    ensures old(sheet.cells) != [] && !Accepted(sheet.accept, |old(sheet.log)|, |IdHeaderWrites(old(sheet.cells)[0])|) ==>
      && outcome == Failed && ids == [] && sheet.cells == old(sheet.cells)
      && sheet.log == old(sheet.log) + IdHeaderWrites(old(sheet.cells)[0])
    ensures old(sheet.cells) != [] && Accepted(sheet.accept, |old(sheet.log)|, |IdHeaderWrites(old(sheet.cells)[0])|) ==>
      var t := old(sheet.cells);
      var batchOk := TargetColumn(IdColumn(t[0])).Some? && sheet.accept(|old(sheet.log)| + |IdHeaderWrites(t[0])|);
      && ids == FreshIds(uuid, |t| - 1)
      && sheet.cells == (if batchOk then AssignedTable(t, ids) else WithIdHeader(t))
      && sheet.log == old(sheet.log) + AssignWrites(t, ids)
      && outcome == if batchOk then Assigned(|ids|) else Failed
  {
    var allValues := sheet.cells;
    if allValues == [] {
      return SheetEmpty, [];
    }
    var headers := allValues[0];
    var colIndex, headerOk := EnsureIdHeader(sheet);
    if !headerOk {
      return Failed, [];
    }
    var numRows := |allValues|;
    var updates;
    ids, updates := DrawIds(uuid, numRows);
    outcome := WriteIdBatch(sheet, allValues, colIndex, ids, updates);
    if A1Range(colIndex, numRows).Some? {
      LogAppend(old(sheet.log), IdHeaderWrites(headers), RangeWrite(A1Range(colIndex, numRows).value, updates));
    }
  }

  /**
   * The batch step of `add_unique_ids_to_sheet` on the snapshot `t`, once
   * the header is in place: the range `chr(64 + col)` rows 2 to `|t|` is
   * requested when that character exists, and the run succeeds exactly when
   * the character is a column letter and the request goes through.
   */
  method WriteIdBatch(sheet: Sheet, t: Table, colIndex: nat, ids: seq<string>, updates: seq<seq<string>>)
    returns (outcome: AssignOutcome)
    requires t != [] && colIndex == IdColumn(t[0]) && |ids| == |t| - 1 && updates == IdBatch(ids)
    requires sheet.cells == WithIdHeader(t)
    modifies sheet
    ensures var batchOk := TargetColumn(colIndex).Some? && sheet.accept(|old(sheet.log)|);
      && sheet.cells == (if batchOk then AssignedTable(t, ids) else WithIdHeader(t))
      && outcome == if batchOk then Assigned(|ids|) else Failed
    ensures sheet.log == old(sheet.log)
      + if A1Range(colIndex, |t|).Some? then [RangeWrite(A1Range(colIndex, |t|).value, updates)] else []
  {
    BatchAccepted(t, ids);
    var letter := ColumnLetter(colIndex);
    if letter.None? {
      return Failed;
    }
    var cellRange := [letter.value] + Decimal(2) + ":" + [letter.value] + Decimal(|t|);
    assert cellRange == A1Range(colIndex, |t|).value;
    var ok := sheet.BatchUpdate(cellRange, updates);
    outcome := if ok then Assigned(|ids|) else Failed;
  }

  /**
   * The header step of `add_unique_ids_to_sheet`: the 1-based identifier
   * column, after requesting the `unique_id` header just past the last one
   * when it is missing; `ok` is false when that request failed.
   */
  method EnsureIdHeader(sheet: Sheet) returns (colIndex: nat, ok: bool)
    requires sheet.cells != []
    modifies sheet
    ensures colIndex == IdColumn(old(sheet.cells)[0])
    ensures ok == Accepted(sheet.accept, |old(sheet.log)|, |IdHeaderWrites(old(sheet.cells)[0])|)
    ensures sheet.cells == if ok then WithIdHeader(old(sheet.cells)) else old(sheet.cells)
    ensures sheet.log == old(sheet.log) + IdHeaderWrites(old(sheet.cells)[0])
  {
    var headers := sheet.cells[0];
    if UniqueIdHeader in headers {
      colIndex := IndexOf(headers, UniqueIdHeader) + 1;
      ok := true;
    } else {
      colIndex := |headers| + 1;
      ok := sheet.UpdateCell(1, colIndex, UniqueIdHeader);
    }
  }

  /**
   * The row loop of `add_unique_ids_to_sheet` over rows 2 .. numRows: one
   * fresh identifier per data row, in call order, and the batch values
   * holding each in a row of its own.
   */
  method DrawIds(uuid: nat -> string, numRows: nat) returns (ids: seq<string>, updates: seq<seq<string>>)
    requires numRows >= 1
    ensures |ids| == numRows - 1 && forall k :: 0 <= k < |ids| ==> ids[k] == uuid(k)
    ensures |updates| == |ids| && forall k :: 0 <= k < |ids| ==> updates[k] == [ids[k]]
    ensures ids == FreshIds(uuid, numRows - 1)
    ensures updates == IdBatch(ids)
  {
    updates := [];
    ids := [];
    for rowIdx := 2 to numRows + 1
      invariant ids == FreshIds(uuid, rowIdx - 2)
      invariant updates == IdBatch(ids)
    {
      var uniqueId := uuid(|ids|);
      ids := ids + [uniqueId];
      updates := updates + [[uniqueId]];
    }
  }
}
