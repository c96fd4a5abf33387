/**
 * The row store: one worksheet as the table of strings that
 * `worksheet.get_all_values()` returns (row 0 holds the headers), the two
 * writes the pipeline issues against it (`update_cell` and `batch_update`),
 * and the A1 ranges a batch write names.
 */
module Sheets {
  import opened Options
  import opened Text

  type Row = seq<string>
  type Table = seq<Row>

  /** The header of the identifier column, shared by all three stages. */
  const UniqueIdHeader := "unique_id"

  function Max(a: int, b: int): int { if a < b then b else a }

  function Min(a: int, b: int): int { if a < b then a else b }

  /**
   * The text of the cell in 0-based row `i`, column `j`; a cell past the end
   * of its row, or a row past the end of the table, reads as empty.
   */
  function Cell(t: Table, i: nat, j: nat): string
  {
    if i < |t| && j < |t[i]| then t[i][j] else ""
  }

  /** `list.index(x)`: the first position of `x` in `s`. */
  function IndexOf<T(==)>(s: seq<T>, x: T): (i: nat)
    requires x in s
    ensures i < |s| && s[i] == x
    ensures x !in s[..i]
  {
    if s[0] == x then 0 else 1 + IndexOf(s[1..], x)
  }

  /** Appending to a list does not move the first position of anything already in it. */
  lemma IndexOfAppend<T>(s: seq<T>, x: T, y: T)
    requires y in s + [x]
    ensures IndexOf(s + [x], y) == if y in s then IndexOf(s, y) else |s|
  {
    var i := IndexOf(s + [x], y);
    if y in s {
      var k := IndexOf(s, y);
      assert (s + [x])[k] == y;
    }
  }

  /**
   * The table after `update_cell(row, col, v)` with 1-based coordinates: the
   * table grows by empty rows and the row by empty cells as far as needed,
   * the one cell gets `v`, and nothing else changes.
   */
  function SetCell(t: Table, row: nat, col: nat, v: string): (r: Table)
    requires row >= 1 && col >= 1
    ensures |r| == Max(|t|, row)
    ensures forall i :: 0 <= i < |r| && i != row - 1 ==> r[i] == if i < |t| then t[i] else []
    ensures |r[row - 1]| == Max(if row - 1 < |t| then |t[row - 1]| else 0, col)
    ensures forall i: nat, j: nat :: Cell(r, i, j) == if i == row - 1 && j == col - 1 then v else Cell(t, i, j)
  {
    var grown := if |t| < row then t + seq(row - |t|, _ => []) else t;
    var line := grown[row - 1];
    var padded := if |line| < col then line + seq(col - |line|, _ => "") else line;
    grown[row - 1 := padded[col - 1 := v]]
  }

  /** Writing just past the end of the header row appends one header. */
  lemma AppendHeader(t: Table, v: string)
    requires t != []
    ensures SetCell(t, 1, |t[0]| + 1, v)[0] == t[0] + [v]
    ensures SetCell(t, 1, |t[0]| + 1, v)[1..] == t[1..]
  {
    var r := SetCell(t, 1, |t[0]| + 1, v);
    assert forall j :: 0 <= j < |r[0]| ==> Cell(r, 0, j) == r[0][j];
  }

  /** A reference to one cell of an A1 range: column letter and row number, both 1-based. */
  datatype CellRef = CellRef(col: nat, row: nat)

  /** A range inside one column, from row `first` to row `last` (1-based). */
  datatype ColumnRange = ColumnRange(col: nat, first: nat, last: nat)

  /**
   * The column an A1 column letter names: `A`..`Z` are columns 1 to 26, and
   * the letters are read without regard to case, so `a`..`z` name the same
   * columns; any other character names none.
   */
  function ColumnOf(c: char): (r: Option<nat>)
    ensures r.Some? <==> 'A' <= c <= 'Z' || 'a' <= c <= 'z'
    ensures r.Some? ==> 1 <= r.value <= 26
    ensures 'A' <= c <= 'Z' ==> r == Some(c as int - 'A' as int + 1)
    ensures 'a' <= c <= 'z' ==> r == Some(c as int - 'a' as int + 1)
  {
    if 'A' <= c <= 'Z' then Some(c as int - 'A' as int + 1)
    else if 'a' <= c <= 'z' then Some(c as int - 'a' as int + 1)
    else None
  }

  /** A lower-case letter names the same column as its upper-case partner. */
  lemma ColumnOfIgnoresCase(c: char)
    requires 'a' <= c <= 'z'
    ensures ColumnOf(c) == ColumnOf((c as int - 32) as char)
  {
  }

  /**
   * The upper-case letters name the columns 1 to 26 one each: two letters
   * naming the same column are the same letter, and column `k` is named by
   * the `k`-th letter.
   */
  lemma ColumnLettersOneToOne(c: char, d: char, k: nat)
    ensures 'A' <= c <= 'Z' && 'A' <= d <= 'Z' && ColumnOf(c) == ColumnOf(d) ==> c == d
    ensures 1 <= k <= 26 ==> 'A' <= (k + 64) as char <= 'Z' && ColumnOf((k + 64) as char) == Some(k)
  {
  }

  /** One cell reference such as `C12`: a column letter followed by a positive row number. */
  function ParseCellRef(s: string): (r: Option<CellRef>)
    ensures r.Some? ==> 1 <= r.value.col <= 26 && r.value.row >= 1
    ensures r.Some? ==> |s| >= 2 && ColumnOf(s[0]) == Some(r.value.col)
  {
    if |s| >= 2 && ColumnOf(s[0]).Some? && AllDigits(s[1..]) && DigitsValue(s[1..]) >= 1
    then Some(CellRef(ColumnOf(s[0]).value, DigitsValue(s[1..])))
    else None
  }

  /**
   * A single-column A1 range `L<a>:L<b>`. Only ranges of this shape are
   * accepted by the model of the store; anything else is rejected.
   */
  function ParseRange(s: string): (r: Option<ColumnRange>)
    ensures r.Some? ==> 1 <= r.value.col <= 26 && r.value.first >= 1 && r.value.last >= 1
  {
    if ':' !in s then None
    else
      var k := IndexOf(s, ':');
      match (ParseCellRef(s[..k]), ParseCellRef(s[k + 1..]))
      case (Some(a), Some(b)) =>
        if a.col == b.col then Some(ColumnRange(a.col, a.row, b.row)) else None
      case _ => None
  }

  /** A range written as the source writes one: letter, decimal row, colon, letter, decimal row. */
  lemma {:induction false} ParseColumnRange(letter: char, a: nat, b: nat)
    requires ColumnOf(letter).Some? && a >= 1 && b >= 1
    ensures ParseRange([letter] + Decimal(a) + ":" + [letter] + Decimal(b))
         == Some(ColumnRange(ColumnOf(letter).value, a, b))
  {
    var da, db := Decimal(a), Decimal(b);
    var s := [letter] + da + ":" + [letter] + db;
    var m := 1 + |da|;
    assert s[m] == ':';
    var k := IndexOf(s, ':');
    assert k == m;
    assert s[..k] == [letter] + da;
    assert s[k + 1..] == [letter] + db;
    assert ([letter] + da)[1..] == da;
    assert ([letter] + db)[1..] == db;
    DecimalRoundTrip(a);
    DecimalRoundTrip(b);
  }

  /** A range whose first character is not a column letter names no column. */
  lemma RangeNeedsColumnLetter(s: string)
    requires s != [] && ColumnOf(s[0]).None?
    ensures ParseRange(s) == None
  {
    if ':' in s {
      var k := IndexOf(s, ':');
      if k > 0 {
        assert s[..k][0] == s[0];
      }
    }
  }

  /**
   * The table after writing `values[k]` (a row of at most one cell) into
   * column `col`, row `row + k`; an empty value row writes nothing.
   */
  function WriteRows(t: Table, col: nat, row: nat, values: seq<seq<string>>): Table
    requires col >= 1 && row >= 1
    requires forall k :: 0 <= k < |values| ==> |values[k]| <= 1
    decreases |values|
  {
    if values == [] then t
    else
      var next := if values[0] == [] then t else SetCell(t, row, col, values[0][0]);
      WriteRows(next, col, row + 1, values[1..])
  }

  /** The cells a column write touches get their values; every other cell keeps its text. */
  lemma {:induction false} CellAfterWriteRows(t: Table, col: nat, row: nat, values: seq<seq<string>>, i: nat, j: nat)
    requires col >= 1 && row >= 1
    requires forall k :: 0 <= k < |values| ==> |values[k]| <= 1
    ensures Cell(WriteRows(t, col, row, values), i, j) ==
      if j == col - 1 && row - 1 <= i < row - 1 + |values| && values[i - (row - 1)] != []
      then values[i - (row - 1)][0]
      else Cell(t, i, j)
    decreases |values|
  {
    if values != [] {
      var next := if values[0] == [] then t else SetCell(t, row, col, values[0][0]);
      CellAfterWriteRows(next, col, row + 1, values[1..], i, j);
      if row <= i < row + |values[1..]| {
        assert values[1..][i - row] == values[i - (row - 1)];
      }
    }
  }

  /** A column write below the first row leaves the header row as it was. */
  lemma {:induction false} WriteRowsKeepsHeader(t: Table, col: nat, row: nat, values: seq<seq<string>>)
    requires col >= 1 && row >= 2 && t != []
    requires forall k :: 0 <= k < |values| ==> |values[k]| <= 1
    ensures WriteRows(t, col, row, values) != [] && WriteRows(t, col, row, values)[0] == t[0]
    decreases |values|
  {
    if values != [] {
      var next := if values[0] == [] then t else SetCell(t, row, col, values[0][0]);
      WriteRowsKeepsHeader(next, col, row + 1, values[1..]);
    }
  }

  /**
   * What a batch write does to the table: `None` when the store rejects it
   * (a range it cannot read, more value rows than the range has, or a value
   * row wider than one column), otherwise the written table. A range whose
   * rows run backwards covers the same rows as its forward form.
   */
  function ApplyBatch(t: Table, range: string, values: seq<seq<string>>): Option<Table>
  {
    match ParseRange(range)
    case None => None
    case Some(cr) =>
      var top := Min(cr.first, cr.last);
      if |values| <= Max(cr.first, cr.last) - top + 1 && forall k :: 0 <= k < |values| ==> |values[k]| <= 1
      then Some(WriteRows(t, cr.col, top, values))
      else None
  }

  /** One request sent to the store. */
  datatype Write =
    | CellWrite(row: nat, col: nat, value: string)
    | RangeWrite(range: string, values: seq<seq<string>>)

  /** Appending one request after a run of requests is appending it to that run. */
  lemma LogAppend(log: seq<Write>, run: seq<Write>, w: Write)
    ensures log + run + [w] == log + (run + [w])
  {
  }

  /** The store accepts each of the `count` requests numbered from `from` on. */
  predicate Accepted(accept: nat -> bool, from: nat, count: nat)
  {
    forall k :: from <= k < from + count ==> accept(k)
  }

  /**
   * A worksheet: its cells and the log of the write requests sent to it,
   * one entry per round trip, whether or not the store carried it out.
   * Whether a request succeeds is an oracle: `accept(k)` is false when the
   * k-th request of the session fails (an API or quota error, which the
   * client raises as an exception); a failed request changes no cell.
   */
  class Sheet {
    var cells: Table
    var log: seq<Write>
    const accept: nat -> bool

    constructor (t: Table, accept: nat -> bool)
      ensures cells == t && log == [] && this.accept == accept
    {
      cells := t;
      log := [];
      this.accept := accept;
    }

    /** `worksheet.update_cell(row, col, value)`; `ok` is false when the request raised. */
    method UpdateCell(row: nat, col: nat, value: string) returns (ok: bool)
      requires row >= 1 && col >= 1
      modifies this
      ensures ok == accept(|old(log)|)
      ensures cells == if ok then SetCell(old(cells), row, col, value) else old(cells)
      ensures log == old(log) + [CellWrite(row, col, value)]
    {
      ok := accept(|log|);
      if ok {
        cells := SetCell(cells, row, col, value);
      }
      log := log + [CellWrite(row, col, value)];
    }

    /**
     * `worksheet.batch_update([{"range": range, "values": values}])`; `ok`
     * is false when the request raised or the store rejects the range.
     */
    method BatchUpdate(range: string, values: seq<seq<string>>) returns (ok: bool)
      modifies this
      ensures ok == (accept(|old(log)|) && ApplyBatch(old(cells), range, values).Some?)
      ensures cells == if ok then ApplyBatch(old(cells), range, values).value else old(cells)
      ensures log == old(log) + [RangeWrite(range, values)]
    {
      var result := ApplyBatch(cells, range, values);
      ok := accept(|log|) && result.Some?;
      if ok {
        cells := result.value;
      }
      log := log + [RangeWrite(range, values)];
    }
  }
}
