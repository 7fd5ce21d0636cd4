/** Worksheet cells as the conversion produces them: a value, the format it is
    written with, and the grid position of each write. The spreadsheet library
    itself is not modelled; a sheet is the ordered list of its writes. */
module Sheet {
  import opened Wrappers


  /** A cell value; `Null` is Python's None. `Timestamp` stands for the ISO
      date the source renders from a Unix time. */
  datatype Value = Null | Text(s: string) | Int(i: int) | Real(r: real) | Timestamp(t: int)

  /** The cell styles: no format, the red error style, the yellow warning
      style, and the integer and percent number formats. */
  datatype Format = Unformatted | ErrorFormat | WarningFormat | IntegerFormat | PercentFormat

  /** The arguments of one `write_column` call. */
  datatype Column = Column(value: Value, format: Format, canError: bool)

  /** One `worksheet.write(row, col, value, format)` call. */
  datatype Write = Write(row: nat, col: nat, value: Value, format: Format)

  /** A column with no explicit format and the default `canError`. */
  function Plain(v: Value): Column {
    Column(v, Unformatted, true)
  }

  /** The format `write_column` applies: an explicit format wins; without one a
      None value is flagged with the error style when `canError` holds. */
  function CellFormat(c: Column): (f: Format)
    ensures c.format != Unformatted ==> f == c.format
    ensures c.format == Unformatted ==>
      (f == ErrorFormat <==> c.canError && c.value == Null) &&
      (f != ErrorFormat ==> f == Unformatted)
  {
    if c.canError && c.format == Unformatted && c.value == Null then ErrorFormat else c.format
  }

  /** The writes of one row laid out from column `col` on. */
  function RowWrites(row: nat, col: nat, cols: seq<Column>): (ws: seq<Write>)
    ensures |ws| == |cols|
    ensures forall j :: 0 <= j < |cols| ==>
      ws[j] == Write(row, col + j, cols[j].value, CellFormat(cols[j]))
  {
    seq(|cols|, j requires 0 <= j < |cols| => Write(row, col + j, cols[j].value, CellFormat(cols[j])))
  }

  /** The writes of consecutive rows starting at `row`, each from column 0. */
  function SheetWrites(row: nat, rows: seq<seq<Column>>): seq<Write>
    decreases |rows|
  {
    if rows == [] then []
    else SheetWrites(row, rows[..|rows| - 1]) + RowWrites(row + |rows| - 1, 0, rows[|rows| - 1])
  }

  /** Writing two row blocks one after the other. */
  lemma {:induction false} SheetWritesAppend(row: nat, a: seq<seq<Column>>, b: seq<seq<Column>>)
    ensures SheetWrites(row, a + b) == SheetWrites(row, a) + SheetWrites(row + |a|, b)
    decreases |b|
  {
    if b == [] {
      assert a + b == a;
    } else {
      var init := b[..|b| - 1];
      var last := RowWrites(row + |a| + |b| - 1, 0, b[|b| - 1]);
      assert (a + b)[..|a + b| - 1] == a + init;
      assert (a + b)[|a + b| - 1] == b[|b| - 1];
      assert SheetWrites(row, a + b) == SheetWrites(row, a + init) + last;
      SheetWritesAppend(row, a, init);
      assert SheetWrites(row + |a|, b) == SheetWrites(row + |a|, init) + last;
    }
  }

  /** In a sheet whose rows all have `width` columns, the write at offset
      `width * i + j` puts column `j` of row `i` at grid cell (row + i, j). */
  lemma {:induction false} SheetWritesAt(row: nat, rows: seq<seq<Column>>, width: nat, i: nat, j: nat)
    requires forall k :: 0 <= k < |rows| ==> |rows[k]| == width
    requires i < |rows| && j < width
    ensures |SheetWrites(row, rows)| == width * |rows|
    ensures width * i + j < width * |rows|
    ensures SheetWrites(row, rows)[width * i + j] ==
      Write(row + i, j, rows[i][j].value, CellFormat(rows[i][j]))
    decreases |rows|
  {
    var init := rows[..|rows| - 1];
    var n := |rows| - 1;
    SheetWritesLength(row, init, width);
    assert width * |rows| == width * n + width;
    if i < n {
      SheetWritesAt(row, init, width, i, j);
      assert width * i + j < width * n;
    } else {
      assert width * i == width * n;
    }
  }

  lemma {:induction false} SheetWritesLength(row: nat, rows: seq<seq<Column>>, width: nat)
    requires forall k :: 0 <= k < |rows| ==> |rows[k]| == width
    ensures |SheetWrites(row, rows)| == width * |rows|
    decreases |rows|
  {
    if rows != [] {
      SheetWritesLength(row, rows[..|rows| - 1], width);
      assert width * |rows| == width * (|rows| - 1) + width;
    }
  }

  /** The rows produced by `rowOf` for each entry in order, or the fault of the
      first entry whose row fails (the later entries are never reached). */
  function CollectRows<E, F>(rowOf: E -> Result<seq<Column>, F>, entries: seq<E>): Result<seq<seq<Column>>, F>
    decreases |entries|
  {
    if entries == [] then Success([])
    else
      match CollectRows(rowOf, entries[..|entries| - 1])
      case Failure(err) => Failure(err)
      case Success(rows) =>
        match rowOf(entries[|entries| - 1])
        case Failure(err) => Failure(err)
        case Success(cols) => Success(rows + [cols])
  }

  /** Rows are produced exactly when every entry's row succeeds, one per
      entry and in order. */
  lemma {:induction false} CollectRowsSpec<E, F>(rowOf: E -> Result<seq<Column>, F>, entries: seq<E>)
    ensures CollectRows(rowOf, entries).Success? <==> forall k :: 0 <= k < |entries| ==> rowOf(entries[k]).Success?
    ensures CollectRows(rowOf, entries).Success? ==> |CollectRows(rowOf, entries).value| == |entries|
    ensures CollectRows(rowOf, entries).Success? ==> forall k :: 0 <= k < |entries| ==>
      rowOf(entries[k]) == Success(CollectRows(rowOf, entries).value[k])
    decreases |entries|
  {
    if entries != [] {
      var init := entries[..|entries| - 1];
      assert forall k :: 0 <= k < |init| ==> init[k] == entries[k];
      CollectRowsSpec(rowOf, init);
    }
  }

  /** Extending the entries by one whose row succeeds appends that row. */
  lemma CollectRowsSnoc<E, F>(rowOf: E -> Result<seq<Column>, F>, entries: seq<E>, k: nat,
                              done: seq<seq<Column>>, cols: seq<Column>)
    requires k < |entries|
    requires CollectRows(rowOf, entries[..k]) == Success(done)
    requires rowOf(entries[k]) == Success(cols)
    ensures CollectRows(rowOf, entries[..k + 1]) == Success(done + [cols])
  {
    var next := entries[..k + 1];
    assert next[..|next| - 1] == entries[..k] && next[|next| - 1] == entries[k];
  }

  /** The first entry whose row fails decides the outcome with its fault. */
  lemma CollectRowsFirstFailure<E, F>(rowOf: E -> Result<seq<Column>, F>, entries: seq<E>, k: nat,
                                      done: seq<seq<Column>>)
    requires k < |entries|
    requires CollectRows(rowOf, entries[..k]) == Success(done)
    requires rowOf(entries[k]).Failure?
    ensures CollectRows(rowOf, entries) == Failure(rowOf(entries[k]).error)
  {
    var next := entries[..k + 1];
    assert next[..|next| - 1] == entries[..k] && next[|next| - 1] == entries[k];
    CollectRowsPrefixFailure(rowOf, entries, k + 1);
  }

  /** Appending one row to a page appends that row's writes. */
  lemma SheetWritesSnoc(row: nat, rows: seq<seq<Column>>, cols: seq<Column>)
    ensures SheetWrites(row, rows + [cols]) == SheetWrites(row, rows) + RowWrites(row + |rows|, 0, cols)
  {
    var next := rows + [cols];
    assert next[..|next| - 1] == rows && next[|next| - 1] == cols;
  }

  /** A failing prefix decides the outcome. */
  lemma {:induction false} CollectRowsPrefixFailure<E, F>(rowOf: E -> Result<seq<Column>, F>, entries: seq<E>, j: nat)
    requires j <= |entries|
    requires CollectRows(rowOf, entries[..j]).Failure?
    ensures CollectRows(rowOf, entries) == CollectRows(rowOf, entries[..j])
    decreases |entries|
  {
    if j < |entries| {
      var init := entries[..|entries| - 1];
      assert init[..j] == entries[..j];
      CollectRowsPrefixFailure(rowOf, init, j);
    } else {
      assert entries[..j] == entries;
    }
  }

  /** A failure is the fault of the first entry whose row fails: every
      entry before it succeeds. */
  lemma {:induction false} CollectRowsFault<E, F>(rowOf: E -> Result<seq<Column>, F>, entries: seq<E>)
    ensures CollectRows(rowOf, entries).Failure? ==> exists k ::
      && 0 <= k < |entries|
      && (forall j :: 0 <= j < k ==> rowOf(entries[j]).Success?)
      && rowOf(entries[k]) == Failure(CollectRows(rowOf, entries).error)
    decreases |entries|
  {
    if entries != [] && CollectRows(rowOf, entries).Failure? {
      var init := entries[..|entries| - 1];
      assert forall j :: 0 <= j < |init| ==> init[j] == entries[j];
      if CollectRows(rowOf, init).Failure? {
        CollectRowsFault(rowOf, init);
        var k :| 0 <= k < |init| && (forall j :: 0 <= j < k ==> rowOf(init[j]).Success?) &&
          rowOf(init[k]) == Failure(CollectRows(rowOf, init).error);
        assert rowOf(entries[k]) == Failure(CollectRows(rowOf, entries).error);
      } else {
        CollectRowsSpec(rowOf, init);
        var k := |entries| - 1;
        assert forall j :: 0 <= j < k ==> rowOf(entries[j]).Success?;
        assert rowOf(entries[k]) == Failure(CollectRows(rowOf, entries).error);
      }
    }
  }
}
