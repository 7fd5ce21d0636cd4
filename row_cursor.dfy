/** The two-counter position `pos = [row, col]` that `write_column` and
    `finish_row` share, and the match-detail page written through it. */
module RowCursor {
  import opened Wrappers
  import opened Records
  import opened Sheet
  import opened MatchDetail

  class Cursor {
    var row: nat
    var col: nat
    /** The worksheet writes made so far, in order. */
    var written: seq<Write>

    constructor ()
      ensures row == 0 && col == 0 && written == []
    {
      row, col, written := 0, 0, [];
    }

    /** `write_column`: write at the current position with the styling rule,
        then move one column right. */
    method WriteColumn(c: Column)
      modifies this
      ensures row == old(row) && col == old(col) + 1
      ensures written == old(written) + [Write(old(row), old(col), c.value, CellFormat(c))]
    {
      written := written + [Write(row, col, c.value, CellFormat(c))];
      col := col + 1;
    }

    /** `finish_row`: next row, back to column 0. */
    method FinishRow()
      modifies this
      ensures row == old(row) + 1 && col == 0
      ensures written == old(written)
    {
      row := row + 1;
      col := 0;
    }

    /** One `write_column` per column, then `finish_row`. */
    method WriteRow(cols: seq<Column>)
      modifies this
      ensures row == old(row) + 1 && col == 0
      ensures written == old(written) + RowWrites(old(row), old(col), cols)
    {
      for k := 0 to |cols|
        invariant row == old(row) && col == old(col) + k
        invariant written == old(written) + RowWrites(old(row), old(col), cols[..k])
      {
        WriteColumn(cols[k]);
        assert cols[..k + 1] == cols[..k] + [cols[k]];
      }
      assert cols[..|cols|] == cols;
      FinishRow();
    }

    /** Computes and writes one row per entry, in order; the first entry whose
        row fails stops the writing with its fault. */
    method WriteEntries<E, F>(rowOf: E -> Result<seq<Column>, F>, entries: seq<E>) returns (r: Result<seq<seq<Column>>, F>)
      requires col == 0
      modifies this
      ensures r == CollectRows(rowOf, entries)
      ensures r.Success? ==> written == old(written) + SheetWrites(old(row), r.value)
      ensures r.Success? ==> row == old(row) + |entries| && col == 0
    {
      var done: seq<seq<Column>> := [];
      for k := 0 to |entries|
        invariant |done| == k
        invariant CollectRows(rowOf, entries[..k]) == Success(done)
        invariant row == old(row) + k && col == 0
        invariant written == old(written) + SheetWrites(old(row), done)
      {
        var cols := rowOf(entries[k]);
        if cols.Failure? {
          CollectRowsFirstFailure(rowOf, entries, k, done);
          return Failure(cols.error);
        }
        WriteRow(cols.value);
        CollectRowsSnoc(rowOf, entries, k, done, cols.value);
        SheetWritesSnoc(old(row), done, cols.value);
        done := done + [cols.value];
      }
      assert entries[..|entries|] == entries;
      return Success(done);
    }
  }

  /** A page written through one cursor from (0, 0): the header row, then one
      row per entry; the first failing entry ends the page with its fault. */
  method WritePage<E, F>(header: seq<Column>, rowOf: E -> Result<seq<Column>, F>, entries: seq<E>)
    returns (r: Result<seq<Write>, F>)
    ensures r.Success? <==> CollectRows(rowOf, entries).Success?
    ensures r.Failure? ==> r.error == CollectRows(rowOf, entries).error
    ensures r.Success? ==> r.value == SheetWrites(0, [header] + CollectRows(rowOf, entries).value)
  {
    var cursor := new Cursor();
    cursor.WriteRow(header);
    assert cursor.written == SheetWrites(0, [header]);
    var rows := cursor.WriteEntries(rowOf, entries);
    if rows.Failure? {
      return Failure(rows.error);
    }
    SheetWritesAppend(0, [header], rows.value);
    return Success(cursor.written);
  }

  /** `add_match_detail_page`: the header row, then each (player, match) pair
      in descending damage order. A fault in any row ends the page (and the run). */
  method MatchDetailPage(guild: Guild, data: HeroData, response: MatchResponse) returns (r: Result<seq<Write>, Fault>)
    ensures r.Success? <==> MatchDetailRows(guild, data, response).Success?
    ensures r.Failure? ==> r.error == MatchDetailRows(guild, data, response).error
    ensures r.Success? ==> r.value == SheetWrites(0, MatchDetailRows(guild, data, response).value)
  {
    var entries := SortedMatches(response);
    r := WritePage(HeaderColumns(), RowOf(guild, data), entries);
    assert MatchRows(guild, data, entries) == CollectRows(RowOf(guild, data), entries);
  }
}
