/** `save_metadata_to_excel`: one header row with the twelve column names, then one row per
    record holding the record's value under each header, column by column. A record without
    one of the headers stops the export with the `KeyError` text. The writing is stated for
    any list of column names and then used with the script's twelve. */
module Exporter {
  import opened Wrappers

  /** The columns, in order. */
  const Headers: seq<string> := ["FILENAME", "SOURCE_TITLE", "SOURCE_NUMBER", "PAGE_NUMBER", "DATE",
    "TITLE", "DESCRIPTION", "FILETYPE", "FILESIZE", "DIMENSIONS", "CAPTION", "KEYWORDS"]

  predicate HasKeys(record: map<string, string>, keys: seq<string>) {
    forall j :: 0 <= j < |keys| ==> keys[j] in record
  }

  /** The first of `keys` the record lacks, if any. */
  function FirstAbsent(keys: seq<string>, record: map<string, string>): (r: Option<string>)
    ensures r.None? <==> HasKeys(record, keys)
    ensures r.Some? ==> r.value in keys && r.value !in record
    decreases |keys|
  {
    if keys == [] then None
    else if keys[0] !in record then Some(keys[0])
    else FirstAbsent(keys[1..], record)
  }

  /** The key of the `KeyError` the export raises: the first missing column of the first
      record that lacks one. */
  function MissingKey(keys: seq<string>, records: seq<map<string, string>>): (r: Option<string>)
    ensures r.None? <==> forall i :: 0 <= i < |records| ==> HasKeys(records[i], keys)
    decreases |records|
  {
    if records == [] then None
    else
      match FirstAbsent(keys, records[0])
      case Some(key) => Some(key)
      case None => MissingKey(keys, records[1..])
  }

  function SaveError(key: string): string {
    "Error saving metadata to Excel: '" + key + "'"
  }

  /** A record's row: its value under each column, in order. */
  function Row(keys: seq<string>, record: map<string, string>): (row: seq<string>)
    requires HasKeys(record, keys)
    ensures |row| == |keys|
  {
    seq(|keys|, j requires 0 <= j < |keys| => record[keys[j]])
  }

  /** The sheet's contents: the header row above the records' rows. */
  function Table(keys: seq<string>, records: seq<map<string, string>>): (table: seq<seq<string>>)
    requires forall i :: 0 <= i < |records| ==> HasKeys(records[i], keys)
    ensures |table| == |records| + 1
  {
    [keys] + seq(|records|, i requires 0 <= i < |records| => Row(keys, records[i]))
  }

  /** The 1-based position p lies within the ragged table. */
  predicate InTable(table: seq<seq<string>>, p: (int, int)) {
    1 <= p.0 <= |table| && 1 <= p.1 <= |table[p.0 - 1]|
  }

  /** The cells, numbered from 1 as in the spreadsheet, hold exactly the ragged table. */
  ghost predicate Shows(cells: map<(int, int), string>, table: seq<seq<string>>) {
    && (forall p :: p in cells <==> InTable(table, p))
    && (forall p :: p in cells ==> cells[p] == table[p.0 - 1][p.1 - 1])
  }

  /** The active worksheet of the workbook being written. */
  class Worksheet {
    var cells: map<(int, int), string>

    constructor()
      ensures cells == map[]
    {
      cells := map[];
    }

    /** `ws.cell(row=row, column=column, value=value)`. */
    method SetCell(row: int, column: int, value: string)
      modifies this
      ensures cells == old(cells)[(row, column) := value]
    {
      cells := cells[(row, column) := value];
    }
  }

  /** A key the export reports is a column that some record lacks. */
  lemma {:induction false} MissingKeySpec(keys: seq<string>, records: seq<map<string, string>>)
    ensures MissingKey(keys, records).Some? ==>
      MissingKey(keys, records).value in keys &&
      exists i :: 0 <= i < |records| && MissingKey(keys, records).value !in records[i]
    decreases |records|
  {
    if records != [] {
      MissingKeySpec(keys, records[1..]);
      if FirstAbsent(keys, records[0]).None? {
        assert forall i :: 1 <= i < |records| ==> records[i] == records[1..][i - 1];
      }
    }
  }

  /** After records that have every column, the first record lacking one decides the
      `KeyError`. */
  lemma {:induction false} MissingKeyAt(keys: seq<string>, records: seq<map<string, string>>, i: nat)
    requires i < |records|
    requires forall k :: 0 <= k < i ==> HasKeys(records[k], keys)
    requires FirstAbsent(keys, records[i]).Some?
    ensures MissingKey(keys, records) == FirstAbsent(keys, records[i])
    decreases i
  {
    if i > 0 {
      assert HasKeys(records[0], keys);
      MissingKeyAt(keys, records[1..], i - 1);
    }
  }

  lemma {:induction false} FirstAbsentAt(keys: seq<string>, record: map<string, string>, j: nat)
    requires j < |keys| && keys[j] !in record
    requires forall k :: 0 <= k < j ==> keys[k] in record
    ensures FirstAbsent(keys, record) == Some(keys[j])
    decreases j
  {
    if j > 0 {
      FirstAbsentAt(keys[1..], record, j - 1);
    }
  }

  /** Writing the next cell of the last row extends that row by the value. */
  lemma ShowsNextCell(cells: map<(int, int), string>, table: seq<seq<string>>, value: string)
    requires Shows(cells, table) && |table| >= 1
    ensures var last := |table| - 1;
      Shows(cells[(|table|, |table[last]| + 1) := value], table[..last] + [table[last] + [value]])
  {
    var last := |table| - 1;
    var t := table[..last] + [table[last] + [value]];
    var cells' := cells[(|table|, |table[last]| + 1) := value];
    forall p
      ensures p in cells' <==> InTable(t, p)
      ensures p in cells' ==> cells'[p] == t[p.0 - 1][p.1 - 1]
    {
      if 1 <= p.0 <= last {
        assert t[p.0 - 1] == table[p.0 - 1];
      }
    }
  }

  /** The same step, with the finished rows and the last row named apart. */
  lemma ShowsLastCell(cells: map<(int, int), string>, done: seq<seq<string>>, current: seq<string>,
                      value: string)
    requires Shows(cells, done + [current])
    ensures Shows(cells[(|done| + 1, |current| + 1) := value], done + [current + [value]])
  {
    ShowsNextCell(cells, done + [current], value);
    assert (done + [current])[..|done|] == done;
  }

  /** Starting a row adds an empty one. */
  lemma ShowsNewRow(cells: map<(int, int), string>, table: seq<seq<string>>)
    requires Shows(cells, table)
    ensures Shows(cells, table + [[]])
  {
    var t := table + [[]];
    forall p
      ensures p in cells <==> InTable(t, p)
      ensures p in cells ==> cells[p] == t[p.0 - 1][p.1 - 1]
    {
      if 1 <= p.0 <= |table| {
        assert t[p.0 - 1] == table[p.0 - 1];
      }
    }
  }

  /** Where the header and the records sit in the table. */
  lemma TableRows(keys: seq<string>, records: seq<map<string, string>>)
    requires forall i :: 0 <= i < |records| ==> HasKeys(records[i], keys)
    ensures Table(keys, records)[0] == keys
    ensures forall i :: 0 <= i < |records| ==> Table(keys, records)[i + 1] == Row(keys, records[i])
  {
  }

  /** Row 1 of a sheet that shows the table holds the column names in order. */
  lemma SheetHeader(cells: map<(int, int), string>, keys: seq<string>, records: seq<map<string, string>>)
    requires forall i :: 0 <= i < |records| ==> HasKeys(records[i], keys)
    requires Shows(cells, Table(keys, records))
    ensures forall j :: 0 <= j < |keys| ==> (1, j + 1) in cells && cells[(1, j + 1)] == keys[j]
  {
    var table := Table(keys, records);
    TableRows(keys, records);
    forall j | 0 <= j < |keys|
      ensures (1, j + 1) in cells && cells[(1, j + 1)] == keys[j]
    {
      assert InTable(table, (1, j + 1));
    }
  }

  /** A cell of a sheet that shows a table holds the table's entry at that position. */
  lemma ShowsAt(cells: map<(int, int), string>, table: seq<seq<string>>, p: (int, int))
    requires Shows(cells, table) && InTable(table, p)
    ensures p in cells && cells[p] == table[p.0 - 1][p.1 - 1]
  {
  }

  /** Row i + 2 of a sheet that shows the table holds record i's value under each column. Only
      the columns are looked up, so a record's other keys never reach the sheet. */
  lemma SheetRecords(cells: map<(int, int), string>, keys: seq<string>, records: seq<map<string, string>>)
    requires forall i :: 0 <= i < |records| ==> HasKeys(records[i], keys)
    requires Shows(cells, Table(keys, records))
    ensures forall i, j :: 0 <= i < |records| && 0 <= j < |keys| ==>
      (i + 2, j + 1) in cells && cells[(i + 2, j + 1)] == records[i][keys[j]]
  {
    var table := Table(keys, records);
    forall i, j | 0 <= i < |records| && 0 <= j < |keys|
      ensures (i + 2, j + 1) in cells && cells[(i + 2, j + 1)] == records[i][keys[j]]
    {
      var row := table[i + 1];
      assert row == Row(keys, records[i]);
      ShowsAt(cells, table, (i + 2, j + 1));
    }
  }

  /** A sheet that shows the table has no cell outside its rows and columns. */
  lemma SheetBounds(cells: map<(int, int), string>, keys: seq<string>, records: seq<map<string, string>>)
    requires forall i :: 0 <= i < |records| ==> HasKeys(records[i], keys)
    requires Shows(cells, Table(keys, records))
    ensures forall p :: p in cells ==> 1 <= p.0 <= |records| + 1 && 1 <= p.1 <= |keys|
  {
    var table := Table(keys, records);
    TableRows(keys, records);
    forall p | p in cells
      ensures 1 <= p.0 <= |records| + 1 && 1 <= p.1 <= |keys|
    {
      assert InTable(table, p);
    }
  }

  /** The first loop: the column names across row 1 of an empty sheet. */
  method WriteHeader(ws: Worksheet, keys: seq<string>)
    requires ws.cells == map[]
    modifies ws
    ensures Shows(ws.cells, [keys])
  {
    for col := 0 to |keys|
      invariant Shows(ws.cells, [keys[..col]])
    {
      ShowsNextCell(ws.cells, [keys[..col]], keys[col]);
      assert [keys[..col]][..0] == [];
      assert keys[..col] + [keys[col]] == keys[..col + 1];
      ws.SetCell(1, col + 1, keys[col]);
    }
    assert keys[..|keys|] == keys;
  }

  /** One pass of the inner loop: the record's value under each column across the next row,
      stopping at the first column the record lacks and returning it. */
  method WriteRow(ws: Worksheet, row: nat, ghost done: seq<seq<string>>, keys: seq<string>,
                  record: map<string, string>) returns (missing: Option<string>)
    requires Shows(ws.cells, done) && row == |done| + 1
    modifies ws
    ensures missing == FirstAbsent(keys, record)
    ensures missing.None? ==> Shows(ws.cells, done + [Row(keys, record)])
  {
    ShowsNewRow(ws.cells, done);
    ghost var current: seq<string> := [];
    for col := 0 to |keys|
      invariant |current| == col
      invariant forall k :: 0 <= k < col ==> keys[k] in record && current[k] == record[keys[k]]
      invariant Shows(ws.cells, done + [current])
    {
      if keys[col] !in record {
        FirstAbsentAt(keys, record, col);
        return Some(keys[col]);
      }
      ShowsLastCell(ws.cells, done, current, record[keys[col]]);
      ws.SetCell(row, col + 1, record[keys[col]]);
      current := current + [record[keys[col]]];
    }
    assert current == Row(keys, record);
    return None;
  }

  /** The writing loops for any column list: the header row, then each record's row; a
      missing column ends it with the `KeyError` message. */
  method WriteSheet(keys: seq<string>, records: seq<map<string, string>>) returns (r: Result<Worksheet, string>)
    ensures MissingKey(keys, records).Some? ==> r == Err(SaveError(MissingKey(keys, records).value))
    ensures MissingKey(keys, records).None? ==> r.Ok? && fresh(r.value) && Shows(r.value.cells, Table(keys, records))
  {
    var ws := new Worksheet();
    WriteHeader(ws, keys);
    assert Table(keys, records[..0]) == [keys];
    for row := 0 to |records|
      invariant forall k :: 0 <= k < row ==> HasKeys(records[k], keys)
      invariant Shows(ws.cells, Table(keys, records[..row]))
    {
      var missing := WriteRow(ws, row + 2, Table(keys, records[..row]), keys, records[row]);
      if missing.Some? {
        MissingKeyAt(keys, records, row);
        return Err(SaveError(missing.value));
      }
      assert records[..row + 1] == records[..row] + [records[row]];
      assert Table(keys, records[..row + 1]) == Table(keys, records[..row]) + [Row(keys, records[row])];
    }
    assert records[..|records|] == records;
    return Ok(ws);
  }

  /** `save_metadata_to_excel`, up to the file being written: the sheet with the twelve
      columns, or the error for the first missing one. */
  method SaveMetadata(records: seq<map<string, string>>) returns (r: Result<Worksheet, string>)
    ensures MissingKey(Headers, records).Some? ==> r == Err(SaveError(MissingKey(Headers, records).value))
    ensures MissingKey(Headers, records).None? ==>
      r.Ok? && fresh(r.value) && Shows(r.value.cells, Table(Headers, records))
  {
    r := WriteSheet(Headers, records);
  }
}
