/** The SQL database the server talks to, reduced to what the core relies on:
    a `config` table of per-file settings and, per file ID, a table whose
    row `r` holds the text of every column of spreadsheet row `r`. */
module Store {
  import opened Utils

  datatype Option<T> = None | Some(value: T)

  datatype Result<T, E> = Ok(value: T) | Err(error: E)

  /** Errors the database reports to the core. */
  datatype StoreError =
    | NoSuchTable(name: string)    // no table for this file ID
    | NoSuchColumn                 // a column index outside 0 .. cols-1
    | EmptyColumnList              // a SELECT with no column names does not parse
    | TableExists(name: string)    // CREATE TABLE of a name already present
    | ReservedName(name: string)   // CREATE TABLE of a name SQLite keeps for itself

  /** One row of the `config` table, in the order of its columns
      (id, title, rows, cols, default_width, width_changes, default_height,
      height_changes). The two change maps are kept decoded. */
  datatype ConfigRow = ConfigRow(
    id: string,
    title: string,
    rows: int,
    cols: int,
    defaultWidth: int,
    widthChanges: map<int, int>,
    defaultHeight: int,
    heightChanges: map<int, int>)

  /** A spreadsheet table: `cols` text columns; `cells[r]` is the row whose
      `row` column is `r`. */
  datatype Table = Table(cols: nat, cells: seq<seq<string>>)

  predicate WellFormed(t: Table)
  {
    forall r :: 0 <= r < |t.cells| ==> |t.cells[r]| == t.cols
  }

  predicate AllWellFormed(tables: map<string, Table>)
  {
    forall id :: id in tables ==> WellFormed(tables[id])
  }

  function EmptyRow(cols: nat): seq<string>
  {
    seq(cols, _ => "")
  }

  /** A table of `rows` rows and `cols` columns, every cell "". */
  function Blank(rows: nat, cols: nat): (t: Table)
    ensures WellFormed(t) && |t.cells| == rows && t.cols == cols
    ensures forall r, c :: 0 <= r < rows && 0 <= c < cols ==> t.cells[r][c] == ""
  {
    Table(cols, seq(rows, _ => EmptyRow(cols)))
  }

  /** `UPDATE t SET "col"=value WHERE row=row`: an unknown column is an error;
      a row number that matches no row updates nothing. */
  function WriteCell(t: Table, row: int, col: int, value: string): (r: Result<Table, StoreError>)
    requires WellFormed(t)
    ensures r.Err? <==> !(0 <= col < t.cols)
    ensures r.Err? ==> r.error == NoSuchColumn
    ensures r.Ok? ==> WellFormed(r.value) && r.value.cols == t.cols && |r.value.cells| == |t.cells|
    ensures r.Ok? ==> forall i, j :: 0 <= i < |t.cells| && 0 <= j < t.cols ==>
      r.value.cells[i][j] == (if i == row && j == col then value else t.cells[i][j])
  {
    if col < 0 || col >= t.cols then Err(NoSuchColumn)
    else if 0 <= row < |t.cells| then Ok(Table(t.cols, t.cells[row := t.cells[row][col := value]]))
    else Ok(t)
  }

  /** The same update addressed by file ID. */
  function UpdateTables(tables: map<string, Table>, id: string, row: int, col: int, value: string)
    : (r: Result<map<string, Table>, StoreError>)
    requires AllWellFormed(tables)
    ensures r.Err? <==> id !in tables || !(0 <= col < tables[id].cols)
    ensures r.Ok? ==> AllWellFormed(r.value) && r.value.Keys == tables.Keys
    ensures r.Ok? ==> forall other :: other in tables && other != id ==> r.value[other] == tables[other]
  {
    if id !in tables then Err(NoSuchTable(id))
    else match WriteCell(tables[id], row, col, value)
      case Err(e) => Err(e)
      case Ok(t) => Ok(tables[id := t])
  }

  /** `... ORDER BY row LIMIT limit OFFSET offset`: the rows from position
      `offset` on, at most `limit` of them; a negative LIMIT sets no bound. */
  function SliceRows(cells: seq<seq<string>>, limit: int, offset: nat): (rows: seq<seq<string>>)
    ensures offset >= |cells| ==> rows == []
    ensures offset < |cells| ==>
      |rows| == (if limit < 0 then |cells| - offset else Min(limit, |cells| - offset))
    ensures forall k :: 0 <= k < |rows| ==> offset + k < |cells| && rows[k] == cells[offset + k]
  {
    if offset >= |cells| then []
    else if limit < 0 || offset + limit >= |cells| then cells[offset..]
    else cells[offset..offset + limit]
  }

  /** The listed columns of one row, in the listed order. */
  function Project(row: seq<string>, columns: seq<int>): (r: seq<string>)
    requires forall k :: 0 <= k < |columns| ==> 0 <= columns[k] < |row|
    ensures |r| == |columns|
    ensures forall k :: 0 <= k < |columns| ==> r[k] == row[columns[k]]
  {
    seq(|columns|, k requires 0 <= k < |columns| => row[columns[k]])
  }

  predicate ColumnsExist(t: Table, columns: seq<int>)
  {
    forall k :: 0 <= k < |columns| ==> 0 <= columns[k] < t.cols
  }

  /** `SELECT columns FROM id ORDER BY row LIMIT limit OFFSET offset`. */
  function Select(tables: map<string, Table>, id: string, columns: seq<int>, limit: int, offset: nat)
    : (r: Result<seq<seq<string>>, StoreError>)
    requires AllWellFormed(tables)
    ensures r.Ok? <==> columns != [] && id in tables && ColumnsExist(tables[id], columns)
    ensures r.Ok? ==> forall k :: 0 <= k < |r.value| ==> |r.value[k]| == |columns|
  {
    if columns == [] then Err(EmptyColumnList)
    else if id !in tables then Err(NoSuchTable(id))
    else if !ColumnsExist(tables[id], columns) then Err(NoSuchColumn)
    else
      var t := tables[id];
      var rows := SliceRows(t.cells, limit, offset);
      Ok(seq(|rows|, k requires 0 <= k < |rows| => Project(rows[k], columns)))
  }

  // ---------------------------------------------------------------------
  // Table names

  /** SQLite compares table names without regard to ASCII case. */
  function FoldChar(c: char): char
  {
    if 'A' <= c <= 'Z' then (c as int + 32) as char else c
  }

  function FoldName(name: string): string
  {
    seq(|name|, i requires 0 <= i < |name| => FoldChar(name[i]))
  }

  /** Names beginning with `sqlite_`, in any case, belong to SQLite itself. */
  predicate Internal(name: string)
  {
    var n := FoldName(name);
    |n| >= 7 && n[..7] == "sqlite_"
  }

  /** The name of the settings table, which exists from start-up on. */
  const SettingsTable: string := "config"

  /** Whether `name` clashes, up to case, with the settings table or with a
      file table. */
  predicate Clashes(tables: map<string, Table>, name: string)
  {
    FoldName(name) == SettingsTable || exists k :: k in tables && FoldName(k) == FoldName(name)
  }

  /** What `CREATE TABLE name (...)` reports: a reserved name first, then a
      clash with an existing table, otherwise success. */
  function CreateError(tables: map<string, Table>, name: string): Option<StoreError>
  {
    if Internal(name) then Some(ReservedName(name))
    else if Clashes(tables, name) then Some(TableExists(name))
    else None
  }

  /** Which names can be created: every file table's own name is taken, so is
      the settings table's name in any case, and SQLite's `sqlite_` names are
      refused; a name unlike all of these is free. */
  lemma {:induction false} CreateErrorCases(tables: map<string, Table>, name: string)
    ensures name in tables && !Internal(name) ==> CreateError(tables, name) == Some(TableExists(name))
    ensures CreateError(tables, "config") == Some(TableExists("config"))
    ensures CreateError(tables, "Config") == Some(TableExists("Config"))
    ensures CreateError(tables, "sqlite_master") == Some(ReservedName("sqlite_master"))
    ensures CreateError(tables, name) == None <==>
      !Internal(name) && FoldName(name) != SettingsTable && forall k :: k in tables ==> FoldName(k) != FoldName(name)
  {
    assert FoldName("config") == "config";
    assert FoldName("Config") == "config";
    assert FoldName("sqlite_master")[..7] == "sqlite_";
  }

  /** The database handle the server shares between its handlers. */
  class Database {
    var configs: map<string, ConfigRow>
    var tables: map<string, Table>

    ghost predicate Valid()
      reads this
    {
      AllWellFormed(tables)
    }

    constructor ()
      ensures Valid() && configs == map[] && tables == map[]
    {
      configs := map[];
      tables := map[];
    }

    /** `SELECT * FROM config WHERE id=?`. */
    method FindConfig(id: string) returns (r: Option<ConfigRow>)
      ensures r == if id in configs then Some(configs[id]) else None
    {
      r := if id in configs then Some(configs[id]) else None;
    }

    /** `INSERT INTO config VALUES(...)`; the caller has just found no row with this ID. */
    method InsertConfig(row: ConfigRow)
      requires Valid() && row.id !in configs
      modifies this`configs
      ensures Valid()
      ensures configs == old(configs)[row.id := row]
    {
      configs := configs[row.id := row];
    }

    /** `CREATE TABLE id (row INTEGER, "0" TEXT NOT NULL, ...)` with `cols` text columns. */
    method CreateTable(id: string, cols: nat) returns (err: Option<StoreError>)
      requires Valid()
      modifies this`tables
      ensures Valid()
      ensures err == CreateError(old(tables), id)
      ensures err.Some? ==> tables == old(tables)
      ensures err.None? ==> tables == old(tables)[id := Table(cols, [])]
    {
      err := CreateError(tables, id);
      if err.None? {
        tables := tables[id := Table(cols, [])];
      }
    }

    /** `INSERT INTO id VALUES(n, ...)` for the next row number `n`. */
    method InsertRow(id: string, values: seq<string>)
      requires Valid() && id in tables && |values| == tables[id].cols
      modifies this`tables
      ensures Valid()
      ensures tables == old(tables)[id := Table(old(tables)[id].cols, old(tables)[id].cells + [values])]
    {
      var t := tables[id];
      tables := tables[id := Table(t.cols, t.cells + [values])];
    }

    /** `UPDATE id SET "col"=value WHERE row=row`. */
    method Update(id: string, row: int, col: int, value: string) returns (err: Option<StoreError>)
      requires Valid()
      modifies this`tables
      ensures Valid()
      ensures match UpdateTables(old(tables), id, row, col, value)
        case Err(e) => err == Some(e) && tables == old(tables)
        case Ok(next) => err == None && tables == next
    {
      match UpdateTables(tables, id, row, col, value)
      case Err(e) =>
        err := Some(e);
      case Ok(next) =>
        err := None;
        tables := next;
    }

    /** `SELECT columns FROM id ORDER BY row LIMIT limit OFFSET offset`. */
    method Query(id: string, columns: seq<int>, limit: int, offset: nat)
      returns (r: Result<seq<seq<string>>, StoreError>)
      requires Valid()
      ensures r == Select(tables, id, columns, limit, offset)
    {
      r := Select(tables, id, columns, limit, offset);
    }
  }
}
