/** Opening a spreadsheet file (main.go, HandleOpenFile): load its stored
    settings, or create default settings and an empty table for it. */
module App {
  import opened Utils
  import opened Store

  /** The settings of one file, in the field order of the server's record. */
  datatype TableConfig = TableConfig(
    id: string,
    title: string,
    cols: int,
    rows: int,
    defaultWidth: int,
    widthChanges: map<int, int>,
    defaultHeight: int,
    heightChanges: map<int, int>)

  /** The settings a new file gets. */
  function DefaultConfig(id: string): TableConfig
  {
    TableConfig(id, "Untitled", 26, 100, 96, map[], 32, map[])
  }

  /** The stored row: the INSERT passes ID, Title, Rows, Cols, ... by position,
      which puts `rows` in the `rows` column and `cols` in the `cols` column. */
  function StoredRow(c: TableConfig): ConfigRow
  {
    ConfigRow(c.id, c.title, c.rows, c.cols, c.defaultWidth, c.widthChanges,
              c.defaultHeight, c.heightChanges)
  }

  /** The loaded settings: `SELECT *` yields the columns in table order
      (id, title, rows, cols, ...) and they are scanned into ID, Title, Cols,
      Rows, ... by position. */
  function ScannedConfig(r: ConfigRow): TableConfig
  {
    TableConfig(r.id, r.title, r.rows, r.cols, r.defaultWidth, r.widthChanges,
                r.defaultHeight, r.heightChanges)
  }

  /** Storing and loading exchanges the row and column counts, and leaves
      every other setting as it was; the round trip is the identity exactly
      when the two counts agree. */
  lemma ReloadSwapsExtent(c: TableConfig)
    ensures ScannedConfig(StoredRow(c)) == c.(cols := c.rows, rows := c.cols)
    ensures ScannedConfig(StoredRow(c)) == c <==> c.cols == c.rows
  {
  }

  /** A reopened new file reports 100 columns and 26 rows. */
  lemma ReopenedDefault(id: string)
    ensures var c := ScannedConfig(StoredRow(DefaultConfig(id)));
      c.cols == 100 && c.rows == 26 && c.title == "Untitled"
  {
  }

  // ---------------------------------------------------------------------
  // The column definitions of CREATE TABLE

  function DigitOf(d: nat): char
    requires d < 10
  {
    ('0' as int + d) as char
  }

  /** `%d` of a non-negative number. */
  function Decimal(n: nat): (s: string)
    ensures |s| >= 1
    ensures forall i :: 0 <= i < |s| ==> '0' <= s[i] <= '9'
    ensures n == 0 <==> s == "0"
    ensures n >= 1 ==> s[0] != '0'
  {
    if n < 10 then [DigitOf(n)] else Decimal(n / 10) + [DigitOf(n % 10)]
  }

  function DecimalValue(s: string): int
  {
    if s == [] then 0 else DecimalValue(s[..|s| - 1]) * 10 + (s[|s| - 1] as int - '0' as int)
  }

  /** Reading the digits back gives the number, so distinct column numbers
      give distinct column names. */
  lemma {:induction false} DecimalRoundTrip(n: nat)
    ensures DecimalValue(Decimal(n)) == n
  {
    if n >= 10 {
      DecimalRoundTrip(n / 10);
      var s := Decimal(n);
      assert s[..|s| - 1] == Decimal(n / 10);
    }
  }

  /** The definition of column `i`: `"i" TEXT NOT NULL`. */
  function ColumnDef(i: nat): string
  {
    "\"" + Decimal(i) + "\" TEXT NOT NULL"
  }

  function ColumnDefs(n: nat): (defs: seq<string>)
    ensures |defs| == n && forall i :: 0 <= i < n ==> defs[i] == ColumnDef(i)
  {
    seq(n, i requires 0 <= i < n => ColumnDef(i))
  }

  /** `strings.TrimRight(s, cutset)`: drops every trailing character found in `cutset`. */
  function TrimRight(s: string, cutset: string): (r: string)
    ensures |r| <= |s| && r == s[..|r|]
    ensures r != [] ==> r[|r| - 1] !in cutset
    ensures forall k :: |r| <= k < |s| ==> s[k] in cutset
  {
    if s != [] && s[|s| - 1] in cutset then TrimRight(s[..|s| - 1], cutset) else s
  }

  /** The joined definitions end with the last definition, whose final
      character is 'L'. */
  lemma {:induction false} CommaJoinEnd(n: nat)
    requires n >= 1
    ensures var s := Join(ColumnDefs(n), ", "); |s| >= 1 && s[|s| - 1] == 'L'
  {
    var defs := ColumnDefs(n);
    var last := ColumnDef(n - 1);
    assert last[|last| - 1] == 'L';
    if n > 1 {
      assert defs == defs[..n - 1] + [last];
      JoinSnoc(defs[..n - 1], last, ", ");
    }
  }

  /** The text the column-definition loop has built after `i` columns: each
      definition followed by ", ". */
  function Built(i: nat): string
  {
    if i == 0 then "" else Join(ColumnDefs(i), ", ") + ", "
  }

  /** One more column appends its definition and a separator. */
  lemma BuiltStep(i: nat)
    ensures Built(i) + ColumnDef(i) + ", " == Built(i + 1)
  {
    assert ColumnDefs(i + 1) == ColumnDefs(i) + [ColumnDef(i)];
    if i > 0 {
      JoinSnoc(ColumnDefs(i), ColumnDef(i), ", ");
    }
  }

  /** The column-definition loop: one definition per column, ascending,
      each followed by ", ", then the trailing separator trimmed. */
  method ColumnDefinitions(cols: int) returns (s: string)
    ensures s == Join(ColumnDefs(Max(cols, 0)), ", ")
    ensures cols <= 0 <==> s == ""
    ensures cols > 0 ==> s[|s| - 1] == 'L'
  {
    var built := "";
    var i := 0;
    while i < cols
      invariant 0 <= i <= Max(cols, 0)
      invariant built == Built(i)
    {
      BuiltStep(i);
      built := built + ColumnDef(i) + ", ";
      i := i + 1;
    }
    s := TrimRight(built, ", ");
    if i > 0 {
      CommaJoinEnd(i);
      TrimSeparator(Join(ColumnDefs(i), ", "));
    }
  }

  /** Trimming ", " off a text that ends in 'L' followed by ", " gives the text. */
  lemma TrimSeparator(joined: string)
    requires |joined| >= 1 && joined[|joined| - 1] == 'L'
    ensures TrimRight(joined + ", ", ", ") == joined
  {
    var cut := ", ";
    var a := joined + ", ";
    var b := joined + ",";
    assert a[|a| - 1] in cut && a[..|a| - 1] == b;
    assert b[|b| - 1] in cut && b[..|b| - 1] == joined;
    assert joined[|joined| - 1] !in cut;
    assert TrimRight(joined, cut) == joined;
  }

  // ---------------------------------------------------------------------
  // Opening a file

  datatype OpenOutcome = Opened(config: TableConfig, created: bool) | Failed(error: StoreError)

  /** The open handler. A stored file is loaded and nothing is created. A new
      file gets the default settings stored, then a table of 26 columns and
      100 rows of empty cells; if that table cannot be created (its name is
      taken, up to case, by a file or by the settings table, or is one of
      SQLite's own) the handler fails after storing the settings. */
  method OpenFile(db: Database, id: string) returns (r: OpenOutcome)
    requires db.Valid()
    modifies db
    ensures db.Valid()
    ensures id in old(db.configs) ==>
      r == Opened(ScannedConfig(old(db.configs)[id]), false) &&
      db.configs == old(db.configs) && db.tables == old(db.tables)
    ensures id !in old(db.configs) ==>
      db.configs == old(db.configs)[id := StoredRow(DefaultConfig(id))]
    ensures id !in old(db.configs) && CreateError(old(db.tables), id).Some? ==>
      r == Failed(CreateError(old(db.tables), id).value) && db.tables == old(db.tables)
    ensures id !in old(db.configs) && ((id in old(db.tables) && !Internal(id)) || FoldName(id) == SettingsTable) ==>
      r == Failed(TableExists(id))
    ensures id !in old(db.configs) && CreateError(old(db.tables), id).None? ==>
      r == Opened(DefaultConfig(id), true) && db.tables == old(db.tables)[id := Blank(100, 26)]
    ensures r.Opened? && r.created ==>
      && r.config.title == "Untitled" && r.config.cols == 26 && r.config.rows == 100
      && r.config.defaultWidth == 96 && r.config.defaultHeight == 32
      && r.config.widthChanges == map[] && r.config.heightChanges == map[]
  {
    CreateErrorCases(db.tables, id);
    var found := db.FindConfig(id);
    if found.Some? {
      return Opened(ScannedConfig(found.value), false);
    }

    var config := DefaultConfig(id);
    db.InsertConfig(StoredRow(config));

    // The text of the CREATE TABLE statement; the store takes the count it encodes.
    var definitions := ColumnDefinitions(config.cols);
    var err := db.CreateTable(id, config.cols);
    if err.Some? {
      return Failed(err.value);
    }

    ghost var tables0 := old(db.tables);
    var row := 0;
    while row < config.rows
      invariant 0 <= row <= config.rows
      invariant db.Valid() && db.configs == old(db.configs)[id := StoredRow(config)]
      invariant db.tables == tables0[id := Blank(row, config.cols)]
    {
      db.InsertRow(id, EmptyRow(config.cols));
      assert Blank(row, config.cols).cells + [EmptyRow(config.cols)] == Blank(row + 1, config.cols).cells;
      row := row + 1;
    }
    r := Opened(config, true);
  }
}
