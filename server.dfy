/** The coordinator (websocket-server.go): the set of registered clients, the
    dispatch of each inbound message on its purpose, the single-cell update
    and the rectangle look-up. */
module Server {
  import opened Utils
  import opened Store
  import opened Protocol
  import opened Pump

  // ---------------------------------------------------------------------
  // Look-up arithmetic

  /** The first requested cell, clamped to be non-negative on each axis. */
  function ClampFrom(req: LookUpRequest): CellPos
  {
    CellPos(Max(0, req.from.row), Max(0, req.from.col))
  }

  /** The requested last cell plus one on each axis; not clamped. */
  function ExclusiveTo(req: LookUpRequest): CellPos
  {
    CellPos(req.to.row + 1, req.to.col + 1)
  }

  /** Number of scan targets per row, from the unclamped request. */
  function Width(req: LookUpRequest): int
  {
    req.to.col - req.from.col + 1
  }

  /** The LIMIT of the query, from the unclamped request. */
  function Height(req: LookUpRequest): int
  {
    req.to.row - req.from.row + 1
  }

  /** The column indices `from .. to-1`, ascending. */
  function ColumnSpan(from: int, to: int): (columns: seq<int>)
    ensures |columns| == if from < to then to - from else 0
    ensures forall k :: 0 <= k < |columns| ==> columns[k] == from + k
  {
    if from < to then seq(to - from, k => from + k) else []
  }

  /** What a decoded look-up request yields: the selected rows, or why not. */
  function LookUpResult(tables: map<string, Table>, fileID: string, req: LookUpRequest)
    : Result<LookUpResponse, Failure>
    requires AllWellFormed(tables)
  {
    var from := ClampFrom(req);
    var to := ExclusiveTo(req);
    var columns := ColumnSpan(from.col, to.col);
    match Select(tables, fileID, columns, Height(req), from.row)
    case Err(e) => Err(StorageFailure(e))
    case Ok(rows) =>
      if rows != [] && Width(req) != |columns| then Err(ScanMismatch(|columns|, Width(req)))
      else Ok(LookUpResponse(from, to, rows))
  }

  function ReplyOf(r: Result<LookUpResponse, Failure>): Reply
  {
    match r
    case Ok(response) => LookUpReply(response)
    case Err(failure) => ErrorReply(failure)
  }

  /** The replies a look-up message produces: none for an empty payload,
      otherwise exactly one. */
  function LookUpReplies(tables: map<string, Table>, fileID: string, payload: string,
                         lookUp: Decoded<LookUpRequest>): (replies: seq<Reply>)
    requires AllWellFormed(tables)
    ensures payload == "" <==> replies == []
    ensures |replies| <= 1
    ensures payload != "" && lookUp.DecodeError? ==> replies == [ErrorReply(BadPayload(lookUp.reason))]
    ensures payload != "" && lookUp.DecodeOk? ==>
      replies == [ReplyOf(LookUpResult(tables, fileID, lookUp.value))]
  {
    if payload == "" then []
    else match lookUp
      case DecodeError(reason) => [ErrorReply(BadPayload(reason))]
      case DecodeOk(req) => [ReplyOf(LookUpResult(tables, fileID, req))]
  }

  /** The selected columns of a row are the slice `from .. to` of it. */
  lemma ProjectSpan(row: seq<string>, from: int, to: int)
    requires 0 <= from < to <= |row|
    ensures Project(row, ColumnSpan(from, to)) == row[from..to]
  {
  }

  /** The reply's corners: `from` is the requested first cell clamped to be
      non-negative, `to` is the requested last cell plus one and is never
      clamped. */
  lemma LookUpBounds(tables: map<string, Table>, fileID: string, req: LookUpRequest)
    requires AllWellFormed(tables)
    ensures var r := LookUpResult(tables, fileID, req);
      r.Ok? ==>
        && r.value.from.row >= 0 && r.value.from.col >= 0
        && (req.from.row >= 0 ==> r.value.from.row == req.from.row)
        && (req.from.row < 0 ==> r.value.from.row == 0)
        && (req.from.col >= 0 ==> r.value.from.col == req.from.col)
        && (req.from.col < 0 ==> r.value.from.col == 0)
        && r.value.to.row - 1 == req.to.row && r.value.to.col - 1 == req.to.col
  {
  }

  /** On success the items are consecutive rows of the file's table starting
      at `from.row`, in ascending order, as many as exist up to `Height`
      (all remaining rows when `Height` is negative), each holding columns
      `from.col .. to.col-1` in order. */
  lemma LookUpItems(tables: map<string, Table>, fileID: string, req: LookUpRequest)
    requires AllWellFormed(tables)
    ensures var r := LookUpResult(tables, fileID, req);
      r.Ok? ==>
        && fileID in tables
        && var t := tables[fileID];
           var items := r.value.items;
           var from := r.value.from;
           var to := r.value.to;
           && 0 <= from.col < to.col <= t.cols
           && (from.row >= |t.cells| ==> items == [])
           && (from.row < |t.cells| ==>
                |items| == (if Height(req) < 0 then |t.cells| - from.row
                            else Min(Height(req), |t.cells| - from.row)))
           && (Height(req) >= 0 ==> |items| <= Height(req))
           && forall k :: 0 <= k < |items| ==>
                from.row + k < |t.cells| && items[k] == t.cells[from.row + k][from.col..to.col]
  {
    var r := LookUpResult(tables, fileID, req);
    if r.Ok? {
      var from := ClampFrom(req);
      var to := ExclusiveTo(req);
      var columns := ColumnSpan(from.col, to.col);
      var sel := Select(tables, fileID, columns, Height(req), from.row);
      assert sel.Ok? && r.value.items == sel.value;
      assert columns[|columns| - 1] == to.col - 1;
      SelectSpan(tables, fileID, from.col, to.col, Height(req), from.row);
    }
  }

  /** Selecting a span of existing columns yields, for each selected row,
      the slice of that row between the span's ends. */
  lemma SelectSpan(tables: map<string, Table>, id: string, from: int, to: int, limit: int, offset: nat)
    requires AllWellFormed(tables) && id in tables && 0 <= from < to <= tables[id].cols
    ensures var sel := Select(tables, id, ColumnSpan(from, to), limit, offset);
      var rows := SliceRows(tables[id].cells, limit, offset);
      && sel.Ok? && |sel.value| == |rows|
      && forall k :: 0 <= k < |rows| ==> sel.value[k] == rows[k][from..to]
  {
    var t := tables[id];
    var columns := ColumnSpan(from, to);
    var rows := SliceRows(t.cells, limit, offset);
    assert ColumnsExist(t, columns);
    var sel := Select(tables, id, columns, limit, offset);
    assert sel.value == seq(|rows|, k requires 0 <= k < |rows| => Project(rows[k], columns));
    forall k | 0 <= k < |rows|
      ensures sel.value[k] == rows[k][from..to]
    {
      ProjectSpan(rows[k], from, to);
    }
  }

  /** The scan width equals the number of selected columns exactly when the
      requested first column is non-negative. */
  lemma WidthMatchesColumns(req: LookUpRequest)
    requires ClampFrom(req).col < ExclusiveTo(req).col
    ensures Width(req) == |ColumnSpan(ClampFrom(req).col, ExclusiveTo(req).col)| <==> req.from.col >= 0
  {
  }

  /** Each way a look-up fails: no columns selected (the query does not parse),
      no table for the file, a column past the table's last one, or rows
      found while the scan width disagrees with the column count, which
      happens exactly when the requested first column is negative. */
  lemma LookUpFailures(tables: map<string, Table>, fileID: string, req: LookUpRequest)
    requires AllWellFormed(tables)
    ensures var r := LookUpResult(tables, fileID, req);
      var from := ClampFrom(req);
      var to := ExclusiveTo(req);
      && (to.col <= from.col ==> r == Err(StorageFailure(EmptyColumnList)))
      && (from.col < to.col && fileID !in tables ==> r == Err(StorageFailure(NoSuchTable(fileID))))
      && (from.col < to.col && fileID in tables && to.col > tables[fileID].cols ==>
            r == Err(StorageFailure(NoSuchColumn)))
      && (from.col < to.col && fileID in tables && to.col <= tables[fileID].cols ==>
            (r.Err? <==> req.from.col < 0 && SliceRows(tables[fileID].cells, Height(req), from.row) != [])
            && (r.Err? ==> r.error == ScanMismatch(to.col - from.col, Width(req))))
  {
    var from := ClampFrom(req);
    var to := ExclusiveTo(req);
    if from.col < to.col && fileID in tables && to.col > tables[fileID].cols {
      var columns := ColumnSpan(from.col, to.col);
      assert columns[|columns| - 1] == to.col - 1;
    }
    if from.col < to.col {
      WidthMatchesColumns(req);
    }
  }

  // ---------------------------------------------------------------------
  // Update arithmetic

  /** The new tables and the replies queued for the sender. */
  datatype Effect = Effect(tables: map<string, Table>, replies: seq<Reply>)

  /** What an update-value message does. At most one reply, always an error
      reply, and the tables change only when there is no reply. */
  function UpdateValueEffect(tables: map<string, Table>, fileID: string,
                             update: Decoded<UpdateValueRequest>): (e: Effect)
    requires AllWellFormed(tables)
    ensures AllWellFormed(e.tables) && e.tables.Keys == tables.Keys
    ensures |e.replies| <= 1
    ensures e.replies != [] ==> e.tables == tables && e.replies[0].ErrorReply?
    ensures update.DecodeError? ==> e == Effect(tables, [ErrorReply(BadPayload(update.reason))])
    ensures update.DecodeOk? ==>
      (e.replies == [] <==> fileID in tables && 0 <= update.value.col < tables[fileID].cols)
    ensures forall other :: other in tables && other != fileID ==> e.tables[other] == tables[other]
  {
    match update
    case DecodeError(reason) => Effect(tables, [ErrorReply(BadPayload(reason))])
    case DecodeOk(req) =>
      match UpdateTables(tables, fileID, req.row, req.col, req.newValue)
      case Err(err) => Effect(tables, [ErrorReply(StorageFailure(err))])
      case Ok(next) => Effect(next, [])
  }

  /** A successful update sets exactly the addressed cell; a row number that
      matches no row leaves every table as it was. Neither sends a reply. */
  lemma UpdateValueSetsCell(tables: map<string, Table>, fileID: string, req: UpdateValueRequest)
    requires AllWellFormed(tables)
    requires fileID in tables && 0 <= req.col < tables[fileID].cols
    ensures var e := UpdateValueEffect(tables, fileID, DecodeOk(req));
      var t := tables[fileID];
      var t' := e.tables[fileID];
      && e.replies == []
      && t'.cols == t.cols && |t'.cells| == |t.cells|
      && (forall i, j :: 0 <= i < |t.cells| && 0 <= j < t.cols ==>
            t'.cells[i][j] == (if i == req.row && j == req.col then req.newValue else t.cells[i][j]))
      && (!(0 <= req.row < |t.cells|) ==> e.tables == tables)
  {
    var t := tables[fileID];
    if !(0 <= req.row < |t.cells|) {
      assert WriteCell(t, req.row, req.col, req.newValue) == Ok(t);
      assert tables[fileID := t] == tables;
    }
  }

  /** A look-up of a single cell after a successful update of that cell
      returns the new value: every command sees the effect of every command
      applied before it. */
  lemma ReadYourWrite(tables: map<string, Table>, fileID: string, req: UpdateValueRequest)
    requires AllWellFormed(tables)
    requires fileID in tables && 0 <= req.col < tables[fileID].cols
    requires 0 <= req.row < |tables[fileID].cells|
    ensures var e := UpdateValueEffect(tables, fileID, DecodeOk(req));
      var at := CellPos(req.row, req.col);
      LookUpResult(e.tables, fileID, LookUpRequest(at, at))
        == Ok(LookUpResponse(at, CellPos(req.row + 1, req.col + 1), [[req.newValue]]))
  {
    var e := UpdateValueEffect(tables, fileID, DecodeOk(req));
    var at := CellPos(req.row, req.col);
    UpdateValueSetsCell(tables, fileID, req);
    var r := LookUpResult(e.tables, fileID, LookUpRequest(at, at));
    LookUpFailures(e.tables, fileID, LookUpRequest(at, at));
    LookUpItems(e.tables, fileID, LookUpRequest(at, at));
    assert r.Ok?;
    var items := r.value.items;
    assert |items| == 1;
    assert items[0] == e.tables[fileID].cells[req.row][req.col..req.col + 1];
    assert items[0] == [req.newValue];
    assert items == [[req.newValue]];
    assert r.value.from == at;
  }

  /** Two updates of the same cell, in processing order: a look-up of the
      cell afterwards sees the second value, whatever the first one was. */
  lemma LastWriteWins(tables: map<string, Table>, fileID: string,
                      first: UpdateValueRequest, second: UpdateValueRequest)
    requires AllWellFormed(tables)
    requires fileID in tables && 0 <= first.col < tables[fileID].cols
    requires 0 <= first.row < |tables[fileID].cells|
    requires second.row == first.row && second.col == first.col
    ensures var e1 := UpdateValueEffect(tables, fileID, DecodeOk(first));
      var e2 := UpdateValueEffect(e1.tables, fileID, DecodeOk(second));
      var at := CellPos(first.row, first.col);
      LookUpResult(e2.tables, fileID, LookUpRequest(at, at)).Ok? &&
      LookUpResult(e2.tables, fileID, LookUpRequest(at, at)).value.items == [[second.newValue]]
  {
    var e1 := UpdateValueEffect(tables, fileID, DecodeOk(first));
    UpdateValueSetsCell(tables, fileID, first);
    ReadYourWrite(e1.tables, fileID, second);
  }

  /** On a fresh 100 x 26 table, look-up of (1,1)..(3,3) returns three rows of
      three empty cells with corners (1,1) and (4,4). */
  lemma FreshTableLookUp()
    ensures LookUpResult(map["T1" := Blank(100, 26)], "T1",
                         LookUpRequest(CellPos(1, 1), CellPos(3, 3)))
      == Ok(LookUpResponse(CellPos(1, 1), CellPos(4, 4), [["", "", ""], ["", "", ""], ["", "", ""]]))
  {
    var tables := map["T1" := Blank(100, 26)];
    var req := LookUpRequest(CellPos(1, 1), CellPos(3, 3));
    LookUpFailures(tables, "T1", req);
    LookUpItems(tables, "T1", req);
    var r := LookUpResult(tables, "T1", req);
    assert r.Ok?;
    var items := r.value.items;
    assert |items| == 3;
    forall k | 0 <= k < 3
      ensures items[k] == ["", "", ""]
    {
      var row := tables["T1"].cells[1 + k];
      assert |row| == 26 && row[1] == "" && row[2] == "" && row[3] == "";
      assert items[k] == row[1..4];
    }
    assert items == [["", "", ""], ["", "", ""], ["", "", ""]];
  }

  /** A look-up that starts at a negative column fails once any row is
      selected: with (-5,-5)..(1,1) on a fresh 100 x 26 table the query
      selects two columns but scans into seven targets. */
  lemma NegativeStartLookUp()
    ensures LookUpResult(map["T1" := Blank(100, 26)], "T1",
                         LookUpRequest(CellPos(-5, -5), CellPos(1, 1)))
      == Err(ScanMismatch(2, 7))
  {
    var tables := map["T1" := Blank(100, 26)];
    var req := LookUpRequest(CellPos(-5, -5), CellPos(1, 1));
    LookUpFailures(tables, "T1", req);
  }

  // ---------------------------------------------------------------------
  // The size of the scan targets

  /** Go's largest single allocation on 64-bit Linux, 2^48 bytes. */
  const MaxAlloc: int := 0x1_0000_0000_0000

  /** The size of one `interface{}` scan target. */
  const ScanTargetSize: int := 16

  /** SQLite's hard upper bound on the number of columns of a table. */
  const MaxColumns: int := 32767

  /** As written, each returned row gets `make([]interface{}, width)`: when
      rows come back and `width` targets need more than MaxAlloc bytes, the
      allocation panics in the coordinator and ends the server. */
  predicate ScanPanics(tables: map<string, Table>, fileID: string, req: LookUpRequest)
    requires AllWellFormed(tables)
  {
    var from := ClampFrom(req);
    var sel := Select(tables, fileID, ColumnSpan(from.col, ExclusiveTo(req).col), Height(req), from.row);
    sel.Ok? && sel.value != [] && Width(req) * ScanTargetSize > MaxAlloc
  }

  /** Whenever rows reach the scan, the width is positive, so the allocation
      can fail only by size, never by a negative length. */
  lemma ScanWidthPositive(tables: map<string, Table>, fileID: string, req: LookUpRequest)
    requires AllWellFormed(tables)
    requires var from := ClampFrom(req);
      Select(tables, fileID, ColumnSpan(from.col, ExclusiveTo(req).col), Height(req), from.row).Ok?
    ensures Width(req) >= 1
  {
    var from := ClampFrom(req);
    assert ColumnSpan(from.col, ExclusiveTo(req).col) != [];
  }

  /** The request that panics as written: one row comes back from a fresh
      100 x 26 table, and its 2^44 + 1 scan targets need more than 2^48 bytes.
      The model answers it with a scan-mismatch error instead. */
  lemma ScanPanicsAsWritten()
    ensures ScanPanics(map["T1" := Blank(100, 26)], "T1",
                       LookUpRequest(CellPos(0, -0x1000_0000_0000), CellPos(0, 0)))
    ensures LookUpResult(map["T1" := Blank(100, 26)], "T1",
                         LookUpRequest(CellPos(0, -0x1000_0000_0000), CellPos(0, 0)))
      == Err(ScanMismatch(1, 0x1000_0000_0001))
  {
    var tables := map["T1" := Blank(100, 26)];
    var req := LookUpRequest(CellPos(0, -0x1000_0000_0000), CellPos(0, 0));
    var columns := ColumnSpan(0, 1);
    assert columns == [0];
    var rows := SliceRows(tables["T1"].cells, 1, 0);
    assert |rows| == 1;
    assert Select(tables, "T1", columns, Height(req), 0).Ok?;
    LookUpFailures(tables, "T1", req);
  }

  /** In the model every request that panics as written gets exactly one
      error reply, a scan mismatch, and the coordinator carries on. */
  lemma OversizedScanIsError(tables: map<string, Table>, fileID: string, payload: string, req: LookUpRequest)
    requires AllWellFormed(tables) && payload != ""
    requires fileID in tables && tables[fileID].cols <= MaxColumns
    requires ScanPanics(tables, fileID, req)
    ensures var from := ClampFrom(req);
      var n := |ColumnSpan(from.col, ExclusiveTo(req).col)|;
      && LookUpResult(tables, fileID, req) == Err(ScanMismatch(n, Width(req)))
      && LookUpReplies(tables, fileID, payload, DecodeOk(req)) == [ErrorReply(ScanMismatch(n, Width(req)))]
  {
    var from := ClampFrom(req);
    var to := ExclusiveTo(req);
    var columns := ColumnSpan(from.col, to.col);
    assert columns != [] && ColumnsExist(tables[fileID], columns);
    assert columns[|columns| - 1] == to.col - 1;
    assert |columns| <= tables[fileID].cols;
  }

  /** The column-list loop of the look-up handler. */
  method SelectedColumns(from: int, to: int) returns (columns: seq<int>)
    ensures columns == ColumnSpan(from, to)
  {
    columns := [];
    var c := from;
    while c < to
      invariant from <= c <= Max(from, to)
      invariant columns == ColumnSpan(from, c)
    {
      columns := columns + [c];
      c := c + 1;
    }
  }

  /** The row loop of the look-up handler: each result row, which has
      `columns` values, is scanned into `width` strings; the first row that
      does not fit ends the loop with an error. */
  method ScanRows(rows: seq<seq<string>>, columns: nat, width: int) returns (r: Result<seq<seq<string>>, Failure>)
    requires forall k :: 0 <= k < |rows| ==> |rows[k]| == columns
    ensures r == if rows != [] && width != columns then Err(ScanMismatch(columns, width)) else Ok(rows)
  {
    var items: seq<seq<string>> := [];
    var i := 0;
    while i < |rows|
      invariant 0 <= i <= |rows| && items == rows[..i]
      invariant i > 0 ==> width == columns
    {
      if |rows[i]| != width {
        return Err(ScanMismatch(|rows[i]|, width));
      }
      items := items + [rows[i]];
      i := i + 1;
    }
    assert items == rows;
    r := Ok(items);
  }

  // ---------------------------------------------------------------------
  // The coordinator

  /** The replies a message makes the coordinator send to its sender: none
      for an update-config, those of the update's effect for an update-value,
      those of the look-up for a look-up. A send waits only when one of these
      finds the queue full. */
  function MessageReplies(tables: map<string, Table>, m: Message,
                          lookUp: Decoded<LookUpRequest>, update: Decoded<UpdateValueRequest>)
    : (replies: seq<Reply>)
    requires AllWellFormed(tables)
    ensures |replies| <= 1
    ensures m.purpose == UpdateConfig ==> replies == []
    ensures m.purpose == UpdateValue ==> replies == UpdateValueEffect(tables, m.client.fileID, update).replies
    ensures m.purpose == LookUp ==> replies == LookUpReplies(tables, m.client.fileID, m.payload, lookUp)
  {
    match m.purpose
    case UpdateConfig => []
    case UpdateValue => UpdateValueEffect(tables, m.client.fileID, update).replies
    case LookUp => LookUpReplies(tables, m.client.fileID, m.payload, lookUp)
  }

  class Hub {
    var clients: set<Client>
    const db: Database

    /** Registered clients have open queues with room to spare, and the
        database's tables are rectangular. */
    ghost predicate Valid()
      reads this, db, clients
    {
      db.Valid() && forall c :: c in clients ==> !c.closed && |c.send| <= SendCapacity
    }

    constructor (db: Database)
      requires db.Valid()
      ensures Valid() && clients == {} && this.db == db
    {
      this.db := db;
      clients := {};
    }

    /** A register event adds the client and changes nothing else. */
    method Register(client: Client)
      requires Valid() && !client.closed && |client.send| <= SendCapacity
      modifies this
      ensures Valid() && clients == old(clients) + {client}
    {
      clients := clients + {client};
    }

    /** An unregister event removes a registered client and closes its queue,
        which was open; for a client not registered it does nothing, so no
        queue is ever closed twice. */
    method Unregister(client: Client)
      requires Valid()
      modifies this, client`closed
      ensures Valid()
      ensures client in old(clients) ==>
        clients == old(clients) - {client} && !old(client.closed) && client.closed
      ensures client !in old(clients) ==>
        clients == old(clients) && client.closed == old(client.closed)
    {
      if client in clients {
        clients := clients - {client};
        client.Close();
      }
    }

    /** A message event. It never changes the client set, queues replies only
        for the sender, and: an update-config changes nothing; an update-value
        has the effect UpdateValueEffect; a look-up changes no table and
        queues LookUpReplies. */
    method HandleMessage(m: Message, lookUp: Decoded<LookUpRequest>, update: Decoded<UpdateValueRequest>)
      requires Valid() && m.client in clients
      requires |m.client.send| + |MessageReplies(db.tables, m, lookUp, update)| <= SendCapacity
      modifies m.client`send, db`tables
      ensures Valid() && clients == old(clients) && db.configs == old(db.configs)
      ensures forall c :: c in clients && c != m.client ==> c.send == old(c.send)
      ensures m.purpose == UpdateConfig ==>
        db.tables == old(db.tables) && m.client.send == old(m.client.send)
      ensures m.purpose == UpdateValue ==>
        var e := UpdateValueEffect(old(db.tables), m.client.fileID, update);
        db.tables == e.tables && m.client.send == old(m.client.send) + e.replies
      ensures m.purpose == LookUp ==>
        db.tables == old(db.tables) &&
        m.client.send == old(m.client.send) + LookUpReplies(old(db.tables), m.client.fileID, m.payload, lookUp)
    {
      match m.purpose {
        case UpdateConfig =>
        case UpdateValue =>
          match update {
            case DecodeError(reason) =>
              m.client.Enqueue(ErrorReply(BadPayload(reason)));
            case DecodeOk(req) =>
              var err := db.Update(m.client.fileID, req.row, req.col, req.newValue);
              if err.Some? {
                m.client.Enqueue(ErrorReply(StorageFailure(err.value)));
              }
          }
        case LookUp =>
          HandleLookUp(m, lookUp);
      }
    }

    /** The look-up handler: nothing for an empty payload, otherwise exactly
        one reply to the sender. */
    method HandleLookUp(m: Message, lookUp: Decoded<LookUpRequest>)
      requires Valid() && m.client in clients
      requires |m.client.send| + |LookUpReplies(db.tables, m.client.fileID, m.payload, lookUp)| <= SendCapacity
      modifies m.client`send
      ensures Valid()
      ensures m.client.send == old(m.client.send) + LookUpReplies(db.tables, m.client.fileID, m.payload, lookUp)
    {
      if m.payload == "" {
        return;
      }
      var req: LookUpRequest;
      match lookUp {
        case DecodeError(reason) =>
          m.client.Enqueue(ErrorReply(BadPayload(reason)));
          return;
        case DecodeOk(r) =>
          req := r;
      }
      var width := req.to.col - req.from.col + 1;
      var height := req.to.row - req.from.row + 1;
      var from := CellPos(Max(0, req.from.row), Max(0, req.from.col));
      var to := CellPos(req.to.row + 1, req.to.col + 1);
      var columns := SelectedColumns(from.col, to.col);
      var query := db.Query(m.client.fileID, columns, height, from.row);
      if query.Err? {
        m.client.Enqueue(ErrorReply(StorageFailure(query.error)));
        return;
      }
      var scanned := ScanRows(query.value, |columns|, width);
      if scanned.Err? {
        m.client.Enqueue(ErrorReply(scanned.error));
        return;
      }
      var items := scanned.value;
      m.client.Enqueue(LookUpReply(LookUpResponse(from, to, items)));
    }
  }
}
