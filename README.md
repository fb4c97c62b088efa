# Spreadsheet hub model

This project models the server core of a small browser spreadsheet.

- **Files.** Each spreadsheet file has a row of settings in a `config` table. It also has its own SQL table of text cells.
- **Opening a file.** The HTTP handler `HandleOpenFile` loads the settings of a stored file. For a new file it stores the default settings and creates a 100 × 26 table of empty cells.
- **Connections.** Each browser tab holds a websocket connection bound to one file. The connection's reader turns every inbound text frame into a verb and a JSON payload. The verbs are `look-up`, `update-value` and `update-config`. The reader forwards the result to a single coordinator. The connection's writer drains an outbound queue of at most 256 replies. All replies queued at the moment of writing go out in one frame, separated by newlines.
- **The coordinator.** It keeps the set of registered connections and processes one event at a time. It adds a connection on register. On unregister it removes the connection and closes its queue, but only if the connection is registered. It handles messages as follows:
  - An `update-value` writes one cell.
  - A `look-up` reads a rectangle of cells.
  - An `update-config` does nothing.
  - Replies go only to the sender. A successful update sends no reply and is not broadcast to other connections.
- **Byte helpers.** A helper file has byte-classification and case-conversion functions and a base-27 column-name function.

## How it is modelled

| module | file | models |
|---|---|---|
| `Utils` | `utils.dfy` | `utils.go`: byte predicates and conversions in Go byte arithmetic, `min`, `max`, `numberToString` |
| `Store` | `store.dfy` | the SQLite database. Tables are keyed by file ID. Row `r` of a table is the row whose `row` column is `r`. A `Database` class holds `configs` and `tables`. Creating a table follows SQLite's naming rules: names are compared without regard to ASCII case, `config` is always taken by the settings table, and `sqlite_` names are reserved |
| `Protocol` | `protocol.dfy` | the request and response records of the coordinator, and the replies it queues |
| `Pump` | `pump.dfy` | a connection (`Client` class with its `send` queue and `closed` flag), frame decoding, the read loop and one turn of the write loop |
| `Server` | `server.dfy` | the coordinator (`Hub` class) and the look-up and update-value semantics as functions, with lemmas about them |
| `App` | `app.dfy` | `HandleOpenFile`: the default settings, the stored and reloaded settings row, the column-definition loop and the table-creation loop |

Modelling choices:

- **JSON decoding** is an input to the handlers: `Decoded<T>` carries either the decoded request or the decoder's error text.
- **Encoding** of a reply is a parameter `encode` of the writer.
- **Channel sends** become preconditions. Sending on a closed queue panics, and sending on a full queue waits, so `Client.Enqueue` requires an open queue with room. The coordinator's handlers require room only for the replies the message actually produces (`Server.MessageReplies`): an update-config, a successful update-value and an empty look-up send nothing and go ahead even when the queue is full. `Client.Close` requires an open queue, because closing twice panics. `Hub.Unregister` is proved never to call it twice.
- **SQL statements** become operations on the store with the same outcomes:
  - An `UPDATE` of a column that does not exist is an error.
  - An `UPDATE` of a row number that matches no row changes nothing.
  - A `SELECT` with an empty column list fails to parse.
  - A negative `LIMIT` means no limit.

Where the code behaves in a way a reader might not expect, the model follows the code:

- **Negative start column.** A look-up whose first column is negative does not succeed with clamped bounds. The query selects the clamped columns, but each row is scanned into `to.col - from.col + 1` targets computed from the unclamped request. So the scan fails as soon as a row is returned. `Server.NegativeStartLookUp` shows this for `(-5,-5)..(1,1)`: it selects 2 columns and scans into 7 targets. `Server.LookUpFailures` states exactly when it happens.
- **Unrecognised verb.** A frame with an unknown verb is dispatched as a look-up, because `LookUp` is the zero value of the purpose type. It is not a no-op.
- **Out-of-range row.** An update addressed to a row that does not exist reports no error and changes nothing. Only an unknown column or table is an error.
- **Reloaded settings.** The settings row is stored with `rows` before `cols` but scanned back with `Cols` before `Rows`. A reopened file therefore reports its row and column counts exchanged (`App.ReloadSwapsExtent`, `App.ReopenedDefault`).

## Model

| member | source | states |
|---|---|---|
| Utils.ClassificationRanges | utils.go:3-17 | The upper-case test rejects 'Y' and 'Z'. Every accepted upper-case byte has its lower-case partner 32 above, but a lower-case letter has its upper-case partner accepted only up to 'x'. No letter is a digit. |
| Utils.ToUpperCaseByte | utils.go:19-29 | Accepted upper-case bytes are unchanged. A lower-case byte c becomes c+32 (in 129..154, wrapping byte arithmetic). Every other byte becomes 0. |
| Utils.ToLowerCaseByte | utils.go:31-41 | Lower-case bytes are unchanged. An accepted upper-case byte c becomes c-32 (in 33..56). Every other byte becomes 0. |
| Utils.CaseConversionAsWritten | utils.go:3-41 | 'Z' converts to 0 both ways, 'a' upper-cases to 129 and 'A' lower-cases to '!'. No letter ever converts to a letter of the other case. |
| Utils.UpperLetterRange | utils.go:3-5 | The corrected upper-case test accepts 'Y' and 'Z'. Below 224, a byte is an upper-case letter exactly when the byte 32 above it is lower case. |
| Utils.ToUpper | utils.go:19-29 | The corrected upper-casing maps a lower-case letter c to c-32, which is an upper-case letter, and leaves upper-case letters unchanged. |
| Utils.ToLower | utils.go:31-41 | The corrected lower-casing maps an upper-case letter c to c+32, which is a lower-case letter, and leaves lower-case letters unchanged. |
| Utils.CaseRoundTrip | utils.go:19-41 | The corrected conversions undo each other on letters of either case. |
| Utils.Min | utils.go:43-48 | The result is one of the arguments and is at most both. |
| Utils.Max | utils.go:50-55 | The result is one of the arguments and is at least both. |
| Utils.NumberToString | utils.go:57-68 | The loop yields `Base27(value)`: the base-27 digits of the value ('@' is 0, 'A'..'Z' are 1..26), most significant first. |
| Utils.Base27Shape | utils.go:57-68 | The digit string is empty iff the value is not positive. Every character is in '@'..'Z', and the first one is never '@'. |
| Utils.Base27RoundTrip | utils.go:57-68 | Reading the digit string back gives the value, so distinct values get distinct names. |
| Utils.Base27Length | utils.go:57-68 | The name of a positive value has n characters exactly when 27^(n-1) <= value < 27^n. |
| Store.Blank | main.go:176-189 | A new table has the given numbers of rows and columns, every cell "". |
| Store.WriteCell | websocket-server.go:160-161 | The update fails (unknown column) exactly when the column is outside the table. Otherwise only the addressed cell takes the value, and a row that does not exist changes nothing. |
| Store.UpdateTables | websocket-server.go:160-161 | The update fails exactly when the file has no table or the column is outside it. Tables of other files are untouched and every table stays rectangular. |
| Store.SliceRows | websocket-server.go:84 | `LIMIT height OFFSET from.row`: consecutive rows starting at the offset, as many as remain up to the limit (all of them for a negative limit), none past the end. |
| Store.Select | websocket-server.go:84-86 | The query succeeds exactly when columns are listed, the file's table exists and every column exists (column names read strictly, see Left out). Each result row has one value per listed column. |
| Store.Database.FindConfig | main.go:112-118 | Returns the stored settings row of the ID if there is one, otherwise none. |
| Store.Database.InsertConfig | main.go:140-150 | Stores the settings row under its ID and changes nothing else; the tables stay rectangular for the `CreateTable` that follows. |
| Store.CreateErrorCases | main.go:165-173 | Creating a file's table fails exactly when its name is one of SQLite's `sqlite_` names, or equals the settings table's name `config` or an existing table's name up to ASCII case. In particular `config` and `Config` clash with the settings table created at main.go:210-219, and every file table's own name is taken. |
| Store.Database.CreateTable | main.go:165-166 | Reports what `CreateError` says for the current tables. On an error the tables stay as they were; otherwise an empty table with the given column count is added under the name. |
| Store.Database.InsertRow | main.go:176-180 | Appends one row to the file's table. |
| Store.Database.Update | websocket-server.go:160-161 | Reports the error of `UpdateTables` and changes nothing, or installs its result. |
| Store.Database.Query | websocket-server.go:84-86 | Returns what `Select` gives on the current tables and changes nothing. |
| Pump.Client.constructor | websocket-client.go:155 | A new connection is bound to its file and has an empty, open queue. |
| Pump.Client.Enqueue | websocket-server.go:156-163 | Sending a reply appends it at the end of the queue. |
| Pump.Client.Close | websocket-server.go:139 | Closing the queue marks it closed. |
| Pump.Client.WriteStep | websocket-client.go:109-136 | A closed, drained queue yields the close frame. Otherwise the frame is the encoded replies, in queue order, joined by "\n", and the queue is left empty. |
| Pump.Split | websocket-client.go:85 | Splitting gives at least one piece, and no piece contains the separator. |
| Pump.JoinSplit | websocket-client.go:85-86 | Joining the pieces of a split restores the text. |
| Pump.SplitJoin | websocket-client.go:124-130 | Splitting a join restores the parts when none contains the separator. |
| Pump.BatchSplitsBack | websocket-client.go:124-130 | A batched frame splits on "\n" back into the individual encoded replies when no encoding contains a newline. |
| Pump.ReplaceNewlines | websocket-client.go:84 | Same length. Every newline becomes a space and every other character stays in place. |
| Pump.TrimLeftSpaceShape | websocket-client.go:84 | Trimming on the left keeps a suffix of the input, drops only white space, and the result does not start with white space. |
| Pump.TrimRightSpaceShape | websocket-client.go:84 | Trimming on the right keeps a prefix of the input, drops only white space, and the result does not end with white space. |
| Pump.TrimSpaceShape | websocket-client.go:84 | `bytes.TrimSpace` keeps a contiguous piece of the input that neither starts nor ends with white space. Everything dropped on either side is white space. |
| Pump.NormalizeNoNewline | websocket-client.go:84 | The normalised frame holds no newline. |
| Pump.PurposeOfVerbs | websocket-client.go:88-96 | Each of the three verbs selects its purpose. A verb selects look-up exactly when it is neither "update-value" nor "update-config", so unknown verbs are look-ups. |
| Pump.DecodeFrameParts | websocket-client.go:84-96 | The verb is the normalised frame up to its first space and the payload is everything after that space. Without a space, the payload is empty. The payload never holds a newline. |
| Pump.EmptyFrameIsLookUp | websocket-client.go:84-96 | An empty or all-white-space frame is a look-up with an empty payload. |
| Pump.ReadLoop | websocket-client.go:75-99 | Every frame read is forwarded, in order, as exactly one message: `Forward`, which carries the reading client and the purpose and payload of `DecodeFrame`. |
| Server.ColumnSpan | websocket-server.go:78-82 | The selected column indices are from.col, from.col+1, …, to.col-1; none when to.col <= from.col. |
| Server.SelectedColumns | websocket-server.go:78-82 | The column-list loop produces `ColumnSpan(from.col, to.col)`. |
| Server.ScanRows | websocket-server.go:93-115 | The scan loop returns all rows in order when the scan width matches each row, and fails with the column count and width as soon as one row does not fit. |
| Server.LookUpReplies | websocket-server.go:56-123 | An empty payload produces no reply. Any other payload produces exactly one reply: the decoder's error when decoding fails, otherwise the response or failure of `LookUpResult`, whose bounds, items and failures the lemmas below state. As written, a scan too large to allocate panics instead of replying (see Findings). |
| Server.LookUpBounds | websocket-server.go:68-75 | On success the response's `from` is the request's first cell clamped to be non-negative, and its `to` is the last cell plus one, unclamped. |
| Server.SelectSpan | websocket-server.go:78-86 | Selecting a span of existing columns returns, for each selected row, the slice of the row between the span's ends. |
| Server.LookUpItems | websocket-server.go:76-115 | On success the items are consecutive table rows starting at from.row, up to the height or the table's end (all rows for a negative height). Each is the slice from.col..to.col of its row. |
| Server.WidthMatchesColumns | websocket-server.go:68-82 | The scan width equals the number of selected columns exactly when the requested first column is non-negative. |
| Server.LookUpFailures | websocket-server.go:78-104 | The look-up fails in these cases, in this order: no column selected, no table for the file, a column past the table (under the strict reading of column names, see Left out), or rows returned while the request started at a negative column. It fails in no other case. As written, a scan too large to allocate panics instead (see Findings). |
| Server.UpdateValueEffect | websocket-server.go:151-165 | An update-value produces at most one reply, always an error, and then leaves the tables unchanged. A decoded update succeeds exactly when the file's table exists and the column lies inside it. Other files' tables never change. |
| Server.UpdateValueSetsCell | websocket-server.go:160-165 | A successful update sets exactly the addressed cell and sends no reply. An update of a row that does not exist leaves every table unchanged. |
| Server.ReadYourWrite | websocket-server.go:56-165 | After a successful update, a look-up of that single cell, from any connection bound to the same file, returns exactly the new value. |
| Server.LastWriteWins | websocket-server.go:56-165 | After two updates of the same cell, a look-up of it returns the second value. |
| Server.FreshTableLookUp | websocket-server.go:56-123 | On a new 100 × 26 table, the look-up (1,1)..(3,3) returns three rows of three empty cells with corners (1,1) and (4,4). |
| Server.ScanWidthPositive | websocket-server.go:68-94 | Whenever rows reach the scan, the scan width is at least 1, so `make` at line 94 can fail only by size, never by a negative length. |
| Server.ScanPanicsAsWritten | websocket-server.go:68-104 | On a new 100 × 26 table, the look-up (0,-2^44)..(0,0) returns one row whose 2^44+1 scan targets need more than Go's 2^48-byte allocation limit, so it panics as written. The model answers it with the error ScanMismatch(1, 2^44+1). |
| Server.OversizedScanIsError | websocket-server.go:56-123 | On any table within SQLite's column limit, every look-up whose scan panics as written gets exactly one reply in the model: the scan-mismatch error. |
| Server.NegativeStartLookUp | websocket-server.go:68-104 | On a new 100 × 26 table, the look-up (-5,-5)..(1,1) fails: the scan has 7 targets for 2 selected columns. |
| Server.Hub.constructor | websocket-server.go:25-32 | The coordinator starts with no registered connections. |
| Server.Hub.Register | websocket-server.go:129-131 | A register event adds the connection and changes nothing else. |
| Server.Hub.Unregister | websocket-server.go:133-140 | A registered connection is removed and its open queue closed. An unregistered one is ignored, so no queue is closed twice. |
| Server.MessageReplies | websocket-server.go:142-170 | A message yields at most one reply: none for an update-config, the update's error reply if any for an update-value, and `LookUpReplies` for a look-up. |
| Server.Hub.HandleMessage | websocket-server.go:142-170 | Requires room only for the replies the message produces. The set of connections and the settings never change, and only the sender's queue grows. An update-config changes nothing. An update-value has the effect `UpdateValueEffect`. A look-up changes no table and queues `LookUpReplies`. |
| Server.Hub.HandleLookUp | websocket-server.go:56-124 | Requires room only for the reply it sends, so an empty payload needs none. The sender's queue grows by exactly `LookUpReplies` for the current tables. |
| App.ReloadSwapsExtent | main.go:116-150 | Storing and reloading settings exchanges the row and column counts and keeps every other field. The round trip is the identity exactly when the two counts are equal. |
| App.ReopenedDefault | main.go:116-150 | A new file, reopened, reports 100 columns and 26 rows. |
| App.Decimal | main.go:162 | `%d` of a non-negative number is a non-empty string of digits, in canonical form: "0" exactly for zero, and no leading '0' otherwise. |
| App.DecimalRoundTrip | main.go:162 | Reading the digits back gives the number, so the column names are distinct. |
| App.TrimRight | main.go:164 | The result is a prefix of the input, everything dropped is in the cut set, and the result does not end in the cut set. |
| App.TrimSeparator | main.go:164 | Trimming the trailing ", " after a definition ending in 'L' restores the joined definitions. |
| App.CommaJoinEnd | main.go:160-164 | The joined column definitions end with the last definition's final 'L'. |
| App.ColumnDefinitions | main.go:160-164 | The loop yields the definitions `"0" TEXT NOT NULL` … for columns 0..cols-1, separated by ", ", with no trailing separator. It is empty exactly when cols <= 0. |
| App.OpenFile | main.go:105-192 | A stored file is loaded with the swapped extent and nothing changes. A new file gets the default settings stored (26 columns, 100 rows, width 96, height 32, title "Untitled") and a 100 × 26 table of empty cells. If the table cannot be created, the open fails after storing the settings, with the error `CreateError` gives. This includes an ID that names an existing table, or names the settings table `config` in any case. |

## Left out

- HTTP routing, the home page, templates and `marshalAndRenderOpen`, `HandleConnectAPI`, the websocket upgrade, signals and `main`: these are plumbing around the core.
- Goroutines and channel scheduling. Each coordinator event runs to completion, and the order of events is the caller's choice. A blocked send on a full queue is a precondition of `Client.Enqueue`. `Pump.Client.WriteStep` assumes nothing is queued while it drains.
- The ping ticker, pong handler, read and write deadlines, the 512-byte read limit, and transport errors (including the writer's `log.Panicf` paths): these depend on time and the network.
- App.OpenFile: the table's name is written with Go's `%q` quoting. For an ID holding a quote, a backslash or a non-printable character, the SQL text then names a different table or fails to parse. The model names the table by the ID itself.
- Store.Select, Store.UpdateTables: a file's table is found by its exact ID. SQLite matches table names up to ASCII case and also finds the settings table. So a connection to ID `T1` would reach the table of file `t1`, and one to `config` gets a no-such-column error rather than no-such-table. The model does not capture either.
- The text of SQL statements and its quoting. In particular, the `%q` of an update's value is a double-quoted SQL token, which SQLite may read as a column name rather than a string. The store receives the intended value.
- Column names in a look-up's `SELECT` list are read strictly: a column past the table's last one is an error (`NoSuchColumn`). The source writes them as double-quoted `"%d"` tokens, and SQLite by default reads a double-quoted name that matches no column as a string literal, so such a look-up may instead return the column numbers as text. The model does not capture that fallback.
- JSON encoding and decoding. The decoder's verdict is an input, and the encoder is a parameter of the writer. The marshal-failure branch of the look-up reply cannot occur for these record types. The error text of replies is a structured `Failure` rather than a string, and the `"query"` field of look-up errors is left out.
- Database failures other than the ones modelled (I/O errors, locking), together with the `log.Panicf` branches of `HandleOpenFile` that handle them.
- Logging.
- Frames are modelled as character strings, not bytes. Invalid UTF-8 is not modelled.
- The `row` column of a file's table is identified with the row's position. Rows are only ever inserted as 0..rows-1 in order.
- 64-bit `int` overflow (for example `To.Row + 1` at the largest `int`): integers are unbounded.
- Resource limits of the look-up. The scan targets of each row (websocket-server.go:94) are one allocation, which panics above Go's 2^48-byte limit and ends the server. The model gives the ordinary scan-mismatch reply instead, and records the panic as a finding. The column-list loop (websocket-server.go:79-81) copies the growing string once per column, so a request spanning millions of columns stalls the coordinator for every connection before SQLite rejects the query. The model answers it with `NoSuchColumn` at once and does not capture the cost.
- `update-config` payloads are not decoded, because the source ignores them. Broadcasting successful updates to other connections is not added, because the source does not do it.
- A `CREATE TABLE` with zero columns, which SQLite rejects, is not modelled. The open handler always uses 26.

## Findings

| source | as written | input that shows it | evidently intended | confidence | as-written member | corrected member |
|---|---|---|---|---|---|---|
| utils.go:3-5 | the upper-case test accepts 'A'..'X' | 'Y' and 'Z' are neither upper case nor letters, and both convert to 0 | 'A'..'Z' | not executed | Utils.CaseConversionAsWritten | Utils.UpperLetterRange |
| utils.go:19-41 | the conversions add `'a' - 'A'` when upper-casing and subtract it when lower-casing | `ToUpperCaseByte('a')` is 129 and `ToLowerCaseByte('A')` is '!' | subtract 32 to upper-case and add 32 to lower-case, so the two conversions undo each other | not executed | Utils.CaseConversionAsWritten | Utils.CaseRoundTrip |
| websocket-server.go:94 | each returned row gets `make([]interface{}, width)` with `width` taken from the unclamped request, inside the coordinator with nothing to recover a panic | look-up (0,-2^44)..(0,0) on a new 100 × 26 table: one row comes back and 2^44+1 targets need 16·(2^44+1) bytes, more than 2^48, so `make` panics and the server exits | an error reply to the requester and the server carrying on, as for any other scan mismatch | not executed | Server.ScanPanicsAsWritten | Server.OversizedScanIsError |
