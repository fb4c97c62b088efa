/** The records a client sends and the replies the coordinator queues for it
    (websocket-server.go, lines 34-54). */
module Protocol {
  import opened Store

  datatype CellPos = CellPos(row: int, col: int)

  /** A rectangle request; both corners are inclusive. */
  datatype LookUpRequest = LookUpRequest(from: CellPos, to: CellPos)

  datatype LookUpResponse = LookUpResponse(from: CellPos, to: CellPos, items: seq<seq<string>>)

  datatype UpdateValueRequest = UpdateValueRequest(newValue: string, row: int, col: int)

  /** What the JSON decoder made of a payload. The decoder is not part of the
      model, so its verdict is an input to the handlers. */
  datatype Decoded<T> = DecodeOk(value: T) | DecodeError(reason: string)

  /** Why a request got an `{"error": ...}` reply. */
  datatype Failure =
    | BadPayload(reason: string)                  // the JSON decoder refused the payload
    | StorageFailure(error: StoreError)           // the database refused the statement
    | ScanMismatch(columns: nat, destinations: int) // a result row did not fit the scan targets

  /** One outbound message. */
  datatype Reply = ErrorReply(failure: Failure) | LookUpReply(response: LookUpResponse)
}
