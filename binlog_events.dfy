/** The decoded binlog events, as the replication library hands them to the
    parser. Decoding the binary format is not part of this model: events
    arrive as values of these types. */
module BinlogEvents {

  import opened Messages

  /** The event types the parser distinguishes; every other type code is
      `UnknownType`. */
  datatype EventType =
    | GtidType
    | QueryType
    | XidType
    | TableMapType
    | WriteRowsV1 | UpdateRowsV1 | DeleteRowsV1
    | WriteRowsV2 | UpdateRowsV2 | DeleteRowsV2
    | UnknownType(code: nat)
  {
    predicate IsWriteRows() { this == WriteRowsV1 || this == WriteRowsV2 }
    predicate IsUpdateRows() { this == UpdateRowsV1 || this == UpdateRowsV2 }
    predicate IsDeleteRows() { this == DeleteRowsV1 || this == DeleteRowsV2 }
    predicate IsRows() { IsWriteRows() || IsUpdateRows() || IsDeleteRows() }
  }

  type RowsEventType = t: EventType | t.IsRows() witness WriteRowsV1

  datatype EventHeader = EventHeader(timestamp: uint32, eventType: EventType, logPos: uint32)

  datatype QueryEvent = QueryEvent(schema: string, query: string)

  datatype RowsEvent = RowsEvent(tableId: uint64, rows: seq<seq<Value>>)

  /** The typed body of an event. */
  datatype Payload =
    | Gtid(sid: seq<bv8>, gno: int)
    | Query(queryEvent: QueryEvent)
    | Xid(xid: uint64)
    | TableMap(tableId: uint64, schema: string, table: string)
    | Rows(rowsType: RowsEventType, rowsEvent: RowsEvent)
    | Unknown(code: nat)

  /** One decoded event. The header's event type is derived from the body,
      so an event whose header and body disagree cannot be built. */
  datatype BinlogEvent = BinlogEvent(timestamp: uint32, logPos: uint32, payload: Payload)
  {
    function Header(): (h: EventHeader)
      ensures h.timestamp == timestamp && h.logPos == logPos
      ensures payload.Rows? <==> h.eventType.IsRows()
    {
      var t := match payload
        case Gtid(_, _) => GtidType
        case Query(_) => QueryType
        case Xid(_) => XidType
        case TableMap(_, _, _) => TableMapType
        case Rows(rowsType, _) => rowsType
        case Unknown(code) => UnknownType(code);
      EventHeader(timestamp, t, logPos)
    }
  }
}
