/** The change messages handed to consumers: a header shared by every kind
    of message and one variant per message type (package `messages`). */
module Messages {

  /** Go's fixed-width unsigned integers, as ranges of `nat`; the model does
      no arithmetic on them. */
  type uint32 = x: nat | x < 0x1_0000_0000
  type uint64 = x: nat | x < 0x1_0000_0000_0000_0000

  /** A column value as the binlog decoder delivers it (`interface{}`);
      the model only moves values around, it never inspects them. */
  datatype Value = NullValue | IntValue(i: int) | StringValue(s: string)

  /** The RFC 3339 text of a unix time, in UTC or in the time zone of the
      running process. The text itself is produced by Go's `time` package
      and is not modelled: two headers carry the same text exactly when they
      were built from the same time in the same zone. */
  datatype TimeText = Rfc3339Utc(unixSeconds: nat) | Rfc3339Local(unixSeconds: nat)

  datatype MessageType = MessageInsert | MessageUpdate | MessageDelete | MessageQuery
  {
    /** The `Type` string a message carries. */
    function Tag(): (t: string)
      ensures |t| == 6 || |t| == 5
    {
      match this
      case MessageInsert => "Insert"
      case MessageUpdate => "Update"
      case MessageDelete => "Delete"
      case MessageQuery => "Query"
    }
  }

  /** The four type tags are pairwise distinct. */
  lemma TagsDistinct(a: MessageType, b: MessageType)
    ensures a.Tag() == b.Tag() <==> a == b
  {
  }

  datatype MessageHeader = MessageHeader(
    schema: string,
    table: string,
    binlogMessageTime: TimeText,
    binlogPosition: uint32,
    xId: uint64,
    gtid: string)

  /** Builds a header; the GTID field is the one the commit path fills in
      with the transaction's drained GTID. */
  function NewMessageHeader(schema: string, table: string, timestamp: nat, binlogPosition: uint32, xId: uint64, gtid: string)
    : (h: MessageHeader)
    ensures h.schema == schema && h.table == table
    ensures h.binlogPosition == binlogPosition && h.xId == xId && h.gtid == gtid
    ensures h.binlogMessageTime.Rfc3339Utc? && h.binlogMessageTime.unixSeconds == timestamp
  {
    MessageHeader(schema, table, Rfc3339Utc(timestamp), binlogPosition, xId, gtid)
  }

  /** A row keyed by column name, with the notice the mapper attaches when
      the row and the column list disagree in length ("" when they agree). */
  datatype MessageRowData = MessageRowData(row: map<string, Value>, mappingNotice: string)

  datatype Message =
    | QueryMessage(header: MessageHeader, query: string)
    | UpdateMessage(header: MessageHeader, oldData: MessageRowData, newData: MessageRowData)
    | InsertMessage(header: MessageHeader, data: MessageRowData)
    | DeleteMessage(header: MessageHeader, data: MessageRowData)
  {
    function GetHeader(): MessageHeader
    {
      header
    }

    function GetType(): (t: MessageType)
      ensures t == MessageQuery <==> QueryMessage?
      ensures t == MessageUpdate <==> UpdateMessage?
      ensures t == MessageInsert <==> InsertMessage?
      ensures t == MessageDelete <==> DeleteMessage?
    {
      match this
      case QueryMessage(_, _) => MessageQuery
      case UpdateMessage(_, _, _) => MessageUpdate
      case InsertMessage(_, _) => MessageInsert
      case DeleteMessage(_, _) => MessageDelete
    }
  }

  function NewQueryMessage(header: MessageHeader, query: string): (m: Message)
    ensures m.GetType().Tag() == "Query" && m.GetHeader() == header
    ensures m.QueryMessage? && m.query == query
  {
    QueryMessage(header, query)
  }

  function NewUpdateMessage(header: MessageHeader, oldData: MessageRowData, newData: MessageRowData): (m: Message)
    ensures m.GetType().Tag() == "Update" && m.GetHeader() == header
    ensures m.UpdateMessage? && m.oldData == oldData && m.newData == newData
  {
    UpdateMessage(header, oldData, newData)
  }

  function NewInsertMessage(header: MessageHeader, data: MessageRowData): (m: Message)
    ensures m.GetType().Tag() == "Insert" && m.GetHeader() == header
    ensures m.InsertMessage? && m.data == data
  {
    InsertMessage(header, data)
  }

  function NewDeleteMessage(header: MessageHeader, data: MessageRowData): (m: Message)
    ensures m.GetType().Tag() == "Delete" && m.GetHeader() == header
    ensures m.DeleteMessage? && m.data == data
  {
    DeleteMessage(header, data)
  }
}
