/** The first prototype of the parser (auditor/parse-binlog/parse.go). Rows
    are keyed by column name, with the unnamed positions numbered apart;
    each row event leaves behind message builders, closures waiting for the
    transaction id, and the XID event that ends the transaction applies
    them all. */
module Prototype {

  import opened Wrappers
  import opened Errors
  import Messages
  import Mapper = RowData
  import Database

  /** A row keyed by column name (`map[string]interface{}`). */
  type Row = map<string, Messages.Value>

  const OldNewPairsPanic: string := "update rows should be old/new pairs"
  const UpdateType: string := "UPDATE"
  const InsertType: string := "INSERT"
  const DeleteType: string := "DELETE"

  // ---------------------------------------------------------------------
  // RowData
  // ---------------------------------------------------------------------

  /** How many of the positions before `j` have no column name. */
  function Unnamed(j: nat, columnNames: map<int, string>): (r: nat)
    ensures r <= j
  {
    if j == 0 then 0
    else Unnamed(j - 1, columnNames) + (if j - 1 in columnNames then 0 else 1)
  }

  /** The key of the value at position `j`: its column name, or
      `(unknown_k)` with k the number of unnamed positions before it. */
  function KeyAt(j: nat, columnNames: map<int, string>): string
  {
    if j in columnNames then columnNames[j] else Mapper.UnknownKey(Unnamed(j, columnNames))
  }

  function Keys(n: nat, columnNames: map<int, string>): (keys: seq<string>)
    ensures |keys| == n
  {
    seq(n, j requires 0 <= j < n => KeyAt(j, columnNames))
  }

  /** One more position: its value is stored under its key. */
  lemma RowMapStep(row: seq<Messages.Value>, columnNames: map<int, string>, j: nat)
    requires j < |row|
    ensures Mapper.BuildRow(Keys(j + 1, columnNames), row[..j + 1])
         == Mapper.BuildRow(Keys(j, columnNames), row[..j])[KeyAt(j, columnNames) := row[j]]
  {
    assert Keys(j + 1, columnNames) == Keys(j, columnNames) + [KeyAt(j, columnNames)];
    assert row[..j + 1] == row[..j] + [row[j]];
    Mapper.BuildRowAppend(Keys(j, columnNames), row[..j], KeyAt(j, columnNames), row[j]);
  }

  /** One row: each value stored under its key in row order, a later value
      overwriting an earlier one with the same key. */
  function RowMap(row: seq<Messages.Value>, columnNames: map<int, string>): Row
  {
    Mapper.BuildRow(Keys(|row|, columnNames), row)
  }

  function RowMaps(rows: seq<seq<Messages.Value>>, columnNames: map<int, string>): (r: seq<Row>)
    ensures |r| == |rows|
  {
    seq(|rows|, i requires 0 <= i < |rows| => RowMap(rows[i], columnNames))
  }

  /** The body of the loop in `RowData`: one row, keyed position by
      position, counting the unnamed positions as it goes. */
  method KeyRow(row: seq<Messages.Value>, columnNames: map<int, string>) returns (data: Row)
    ensures data == RowMap(row, columnNames)
  {
    data := map[];
    var unknownCount := 0;
    for j := 0 to |row|
      invariant data == Mapper.BuildRow(Keys(j, columnNames), row[..j])
      invariant unknownCount == Unnamed(j, columnNames)
    {
      var columnName: string;
      if j in columnNames {
        columnName := columnNames[j];
      } else {
        columnName := Mapper.UnknownKey(unknownCount);
        unknownCount := unknownCount + 1;
      }
      assert columnName == KeyAt(j, columnNames);
      RowMapStep(row, columnNames, j);
      data := data[columnName := row[j]];
    }
    assert row[..|row|] == row;
  }

  /** `RowData`: one map per row, in row order. */
  method RowData(rows: seq<seq<Messages.Value>>, columnNames: map<int, string>) returns (ret: seq<Row>)
    ensures |ret| == |rows|
    ensures forall i :: 0 <= i < |rows| ==> ret[i] == RowMap(rows[i], columnNames)
    ensures ret == RowMaps(rows, columnNames)
  {
    ret := [];
    for i := 0 to |rows|
      invariant |ret| == i
      invariant forall k :: 0 <= k < i ==> ret[k] == RowMap(rows[k], columnNames)
    {
      var data := KeyRow(rows[i], columnNames);
      ret := ret + [data];
    }
  }

  /** The count only grows, and it grows past every unnamed position. */
  lemma {:induction false} UnnamedIncreases(i: nat, j: nat, columnNames: map<int, string>)
    requires i < j
    ensures Unnamed(i, columnNames) + (if i in columnNames then 0 else 1) <= Unnamed(j, columnNames)
    decreases j
  {
    if i < j - 1 {
      UnnamedIncreases(i, j - 1, columnNames);
    }
  }

  /** Every number below the count of unnamed positions is the number of
      some unnamed position: the unnamed positions are numbered 0, 1, 2, ...
      in row order, with no gap. */
  lemma {:induction false} UnnamedNumbering(n: nat, columnNames: map<int, string>, k: nat)
    requires k < Unnamed(n, columnNames)
    ensures exists j :: 0 <= j < n && j !in columnNames && Unnamed(j, columnNames) == k
    decreases n
  {
    if k < Unnamed(n - 1, columnNames) {
      UnnamedNumbering(n - 1, columnNames, k);
    } else {
      assert n - 1 !in columnNames && Unnamed(n - 1, columnNames) == k;
    }
  }

  /** Two unnamed positions never share a key. */
  lemma UnknownKeysDistinct(i: nat, j: nat, columnNames: map<int, string>)
    requires i < j && i !in columnNames && j !in columnNames
    ensures KeyAt(i, columnNames) != KeyAt(j, columnNames)
  {
    UnnamedIncreases(i, j, columnNames);
    Mapper.UnknownKeyInjective(Unnamed(i, columnNames), Unnamed(j, columnNames));
  }

  /** Among the first n positions, the unnamed ones are keyed `(unknown_0)`,
      `(unknown_1)`, ... up to the number of unnamed positions, none left
      out. */
  lemma UnknownKeysNumbered(n: nat, columnNames: map<int, string>, k: nat)
    requires k < Unnamed(n, columnNames)
    ensures exists j :: 0 <= j < n && j !in columnNames && KeyAt(j, columnNames) == Mapper.UnknownKey(k)
  {
    UnnamedNumbering(n, columnNames, k);
    var j :| 0 <= j < n && j !in columnNames && Unnamed(j, columnNames) == k;
    assert KeyAt(j, columnNames) == Mapper.UnknownKey(k);
  }

  /** The row's keys are the keys of its positions. */
  lemma RowMapKeys(row: seq<Messages.Value>, columnNames: map<int, string>)
    ensures forall key :: key in RowMap(row, columnNames) <==>
      exists j :: 0 <= j < |row| && KeyAt(j, columnNames) == key
  {
    var keys := Keys(|row|, columnNames);
    Mapper.BuildRowContents(keys, row);
    forall key ensures key in keys <==> exists j :: 0 <= j < |row| && KeyAt(j, columnNames) == key {
      if key in keys {
        var j :| 0 <= j < |keys| && keys[j] == key;
        assert KeyAt(j, columnNames) == key;
      }
      if exists j :: 0 <= j < |row| && KeyAt(j, columnNames) == key {
        var j :| 0 <= j < |row| && KeyAt(j, columnNames) == key;
        assert keys[j] == key;
      }
    }
  }

  /** Column names that are distinct and never look like an unknown key. */
  ghost predicate NamesApart(columnNames: map<int, string>, n: nat)
  {
    && (forall i, j :: 0 <= i < j < n && i in columnNames && j in columnNames ==>
          columnNames[i] != columnNames[j])
    && (forall j, k: nat :: 0 <= j < n && j in columnNames ==> columnNames[j] != Mapper.UnknownKey(k))
  }

  /** With such names every value of the row is kept under its own key. */
  lemma RowMapKeepsEveryValue(row: seq<Messages.Value>, columnNames: map<int, string>)
    requires NamesApart(columnNames, |row|)
    ensures |RowMap(row, columnNames)| == |row|
    ensures forall j :: 0 <= j < |row| ==> KeyAt(j, columnNames) in RowMap(row, columnNames)
    ensures forall j :: 0 <= j < |row| ==> RowMap(row, columnNames)[KeyAt(j, columnNames)] == row[j]
  {
    var keys := Keys(|row|, columnNames);
    forall i, j | 0 <= i < j < |keys| ensures keys[i] != keys[j] {
      if i !in columnNames && j !in columnNames {
        UnknownKeysDistinct(i, j, columnNames);
      }
    }
    Mapper.BuildRowContents(keys, row);
    assert forall j :: 0 <= j < |row| ==> keys[j] == KeyAt(j, columnNames);
  }

  // ---------------------------------------------------------------------
  // Headers, messages and their builders
  // ---------------------------------------------------------------------

  /** `MessageHeader`, without the `MessageTime` field (the wall clock at
      the time the header is built). */
  datatype MessageHeader = MessageHeader(
    schema: string,
    table: string,
    binlogMessageTime: Messages.TimeText,
    binlogPosition: Messages.uint32,
    transactionId: Messages.uint64)

  /** `MessageHeaderBuilder`: the closure `NewMessageHeaderBuilder` returns,
      represented by the values it captures. */
  datatype HeaderBuilder = HeaderBuilder(schema: string, table: string, timestamp: nat, binlogPosition: Messages.uint32)
  {
    /** Calling the closure: the header of the captured event in the given
        transaction. Its binlog time is formatted without a conversion to
        UTC, so in the zone of the running process. */
    function Build(transactionId: Messages.uint64): (h: MessageHeader)
      ensures h.schema == schema && h.table == table && h.binlogPosition == binlogPosition
      ensures h.binlogMessageTime.Rfc3339Local? && h.binlogMessageTime.unixSeconds == timestamp
      ensures h.transactionId == transactionId
    {
      MessageHeader(schema, table, Messages.Rfc3339Local(timestamp), binlogPosition, transactionId)
    }
  }

  /** `UpdateMessage`, `InsertMessage` and `DeleteMessage`; `messageType` is
      the `Type` field. */
  datatype Message =
    | UpdateMessage(header: MessageHeader, messageType: string, oldData: Row, newData: Row)
    | InsertMessage(header: MessageHeader, messageType: string, data: Row)
    | DeleteMessage(header: MessageHeader, messageType: string, data: Row)

  /** The rows a message carries, the old one before the new one. */
  function MessageRows(m: Message): seq<Row>
  {
    match m
    case UpdateMessage(_, _, oldData, newData) => [oldData, newData]
    case InsertMessage(_, _, data) => [data]
    case DeleteMessage(_, _, data) => [data]
  }

  /** `MessageBuilder`: the closures the `New*MessageAsGenericMessageBuilder`
      functions return, represented by the values they capture. */
  datatype MessageBuilder =
    | UpdateBuilder(headerBuilder: HeaderBuilder, oldData: Row, newData: Row)
    | InsertBuilder(headerBuilder: HeaderBuilder, data: Row)
    | DeleteBuilder(headerBuilder: HeaderBuilder, data: Row)
  {
    /** The rows the closure captured. */
    function Rows(): seq<Row>
    {
      match this
      case UpdateBuilder(_, oldData, newData) => [oldData, newData]
      case InsertBuilder(_, data) => [data]
      case DeleteBuilder(_, data) => [data]
    }

    /** Calling the closure: a message of the builder's kind, tagged
        "UPDATE", "INSERT" or "DELETE", with the header for the transaction
        and the captured rows. */
    function Apply(transactionId: Messages.uint64): (m: Message)
      ensures m.header == headerBuilder.Build(transactionId)
      ensures MessageRows(m) == Rows()
      ensures m.UpdateMessage? <==> m.messageType == UpdateType
      ensures m.InsertMessage? <==> m.messageType == InsertType
      ensures m.DeleteMessage? <==> m.messageType == DeleteType
      ensures (m.UpdateMessage? <==> UpdateBuilder?) && (m.InsertMessage? <==> InsertBuilder?)
    {
      match this
      case UpdateBuilder(hb, oldData, newData) => UpdateMessage(hb.Build(transactionId), UpdateType, oldData, newData)
      case InsertBuilder(hb, data) => InsertMessage(hb.Build(transactionId), InsertType, data)
      case DeleteBuilder(hb, data) => DeleteMessage(hb.Build(transactionId), DeleteType, data)
    }
  }

  /** The rows captured by a sequence of builders, in order. */
  function Payload(builders: seq<MessageBuilder>): seq<Row>
  {
    if builders == [] then []
    else Payload(builders[..|builders| - 1]) + builders[|builders| - 1].Rows()
  }

  lemma PayloadSnoc(builders: seq<MessageBuilder>, b: MessageBuilder)
    ensures Payload(builders + [b]) == Payload(builders) + b.Rows()
  {
    assert (builders + [b])[..|builders|] == builders;
  }

  /** The three `MessageBuildersFromRowDataFunc`s, one per rows event. */
  datatype RowsEventKind = WriteRows | UpdateRows | DeleteRows

  function UpdatePairs(headerBuilder: HeaderBuilder, rowData: seq<Row>): seq<MessageBuilder>
    requires |rowData| % 2 == 0
  {
    seq(|rowData| / 2, i requires 0 <= i < |rowData| / 2 =>
      UpdateBuilder(headerBuilder, rowData[2 * i], rowData[2 * i + 1]))
  }

  function EachRow(kind: RowsEventKind, headerBuilder: HeaderBuilder, rowData: seq<Row>): seq<MessageBuilder>
    requires kind != UpdateRows
  {
    seq(|rowData|, i requires 0 <= i < |rowData| =>
      if kind == WriteRows then InsertBuilder(headerBuilder, rowData[i])
      else DeleteBuilder(headerBuilder, rowData[i]))
  }

  /** What each `Create*MessageBuildersFromRowData` returns; the update
      function panics on an odd number of rows. */
  function BuildersFromRowData(kind: RowsEventKind, headerBuilder: HeaderBuilder, rowData: seq<Row>)
    : (r: Result<seq<MessageBuilder>, Error>)
  {
    if kind != UpdateRows then Success(EachRow(kind, headerBuilder, rowData))
    else if |rowData| % 2 != 0 then Failure(Panic(OldNewPairsPanic))
    else Success(UpdatePairs(headerBuilder, rowData))
  }

  /** `CreateUpdateMessageBuildersFromRowData`. */
  method CreateUpdateMessageBuildersFromRowData(headerBuilder: HeaderBuilder, rowData: seq<Row>)
    returns (r: Result<seq<MessageBuilder>, Error>)
    ensures r.Failure? <==> |rowData| % 2 != 0
    ensures r.Failure? ==> r.error == Panic(OldNewPairsPanic)
    ensures r.Success? ==> |r.value| * 2 == |rowData|
    ensures r.Success? ==> forall i :: 0 <= i < |r.value| ==>
      r.value[i] == UpdateBuilder(headerBuilder, rowData[2 * i], rowData[2 * i + 1])
    ensures r == BuildersFromRowData(UpdateRows, headerBuilder, rowData)
  {
    if |rowData| % 2 != 0 {
      return Failure(Panic(OldNewPairsPanic));
    }
    var ret: seq<MessageBuilder> := [];
    var tmp: Row := map[];
    for index := 0 to |rowData|
      invariant |ret| == index / 2
      invariant forall i :: 0 <= i < |ret| ==>
        ret[i] == UpdateBuilder(headerBuilder, rowData[2 * i], rowData[2 * i + 1])
      invariant index % 2 == 1 ==> tmp == rowData[index - 1]
    {
      if index % 2 == 0 {
        tmp := rowData[index];
      } else {
        ret := ret + [UpdateBuilder(headerBuilder, tmp, rowData[index])];
      }
    }
    assert ret == UpdatePairs(headerBuilder, rowData);
    r := Success(ret);
  }

  /** `CreateInsertMessageBuildersFromRowData`: one builder per row. */
  method CreateInsertMessageBuildersFromRowData(headerBuilder: HeaderBuilder, rowData: seq<Row>)
    returns (ret: seq<MessageBuilder>)
    ensures |ret| == |rowData|
    ensures forall i :: 0 <= i < |ret| ==> ret[i] == InsertBuilder(headerBuilder, rowData[i])
    ensures Success(ret) == BuildersFromRowData(WriteRows, headerBuilder, rowData)
  {
    ret := [];
    for index := 0 to |rowData|
      invariant |ret| == index
      invariant forall i :: 0 <= i < index ==> ret[i] == InsertBuilder(headerBuilder, rowData[i])
    {
      ret := ret + [InsertBuilder(headerBuilder, rowData[index])];
    }
    assert ret == EachRow(WriteRows, headerBuilder, rowData);
  }

  /** `CreateDeleteMessageBuildersFromRowData`: one builder per row. */
  method CreateDeleteMessageBuildersFromRowData(headerBuilder: HeaderBuilder, rowData: seq<Row>)
    returns (ret: seq<MessageBuilder>)
    ensures |ret| == |rowData|
    ensures forall i :: 0 <= i < |ret| ==> ret[i] == DeleteBuilder(headerBuilder, rowData[i])
    ensures Success(ret) == BuildersFromRowData(DeleteRows, headerBuilder, rowData)
  {
    ret := [];
    for index := 0 to |rowData|
      invariant |ret| == index
      invariant forall i :: 0 <= i < index ==> ret[i] == DeleteBuilder(headerBuilder, rowData[i])
    {
      ret := ret + [DeleteBuilder(headerBuilder, rowData[index])];
    }
    assert ret == EachRow(DeleteRows, headerBuilder, rowData);
  }

  lemma EachRowSnoc(kind: RowsEventKind, headerBuilder: HeaderBuilder, init: seq<Row>, data: Row)
    requires kind != UpdateRows
    ensures EachRow(kind, headerBuilder, init + [data])
         == EachRow(kind, headerBuilder, init) + [EachRow(kind, headerBuilder, [data])[0]]
  {
    var rows := init + [data];
    assert forall i :: 0 <= i < |init| ==> rows[i] == init[i];
  }

  /** One builder per row captures the rows in order. */
  lemma {:induction false} PayloadOfEachRow(kind: RowsEventKind, headerBuilder: HeaderBuilder, rowData: seq<Row>)
    requires kind != UpdateRows
    ensures Payload(EachRow(kind, headerBuilder, rowData)) == rowData
    decreases |rowData|
  {
    if rowData != [] {
      var n := |rowData| - 1;
      var init := rowData[..n];
      PayloadOfEachRow(kind, headerBuilder, init);
      assert rowData == init + [rowData[n]];
      var last := EachRow(kind, headerBuilder, [rowData[n]])[0];
      EachRowSnoc(kind, headerBuilder, init, rowData[n]);
      PayloadSnoc(EachRow(kind, headerBuilder, init), last);
    }
  }

  lemma UpdatePairsSnoc(headerBuilder: HeaderBuilder, init: seq<Row>, oldData: Row, newData: Row)
    requires |init| % 2 == 0
    ensures UpdatePairs(headerBuilder, init + [oldData, newData])
         == UpdatePairs(headerBuilder, init) + [UpdateBuilder(headerBuilder, oldData, newData)]
  {
    var rows := init + [oldData, newData];
    assert forall i :: 0 <= i < |init| ==> rows[i] == init[i];
  }

  /** The update pairs capture the rows in order, old before new. */
  lemma {:induction false} PayloadOfUpdatePairs(headerBuilder: HeaderBuilder, rowData: seq<Row>)
    requires |rowData| % 2 == 0
    ensures Payload(UpdatePairs(headerBuilder, rowData)) == rowData
    decreases |rowData|
  {
    if rowData != [] {
      var n := |rowData| - 2;
      var init := rowData[..n];
      PayloadOfUpdatePairs(headerBuilder, init);
      assert rowData == init + [rowData[n], rowData[n + 1]];
      var last := UpdateBuilder(headerBuilder, rowData[n], rowData[n + 1]);
      UpdatePairsSnoc(headerBuilder, init, rowData[n], rowData[n + 1]);
      PayloadSnoc(UpdatePairs(headerBuilder, init), last);
    }
  }

  /** The builders together capture exactly the event's rows, in order:
      nothing is dropped, duplicated or reordered. Only an update event
      with an odd number of rows yields no builders. */
  lemma BuildersKeepRows(kind: RowsEventKind, headerBuilder: HeaderBuilder, rowData: seq<Row>)
    ensures BuildersFromRowData(kind, headerBuilder, rowData).Failure? <==>
      kind == UpdateRows && |rowData| % 2 != 0
    ensures BuildersFromRowData(kind, headerBuilder, rowData).Success? ==>
      Payload(BuildersFromRowData(kind, headerBuilder, rowData).value) == rowData
  {
    if kind != UpdateRows {
      PayloadOfEachRow(kind, headerBuilder, rowData);
    } else if |rowData| % 2 == 0 {
      PayloadOfUpdatePairs(headerBuilder, rowData);
    }
  }

  // ---------------------------------------------------------------------
  // TableMap
  // ---------------------------------------------------------------------

  datatype TableMetadata = TableMetadata(schema: string, table: string, fields: map<int, string>)

  class TableMap {
    var lookupMap: map<Messages.uint64, TableMetadata>
    /** The column query `GetFields` sends to the database. */
    const db: Database.ColumnQuery

    /** `NewTableMap`. */
    constructor (db: Database.ColumnQuery)
      ensures lookupMap == map[] && this.db == db
    {
      lookupMap := map[];
      this.db := db;
    }

    /** `LookupTableMetadata`: the entry of `id`, or None (`ok == false`). */
    function LookupTableMetadata(id: Messages.uint64): (r: Option<TableMetadata>)
      reads this
      ensures r.None? <==> id !in lookupMap
      ensures r.Some? ==> r.value == lookupMap[id]
    {
      if id in lookupMap then Some(lookupMap[id]) else None
    }

    /** `Add`: the entry of `id` becomes the table with its columns numbered
        in query order, whatever was there before; other entries stay. A
        failed query, on which `GetFields` panics, returns its error and
        leaves the map as it was. */
    method Add(id: Messages.uint64, schema: string, table: string) returns (err: Outcome<Error>)
      modifies this`lookupMap
      ensures db(schema, table).Failure? ==>
        err == Fail(db(schema, table).error) && lookupMap == old(lookupMap)
      ensures db(schema, table).Success? ==> err == Pass
      ensures db(schema, table).Success? ==>
        lookupMap == old(lookupMap)[id := TableMetadata(schema, table, Database.NumberedFields(db(schema, table).value))]
      ensures db(schema, table).Success? ==>
        LookupTableMetadata(id) == Some(TableMetadata(schema, table, Database.NumberedFields(db(schema, table).value)))
      ensures forall other :: other != id ==> LookupTableMetadata(other) == old(LookupTableMetadata(other))
    {
      var fields := Database.GetFieldsFromDb(db, schema, table);
      if fields.Failure? {
        return Fail(fields.error);
      }
      lookupMap := lookupMap[id := TableMetadata(schema, table, fields.value)];
      err := Pass;
    }
  }

  // ---------------------------------------------------------------------
  // MessageBuffer
  // ---------------------------------------------------------------------

  class MessageBuffer {
    var buffered: seq<MessageBuilder>

    /** `NewMessageBuffer`. */
    constructor ()
      ensures buffered == []
    {
      buffered := [];
    }

    /** `BufferMessageBuilder`: the builders are queued after the earlier
        ones. */
    method BufferMessageBuilder(messageBuilders: seq<MessageBuilder>)
      modifies this
      ensures buffered == old(buffered) + messageBuilders
    {
      buffered := buffered + messageBuilders;
    }

    /** `BuildAllMessagesForTransactionId`: every queued builder applied to
        the transaction id, in queue order; the queue is emptied. */
    method BuildAllMessagesForTransactionId(transactionId: Messages.uint64) returns (ret: seq<Message>)
      modifies this
      ensures |ret| == |old(buffered)|
      ensures forall i :: 0 <= i < |ret| ==> ret[i] == old(buffered)[i].Apply(transactionId)
      ensures buffered == []
    {
      ret := [];
      for i := 0 to |buffered|
        invariant |ret| == i
        invariant forall k :: 0 <= k < i ==> ret[k] == buffered[k].Apply(transactionId)
      {
        ret := ret + [buffered[i].Apply(transactionId)];
      }
      buffered := [];
    }
  }

  /** The rows carried by a sequence of messages, in order. */
  function MessagesRows(messages: seq<Message>): seq<Row>
  {
    if messages == [] then []
    else MessagesRows(messages[..|messages| - 1]) + MessageRows(messages[|messages| - 1])
  }

  /** The messages built for a transaction carry its id, and together the
      rows the buffered builders captured, in order. */
  lemma {:induction false} BuiltMessagesKeepRows(builders: seq<MessageBuilder>, transactionId: Messages.uint64, messages: seq<Message>)
    requires |messages| == |builders|
    requires forall i :: 0 <= i < |messages| ==> messages[i] == builders[i].Apply(transactionId)
    ensures forall i :: 0 <= i < |messages| ==> messages[i].header.transactionId == transactionId
    ensures MessagesRows(messages) == Payload(builders)
    decreases |builders|
  {
    if builders != [] {
      var n := |builders| - 1;
      BuiltMessagesKeepRows(builders[..n], transactionId, messages[..n]);
      assert messages[n] == builders[n].Apply(transactionId);
    }
  }

  // ---------------------------------------------------------------------
  // HandleRowDataEvent
  // ---------------------------------------------------------------------

  /** A decoded rows event: the table id, the event header's timestamp and
      log position, and the rows as lists of values. */
  datatype RowsEvent = RowsEvent(tableId: Messages.uint64, timestamp: Messages.uint32, logPos: Messages.uint32, rows: seq<seq<Messages.Value>>)

  /** The builders a rows event of a known table yields. */
  function EventBuilders(kind: RowsEventKind, e: RowsEvent, metadata: TableMetadata)
    : Result<seq<MessageBuilder>, Error>
  {
    BuildersFromRowData(kind,
      HeaderBuilder(metadata.schema, metadata.table, e.timestamp, e.logPos),
      RowMaps(e.rows, metadata.fields))
  }

  /** `HandleRowDataEvent`: an event of an unknown table queues nothing;
      otherwise its rows are mapped and the builders of `kind` queued. */
  method HandleRowDataEvent(e: RowsEvent, kind: RowsEventKind, tableMap: TableMap, messageBuffer: MessageBuffer)
    returns (err: Outcome<Error>)
    modifies messageBuffer
    ensures tableMap.LookupTableMetadata(e.tableId).None? ==>
      err == Pass && messageBuffer.buffered == old(messageBuffer.buffered)
    ensures tableMap.LookupTableMetadata(e.tableId).Some? ==>
      var r := EventBuilders(kind, e, tableMap.lookupMap[e.tableId]);
      && (r.Failure? ==> err == Fail(r.error) && messageBuffer.buffered == old(messageBuffer.buffered))
      && (r.Success? ==> err == Pass && messageBuffer.buffered == old(messageBuffer.buffered) + r.value)
  {
    var tableMetadata := tableMap.LookupTableMetadata(e.tableId);
    if tableMetadata.None? {
      return Pass;
    }
    var rowData := RowData(e.rows, tableMetadata.value.fields);
    var headerBuilder := HeaderBuilder(tableMetadata.value.schema, tableMetadata.value.table, e.timestamp, e.logPos);
    var messageBuilders: seq<MessageBuilder>;
    match kind {
      case WriteRows =>
        messageBuilders := CreateInsertMessageBuildersFromRowData(headerBuilder, rowData);
      case DeleteRows =>
        messageBuilders := CreateDeleteMessageBuildersFromRowData(headerBuilder, rowData);
      case UpdateRows =>
        var r := CreateUpdateMessageBuildersFromRowData(headerBuilder, rowData);
        if r.Failure? {
          return Fail(r.error);
        }
        messageBuilders := r.value;
    }
    messageBuffer.BufferMessageBuilder(messageBuilders);
    err := Pass;
  }
}
