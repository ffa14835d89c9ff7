/** Turning query events and buffered row events into change messages
    (conversion/conversion.go). */
module Conversion {

  import opened Wrappers
  import opened Errors
  import opened Messages
  import opened BinlogEvents
  import opened RowData
  import opened Database

  /** A buffered row event together with the table it was resolved to. */
  datatype RowsEventData = RowsEventData(
    binlogEventHeader: EventHeader,
    binlogEvent: RowsEvent,
    tableMetadata: TableMetadata)

  function NewRowsEventData(binlogEventHeader: EventHeader, binlogEvent: RowsEvent, tableMetadata: TableMetadata)
    : (d: RowsEventData)
    ensures d.binlogEventHeader == binlogEventHeader
    ensures d.binlogEvent == binlogEvent && d.tableMetadata == tableMetadata
  {
    RowsEventData(binlogEventHeader, binlogEvent, tableMetadata)
  }

  const UnknownTable: string := "(unknown)"
  const UpdatePairsPanic: string := "update rows should be old/new pairs"

  /** A statement outside a transaction's row events becomes a Query message
      for table `(unknown)` with transaction id 0 and no GTID. */
  function ConvertQueryEventToMessage(binlogEventHeader: EventHeader, binlogEvent: QueryEvent): (m: Message)
    ensures m.GetType() == MessageQuery && m.query == binlogEvent.query
    ensures m.header.schema == binlogEvent.schema && m.header.table == UnknownTable
    ensures m.header.xId == 0 && m.header.gtid == ""
    ensures m.header.binlogPosition == binlogEventHeader.logPos
    ensures m.header.binlogMessageTime == Rfc3339Utc(binlogEventHeader.timestamp)
  {
    var header := NewMessageHeader(binlogEvent.schema, UnknownTable, binlogEventHeader.timestamp, binlogEventHeader.logPos, 0, "");
    NewQueryMessage(header, binlogEvent.query)
  }

  // ---------------------------------------------------------------------
  // Specification of the row-event conversion
  // ---------------------------------------------------------------------

  ghost predicate AllDense(events: seq<RowsEventData>)
  {
    forall i :: 0 <= i < |events| ==> Dense(events[i].tableMetadata.fields)
  }

  /** The header every message of one buffered event carries. */
  function RowsHeader(gtid: string, xId: uint64, d: RowsEventData): MessageHeader
  {
    NewMessageHeader(d.tableMetadata.schema, d.tableMetadata.table,
      d.binlogEventHeader.timestamp, d.binlogEventHeader.logPos, xId, gtid)
  }

  function MapRows(rows: seq<seq<Value>>, columnNames: map<int, string>): (r: seq<MessageRowData>)
    requires Dense(columnNames)
    ensures |r| == |rows|
  {
    seq(|rows|, i requires 0 <= i < |rows| => MapRow(rows[i], columnNames))
  }

  /** An update event whose rows cannot be paired as old/new. */
  predicate OddUpdate(d: RowsEventData)
  {
    d.binlogEventHeader.eventType.IsUpdateRows() && |d.binlogEvent.rows| % 2 != 0
  }

  /** How many messages one event converts to. */
  function MessageCount(d: RowsEventData): nat
  {
    var t := d.binlogEventHeader.eventType;
    if t.IsWriteRows() || t.IsDeleteRows() then |d.binlogEvent.rows|
    else if t.IsUpdateRows() then |d.binlogEvent.rows| / 2
    else 0
  }

  function MessageTotal(events: seq<RowsEventData>): nat
  {
    if events == [] then 0 else MessageTotal(events[..|events| - 1]) + MessageCount(events[|events| - 1])
  }

  /** The messages of one buffered event: one insert or delete per row, one
      update per old/new pair of rows, none for any other event type; an odd
      number of update rows is a panic. */
  function EventMessages(gtid: string, xId: uint64, d: RowsEventData): (r: Result<seq<Message>, Error>)
    requires Dense(d.tableMetadata.fields)
    ensures r.Failure? <==> OddUpdate(d)
    ensures r.Failure? ==> r.error == Panic(UpdatePairsPanic)
    ensures r.Success? ==> |r.value| == MessageCount(d)
    ensures r.Success? ==> forall m :: m in r.value ==> m.header == RowsHeader(gtid, xId, d)
  {
    var header := RowsHeader(gtid, xId, d);
    var rowData := MapRows(d.binlogEvent.rows, d.tableMetadata.fields);
    var t := d.binlogEventHeader.eventType;
    if t.IsWriteRows() then
      Success(seq(|rowData|, i requires 0 <= i < |rowData| => InsertMessage(header, rowData[i])))
    else if t.IsUpdateRows() then
      if |rowData| % 2 != 0 then Failure(Panic(UpdatePairsPanic))
      else Success(seq(|rowData| / 2, i requires 0 <= i < |rowData| / 2 =>
        UpdateMessage(header, rowData[2 * i], rowData[2 * i + 1])))
    else if t.IsDeleteRows() then
      Success(seq(|rowData|, i requires 0 <= i < |rowData| => DeleteMessage(header, rowData[i])))
    else
      Success([])
  }

  /** Appends the messages of a later run to those of an earlier one; the
      first failure wins. */
  function Then(earlier: Result<seq<Message>, Error>, later: Result<seq<Message>, Error>)
    : (r: Result<seq<Message>, Error>)
    ensures r.Success? <==> earlier.Success? && later.Success?
    ensures r.Success? ==> r.value == earlier.value + later.value
    ensures earlier.Failure? ==> r == earlier
  {
    match earlier
    case Failure(e) => Failure(e)
    case Success(x) =>
      match later
      case Failure(e) => Failure(e)
      case Success(y) => Success(x + y)
  }

  lemma ThenAssociative(x: Result<seq<Message>, Error>, y: Result<seq<Message>, Error>, z: Result<seq<Message>, Error>)
    ensures Then(Then(x, y), z) == Then(x, Then(y, z))
  {
    if x.Success? && y.Success? && z.Success? {
      assert (x.value + y.value) + z.value == x.value + (y.value + z.value);
    }
  }

  lemma AllDensePrefix(events: seq<RowsEventData>, n: nat)
    requires AllDense(events) && n <= |events|
    ensures AllDense(events[..n])
  {
    assert forall i :: 0 <= i < n ==> events[..n][i] == events[i];
  }

  lemma AllDenseConcat(a: seq<RowsEventData>, b: seq<RowsEventData>)
    requires AllDense(a) && AllDense(b)
    ensures AllDense(a + b)
  {
    forall i | 0 <= i < |a + b| ensures Dense((a + b)[i].tableMetadata.fields) {
      if i >= |a| {
        assert (a + b)[i] == b[i - |a|];
      }
    }
  }

  /** The messages of all buffered events, event by event in buffer order;
      the first odd update aborts the whole conversion. */
  function ConvertedMessages(gtid: string, xId: uint64, events: seq<RowsEventData>): (r: Result<seq<Message>, Error>)
    requires AllDense(events)
    ensures r.Failure? ==> r.error == Panic(UpdatePairsPanic)
    ensures r.Success? ==> |r.value| == MessageTotal(events)
  {
    if events == [] then Success([])
    else
      var n := |events| - 1;
      AllDensePrefix(events, n);
      Then(ConvertedMessages(gtid, xId, events[..n]), EventMessages(gtid, xId, events[n]))
  }

  // ---------------------------------------------------------------------
  // Properties of the conversion
  // ---------------------------------------------------------------------

  lemma ConvertedUnfold(gtid: string, xId: uint64, events: seq<RowsEventData>)
    requires AllDense(events) && events != []
    ensures AllDense(events[..|events| - 1])
    ensures ConvertedMessages(gtid, xId, events)
         == Then(ConvertedMessages(gtid, xId, events[..|events| - 1]), EventMessages(gtid, xId, events[|events| - 1]))
  {
    AllDensePrefix(events, |events| - 1);
  }

  lemma OddUpdateInSnoc(events: seq<RowsEventData>)
    requires events != []
    ensures var n := |events| - 1;
      (exists i :: 0 <= i < |events| && OddUpdate(events[i]))
      <==> (exists i :: 0 <= i < n && OddUpdate(events[..n][i])) || OddUpdate(events[n])
  {
    var n := |events| - 1;
    var prefix := events[..n];
    if exists i :: 0 <= i < |events| && OddUpdate(events[i]) {
      var i :| 0 <= i < |events| && OddUpdate(events[i]);
      if i < n {
        assert prefix[i] == events[i];
      }
    }
    if exists i :: 0 <= i < n && OddUpdate(prefix[i]) {
      var i :| 0 <= i < n && OddUpdate(prefix[i]);
      assert events[i] == prefix[i];
    }
  }

  /** The conversion fails exactly when some buffered event is an update
      with an odd number of rows. */
  lemma {:induction false} ConvertedFailsIffOddUpdate(gtid: string, xId: uint64, events: seq<RowsEventData>)
    requires AllDense(events)
    ensures ConvertedMessages(gtid, xId, events).Failure? <==> exists i :: 0 <= i < |events| && OddUpdate(events[i])
    decreases |events|
  {
    if events != [] {
      ConvertedUnfold(gtid, xId, events);
      ConvertedFailsIffOddUpdate(gtid, xId, events[..|events| - 1]);
      OddUpdateInSnoc(events);
    }
  }

  /** Write events give one Insert per row and delete events one Delete per
      row, in row order; update events pair row 2i (old) with row 2i+1 (new);
      every other event type gives nothing. */
  lemma EventMessagesContents(gtid: string, xId: uint64, d: RowsEventData)
    requires Dense(d.tableMetadata.fields)
    ensures var r := EventMessages(gtid, xId, d);
      var header := RowsHeader(gtid, xId, d);
      var rows := d.binlogEvent.rows;
      var fields := d.tableMetadata.fields;
      var t := d.binlogEventHeader.eventType;
      && (t.IsWriteRows() ==>
            && r.Success? && |r.value| == |rows|
            && forall i :: 0 <= i < |rows| ==> r.value[i] == InsertMessage(header, MapRow(rows[i], fields)))
      && (t.IsDeleteRows() ==>
            && r.Success? && |r.value| == |rows|
            && forall i :: 0 <= i < |rows| ==> r.value[i] == DeleteMessage(header, MapRow(rows[i], fields)))
      && (t.IsUpdateRows() && |rows| % 2 == 0 ==>
            && r.Success? && |r.value| == |rows| / 2
            && forall i :: 0 <= i < |rows| / 2 ==>
                 r.value[i] == UpdateMessage(header, MapRow(rows[2 * i], fields), MapRow(rows[2 * i + 1], fields)))
      && (!t.IsRows() ==> r == Success([]))
  {
  }

  lemma ConvertedConcatEmpty(gtid: string, xId: uint64, a: seq<RowsEventData>)
    requires AllDense(a)
    ensures a + [] == a
    ensures ConvertedMessages(gtid, xId, a) == Then(ConvertedMessages(gtid, xId, a), ConvertedMessages(gtid, xId, []))
  {
    assert a + [] == a;
    var ra := ConvertedMessages(gtid, xId, a);
    if ra.Success? {
      assert ra.value + [] == ra.value;
    }
  }

  /** Converting two runs of events is converting each and concatenating. */
  lemma {:induction false} ConvertedConcat(gtid: string, xId: uint64, a: seq<RowsEventData>, b: seq<RowsEventData>)
    requires AllDense(a) && AllDense(b)
    ensures AllDense(a + b)
    ensures ConvertedMessages(gtid, xId, a + b)
         == Then(ConvertedMessages(gtid, xId, a), ConvertedMessages(gtid, xId, b))
    decreases |b|
  {
    AllDenseConcat(a, b);
    if b == [] {
      ConvertedConcatEmpty(gtid, xId, a);
    } else {
      var n := |b| - 1;
      var ab := a + b;
      AllDensePrefix(b, n);
      ConvertedConcat(gtid, xId, a, b[..n]);
      assert ab[..|ab| - 1] == a + b[..n] && ab[|ab| - 1] == b[n];
      ConvertedUnfold(gtid, xId, ab);
      ConvertedUnfold(gtid, xId, b);
      ThenAssociative(ConvertedMessages(gtid, xId, a), ConvertedMessages(gtid, xId, b[..n]), EventMessages(gtid, xId, b[n]));
    }
  }

  /** A single event converts to exactly its own messages. */
  lemma ConvertedSingle(gtid: string, xId: uint64, d: RowsEventData)
    requires Dense(d.tableMetadata.fields)
    ensures AllDense([d])
    ensures ConvertedMessages(gtid, xId, [d]) == EventMessages(gtid, xId, d)
  {
    assert [d][..0] == [];
    var last := EventMessages(gtid, xId, d);
    if last.Success? {
      assert [] + last.value == last.value;
    }
  }

  /** Every converted message carries the commit's transaction id and GTID,
      and the schema, table, time and position of the event it came from. */
  lemma {:induction false} ConvertedHeaders(gtid: string, xId: uint64, events: seq<RowsEventData>)
    requires AllDense(events)
    requires ConvertedMessages(gtid, xId, events).Success?
    ensures forall m :: m in ConvertedMessages(gtid, xId, events).value ==>
      && m.header.xId == xId && m.header.gtid == gtid
      && exists i :: 0 <= i < |events| && m.header == RowsHeader(gtid, xId, events[i])
    decreases |events|
  {
    if events != [] {
      var n := |events| - 1;
      assert forall i :: 0 <= i < n ==> events[..n][i] == events[i];
      ConvertedHeaders(gtid, xId, events[..n]);
      forall m | m in ConvertedMessages(gtid, xId, events).value
        ensures exists i :: 0 <= i < |events| && m.header == RowsHeader(gtid, xId, events[i])
      {
        if m in ConvertedMessages(gtid, xId, events[..n]).value {
          var i :| 0 <= i < n && m.header == RowsHeader(gtid, xId, events[..n][i]);
          assert events[i] == events[..n][i];
        } else {
          assert m.header == RowsHeader(gtid, xId, events[n]);
        }
      }
    }
  }

  // ---------------------------------------------------------------------
  // The conversion as the source computes it
  // ---------------------------------------------------------------------

  /** `createInsertMessagesFromRowData`: one Insert per row, in order. */
  method CreateInsertMessagesFromRowData(header: MessageHeader, rowData: seq<MessageRowData>)
    returns (ret: seq<Message>)
    ensures |ret| == |rowData|
    ensures forall i :: 0 <= i < |rowData| ==> ret[i] == NewInsertMessage(header, rowData[i])
  {
    ret := [];
    for i := 0 to |rowData|
      invariant |ret| == i
      invariant forall k :: 0 <= k < i ==> ret[k] == NewInsertMessage(header, rowData[k])
    {
      ret := ret + [NewInsertMessage(header, rowData[i])];
    }
  }

  /** `createDeleteMessagesFromRowData`: one Delete per row, in order. */
  method CreateDeleteMessagesFromRowData(header: MessageHeader, rowData: seq<MessageRowData>)
    returns (ret: seq<Message>)
    ensures |ret| == |rowData|
    ensures forall i :: 0 <= i < |rowData| ==> ret[i] == NewDeleteMessage(header, rowData[i])
  {
    ret := [];
    for i := 0 to |rowData|
      invariant |ret| == i
      invariant forall k :: 0 <= k < i ==> ret[k] == NewDeleteMessage(header, rowData[k])
    {
      ret := ret + [NewDeleteMessage(header, rowData[i])];
    }
  }

  /** `createUpdateMessagesFromRowData`: panics on an odd number of rows,
      otherwise pairs each even-indexed row (old) with the next one (new). */
  method CreateUpdateMessagesFromRowData(header: MessageHeader, rowData: seq<MessageRowData>)
    returns (r: Result<seq<Message>, Error>)
    ensures r.Failure? <==> |rowData| % 2 != 0
    ensures r.Failure? ==> r.error == Panic(UpdatePairsPanic)
    ensures r.Success? ==> |r.value| == |rowData| / 2
    ensures r.Success? ==> forall i :: 0 <= i < |rowData| / 2 ==>
      r.value[i] == NewUpdateMessage(header, rowData[2 * i], rowData[2 * i + 1])
  {
    if |rowData| % 2 != 0 {
      return Failure(Panic(UpdatePairsPanic));
    }
    var ret: seq<Message> := [];
    var tmp: MessageRowData := MessageRowData(map[], "");
    for index := 0 to |rowData|
      invariant |ret| == index / 2
      invariant index % 2 == 1 ==> tmp == rowData[index - 1]
      invariant forall k :: 0 <= k < index / 2 ==>
        ret[k] == NewUpdateMessage(header, rowData[2 * k], rowData[2 * k + 1])
    {
      if index % 2 == 0 {
        tmp := rowData[index];
      } else {
        ret := ret + [NewUpdateMessage(header, tmp, rowData[index])];
      }
    }
    return Success(ret);
  }

  /** The body of the loop in `ConvertRowsEventsToMessages`: the messages
      of one buffered event. */
  method ConvertRowsEvent(gtid: string, xId: uint64, d: RowsEventData)
    returns (r: Result<seq<Message>, Error>)
    requires Dense(d.tableMetadata.fields)
    ensures r == EventMessages(gtid, xId, d)
  {
    var rowData := MapRowDataToColumnNames(d.binlogEvent.rows, d.tableMetadata.fields);
    var header := NewMessageHeader(d.tableMetadata.schema, d.tableMetadata.table,
      d.binlogEventHeader.timestamp, d.binlogEventHeader.logPos, xId, gtid);
    assert header == RowsHeader(gtid, xId, d);
    EventMessagesContents(gtid, xId, d);
    match d.binlogEventHeader.eventType {
      case WriteRowsV1 | WriteRowsV2 =>
        var messages := CreateInsertMessagesFromRowData(header, rowData);
        assert EventMessages(gtid, xId, d).value == messages;
        r := Success(messages);
      case UpdateRowsV1 | UpdateRowsV2 =>
        r := CreateUpdateMessagesFromRowData(header, rowData);
        if r.Success? {
          assert EventMessages(gtid, xId, d).value == r.value;
        }
      case DeleteRowsV1 | DeleteRowsV2 =>
        var messages := CreateDeleteMessagesFromRowData(header, rowData);
        assert EventMessages(gtid, xId, d).value == messages;
        r := Success(messages);
      case _ =>
        r := Success([]);
    }
  }

  /** `ConvertRowsEventsToMessages`, with the GTID drained alongside the
      events copied into every header. */
  method ConvertRowsEventsToMessages(gtid: string, xId: uint64, rowsEventsData: seq<RowsEventData>)
    returns (r: Result<seq<Message>, Error>)
    requires AllDense(rowsEventsData)
    ensures r == ConvertedMessages(gtid, xId, rowsEventsData)
  {
    var ret: seq<Message> := [];
    for k := 0 to |rowsEventsData|
      invariant AllDense(rowsEventsData[..k])
      invariant ConvertedMessages(gtid, xId, rowsEventsData[..k]) == Success(ret)
    {
      var d := rowsEventsData[k];
      AllDensePrefix(rowsEventsData, k + 1);
      ConvertedUnfold(gtid, xId, rowsEventsData[..k + 1]);
      assert rowsEventsData[..k + 1][..k] == rowsEventsData[..k] && rowsEventsData[..k + 1][k] == d;
      var messages := ConvertRowsEvent(gtid, xId, d);
      if messages.Failure? {
        ConvertedFailsIffOddUpdate(gtid, xId, rowsEventsData);
        return messages;
      }
      ret := ret + messages.value;
    }
    assert rowsEventsData[..|rowsEventsData|] == rowsEventsData;
    return Success(ret);
  }
}
