/** The per-file event handler: a state machine over decoded binlog events
    that buffers row events per transaction and hands messages to a
    consumer (parser/parser/binlog_to_messages.go). */
module BinlogToMessages {

  import opened Wrappers
  import opened Errors
  import opened Messages
  import opened BinlogEvents
  import opened Text
  import opened RowData
  import opened Database
  import opened Conversion
  import opened RowsEventBuffers

  /** `ConsumerFunc`: receives one message, may fail. */
  type Consumer = Message -> Outcome<Error>

  /** `uuid.FromBytes` followed by the UUID's text form; `None` when the
      bytes are not a UUID. The library is not part of this model. */
  type UuidParser = seq<bv8> -> Option<string>

  /** What the handler consults but does not own. */
  datatype Env = Env(db: ColumnQuery, consumer: Consumer, parseUuid: UuidParser)

  /** Everything the handler's behaviour depends on or produces: the row
      buffer with its GTID, the table map with its field cache, and the
      messages handed to the consumer so far. */
  datatype HandlerState = HandlerState(
    buffered: seq<RowsEventData>,
    gtid: string,
    tables: map<uint64, TableMetadata>,
    fieldsCache: FieldsCache,
    delivered: seq<Message>)

  ghost predicate StateValid(s: HandlerState)
  {
    AllDense(s.buffered) && TablesDense(s.tables) && CacheDense(s.fieldsCache)
  }

  /** The text `uuid:gno` (`fmt.Sprintf("%s:%d", ...)`). */
  function GtidText(uuid: string, gno: int): string
  {
    uuid + ":" + IntToString(gno)
  }

  /** The statement opening a transaction: `BEGIN` in any case, with any
      surrounding blanks. */
  predicate IsBegin(query: string)
  {
    ToUpper(TrimBlanks(query)) == "BEGIN"
  }

  predicate IsSavepoint(query: string)
  {
    HasPrefix(ToUpper(TrimBlanks(query)), "SAVEPOINT")
  }

  /** The statement opening a transaction, once the spaces around it are
      trimmed: `BEGIN` spelled in any case, and nothing else. */
  lemma BeginMarker(query: string)
    ensures IsBegin(query) <==> Spells(TrimBlanks(query), "BEGIN")
  {
    assert Capitals("BEGIN");
    ToUpperEquals(TrimBlanks(query), "BEGIN");
  }

  /** A savepoint, once the spaces around it are trimmed: any statement
      that starts with `SAVEPOINT` spelled in any case. */
  lemma SavepointMarker(query: string)
    ensures IsSavepoint(query) <==> SpellsPrefix(TrimBlanks(query), "SAVEPOINT")
  {
    assert Capitals("SAVEPOINT");
    ToUpperHasPrefix(TrimBlanks(query), "SAVEPOINT");
  }

  /** `begin` between spaces is a transaction start. */
  lemma BeginMarkerExample()
    ensures IsBegin(" Begin ")
  {
    BeginTrimmed();
    BeginUpper();
  }

  lemma BeginTrimmed()
    ensures TrimBlanks(" Begin ") == "Begin"
  {
    TrimBlanksOfPadded("Begin");
    assert " " + "Begin" + " " == " Begin ";
  }

  lemma BeginUpper()
    ensures ToUpper("Begin") == "BEGIN"
  {
    var u := ToUpper("Begin");
    assert u[0] == 'B' && u[1] == 'E' && u[2] == 'G' && u[3] == 'I' && u[4] == 'N';
  }

  /** Only spaces are trimmed, so `BEGIN` after a tab is a statement. */
  lemma TabbedBeginExample()
    ensures !IsBegin("\tBEGIN")
  {
    TrimBlanksOfUnpadded("\tBEGIN");
  }

  /** A savepoint is a marker whatever the case of its keyword. */
  lemma SavepointMarkerExample()
    ensures IsSavepoint("savepoint sp1")
  {
    var q := "savepoint sp1";
    TrimBlanksOfUnpadded(q);
    var u := ToUpper(q);
    assert u[0] == 'S' && u[1] == 'A' && u[2] == 'V' && u[3] == 'E' && u[4] == 'P';
    assert u[5] == 'O' && u[6] == 'I' && u[7] == 'N' && u[8] == 'T';
    assert u[..9] == "SAVEPOINT";
  }

  /** `BEGIN WORK` is a statement of its own, and so is a rollback to a
      savepoint. */
  lemma StatementExamples()
    ensures !IsBegin("BEGIN WORK") && !IsSavepoint("ROLLBACK TO SAVEPOINT sp1")
  {
    TrimBlanksOfUnpadded("BEGIN WORK");
    var q := "ROLLBACK TO SAVEPOINT sp1";
    TrimBlanksOfUnpadded(q);
    assert ToUpper(q)[0] == 'R';
  }

  /** Hands the messages to the consumer in order until it fails: the
      messages handed over, the failing one included, and the outcome. */
  function Deliver(consumer: Consumer, messages: seq<Message>): (r: (seq<Message>, Outcome<Error>))
    ensures |r.0| <= |messages| && r.0 == messages[..|r.0|]
    ensures r.1.Pass? <==> forall i :: 0 <= i < |messages| ==> consumer(messages[i]).Pass?
    ensures r.1.Pass? ==> r.0 == messages
    ensures r.1.Fail? ==> && r.0 != []
                          && r.1 == consumer(r.0[|r.0| - 1])
                          && forall i :: 0 <= i < |r.0| - 1 ==> consumer(r.0[i]).Pass?
    decreases |messages|
  {
    if messages == [] then ([], Pass)
    else
      var out := consumer(messages[0]);
      if out.Fail? then ([messages[0]], out)
      else
        var (rest, err) := Deliver(consumer, messages[1..]);
        ([messages[0]] + rest, err)
  }

  /** Delivery stops right after the first message the consumer refuses. */
  lemma {:induction false} DeliverStopsAtFirstFailure(consumer: Consumer, messages: seq<Message>, i: nat)
    requires i < |messages| && consumer(messages[i]).Fail?
    requires forall j :: 0 <= j < i ==> consumer(messages[j]).Pass?
    ensures Deliver(consumer, messages) == (messages[..i + 1], consumer(messages[i]))
    decreases i
  {
    if i > 0 {
      DeliverStopsAtFirstFailure(consumer, messages[1..], i - 1);
      assert [messages[0]] + messages[1..][..i] == messages[..i + 1];
    }
  }

  lemma DeliveredAreGiven(consumer: Consumer, messages: seq<Message>)
    ensures forall m :: m in Deliver(consumer, messages).0 ==> m in messages
  {
    var sent := Deliver(consumer, messages).0;
    forall m | m in sent ensures m in messages {
      var i :| 0 <= i < |sent| && sent[i] == m;
      assert messages[i] == m;
    }
  }

  /** One call of `onEvent`: the new state and the error it returns. */
  function Step(env: Env, s: HandlerState, e: BinlogEvent): (r: (HandlerState, Outcome<Error>))
    requires StateValid(s)
    ensures StateValid(r.0)
  {
    match e.payload
    case Gtid(sid, gno) =>
      (match env.parseUuid(sid)
       case None => (s, Fail(InvalidUuid(sid)))
       case Some(uid) => (s.(gtid := GtidText(uid, gno)), Pass))
    case Query(queryEvent) =>
      if IsBegin(queryEvent.query) || IsSavepoint(queryEvent.query) then (s, Pass)
      else
        var m := ConvertQueryEventToMessage(e.Header(), queryEvent);
        (s.(delivered := s.delivered + [m]), env.consumer(m))
    case Xid(xId) =>
      var drained := s.(buffered := [], gtid := "");
      (match ConvertedMessages(s.gtid, xId, s.buffered)
       case Failure(err) => (drained, Fail(err))
       case Success(messages) =>
         var (sent, out) := Deliver(env.consumer, messages);
         (drained.(delivered := s.delivered + sent), out))
    case TableMap(tableId, schema, table) =>
      var (out, tables, cache) := AddEntry(s.tables, s.fieldsCache, env.db, tableId, schema, table);
      (s.(tables := tables, fieldsCache := cache), out)
    case Rows(_, rowsEvent) =>
      if rowsEvent.tableId in s.tables then
        var d := NewRowsEventData(e.Header(), rowsEvent, s.tables[rowsEvent.tableId]);
        (s.(buffered := s.buffered + [d]), Pass)
      else (s, Pass)
    case Unknown(_) => (s, Pass)
  }

  /** A whole file: the events in order, stopping at the first error. */
  function Run(env: Env, s: HandlerState, events: seq<BinlogEvent>): (r: (HandlerState, Outcome<Error>))
    requires StateValid(s)
    ensures StateValid(r.0)
    decreases |events|
  {
    if events == [] then (s, Pass)
    else
      var (next, err) := Step(env, s, events[0]);
      if err.Fail? then (next, err) else Run(env, next, events[1..])
  }

  /** The state of a handler fresh from `ParseBinlogToMessages`. */
  function InitialState(tables: map<uint64, TableMetadata>, fieldsCache: FieldsCache): HandlerState
  {
    HandlerState([], "", tables, fieldsCache, [])
  }

  // ---------------------------------------------------------------------
  // Properties of one step
  // ---------------------------------------------------------------------

  /** A GTID event with an unparsable SID fails and changes nothing;
      otherwise it sets the pending GTID to `uuid:gno` and nothing else. */
  lemma StepGtidEvent(env: Env, s: HandlerState, e: BinlogEvent)
    requires StateValid(s) && e.payload.Gtid?
    ensures var r := Step(env, s, e);
      var uid := env.parseUuid(e.payload.sid);
      && (uid.None? ==> r == (s, Fail(InvalidUuid(e.payload.sid))))
      && (uid.Some? ==> r.1 == Pass && r.0 == s.(gtid := uid.value + ":" + IntToString(e.payload.gno)))
  {
  }

  /** `BEGIN` and `SAVEPOINT ...` change nothing; any other statement is
      handed to the consumer at once as one Query message for table
      `(unknown)` with transaction id 0, and the consumer's outcome is
      returned; the buffer and the table map are never touched. */
  lemma StepQueryEvent(env: Env, s: HandlerState, e: BinlogEvent)
    requires StateValid(s) && e.payload.Query?
    ensures var r := Step(env, s, e);
      var q := e.payload.queryEvent;
      && r.0.buffered == s.buffered && r.0.gtid == s.gtid
      && r.0.tables == s.tables && r.0.fieldsCache == s.fieldsCache
      && (IsBegin(q.query) || IsSavepoint(q.query) ==> r == (s, Pass))
      && (!IsBegin(q.query) && !IsSavepoint(q.query) ==>
            && |r.0.delivered| == |s.delivered| + 1
            && r.0.delivered[..|s.delivered|] == s.delivered
            && var m := r.0.delivered[|s.delivered|];
               && m.QueryMessage? && m.query == q.query
               && m.header.schema == q.schema && m.header.table == "(unknown)"
               && m.header.xId == 0 && m.header.binlogPosition == e.logPos
               && r.1 == env.consumer(m))
  {
    var q := e.payload.queryEvent;
    if !IsBegin(q.query) && !IsSavepoint(q.query) {
      var m := ConvertQueryEventToMessage(e.Header(), q);
      assert (s.delivered + [m])[..|s.delivered|] == s.delivered;
    }
  }

  /** A commit drains the buffer and the GTID. The messages handed to the
      consumer are a prefix of the converted messages, each tagged with the
      commit's id and the drained GTID; all of them are handed over exactly
      when the conversion and every consumer call succeed. */
  lemma StepXidEvent(env: Env, s: HandlerState, e: BinlogEvent)
    requires StateValid(s) && e.payload.Xid?
    ensures var r := Step(env, s, e);
      var converted := ConvertedMessages(s.gtid, e.payload.xid, s.buffered);
      var sent := r.0.delivered[|s.delivered|..];
      && r.0.buffered == [] && r.0.gtid == ""
      && r.0.tables == s.tables && r.0.fieldsCache == s.fieldsCache
      && |s.delivered| <= |r.0.delivered| && r.0.delivered[..|s.delivered|] == s.delivered
      && (converted.Failure? ==> r.1 == Fail(converted.error) && sent == [])
      && (converted.Success? ==> && sent == converted.value[..|sent|]
                                 && (r.1.Pass? ==> sent == converted.value))
      && (forall m :: m in sent ==> m.header.xId == e.payload.xid && m.header.gtid == s.gtid)
  {
    var xId := e.payload.xid;
    var r := Step(env, s, e);
    var converted := ConvertedMessages(s.gtid, xId, s.buffered);
    if converted.Success? {
      ConvertedHeaders(s.gtid, xId, s.buffered);
      var (sent, out) := Deliver(env.consumer, converted.value);
      assert r.0.delivered == s.delivered + sent;
      assert r.0.delivered[|s.delivered|..] == sent;
      assert r.0.delivered[..|s.delivered|] == s.delivered;
      DeliveredAreGiven(env.consumer, converted.value);
    } else {
      assert r.0.delivered == s.delivered;
    }
  }

  /** A TABLE_MAP event registers the table through the table map; its
      error, if any, is returned with the id map unchanged. */
  lemma StepTableMapEvent(env: Env, s: HandlerState, e: BinlogEvent)
    requires StateValid(s) && e.payload.TableMap?
    ensures var r := Step(env, s, e);
      var p := e.payload;
      var (fields, _) := FieldsLookup(s.fieldsCache, env.db, p.schema, p.table);
      && r.0.buffered == s.buffered && r.0.gtid == s.gtid && r.0.delivered == s.delivered
      && (fields.Failure? ==> r.1 == Fail(fields.error) && r.0.tables == s.tables)
      && (fields.Success? ==>
            && r.1 == Pass && p.tableId in r.0.tables
            && r.0.tables[p.tableId] == TableMetadata(p.schema, p.table, fields.value))
  {
    var p := e.payload;
    AddEntryProperties(s.tables, s.fieldsCache, env.db, p.tableId, p.schema, p.table);
  }

  /** A row event for an unknown table id is skipped without error; for a
      known id one entry is buffered and nothing is handed over. */
  lemma StepRowsEvent(env: Env, s: HandlerState, e: BinlogEvent)
    requires StateValid(s) && e.payload.Rows?
    ensures var r := Step(env, s, e);
      var id := e.payload.rowsEvent.tableId;
      && r.1 == Pass
      && (id !in s.tables ==> r.0 == s)
      && (id in s.tables ==>
            r.0 == s.(buffered := s.buffered + [RowsEventData(e.Header(), e.payload.rowsEvent, s.tables[id])]))
  {
  }

  // ---------------------------------------------------------------------
  // Properties of a run
  // ---------------------------------------------------------------------

  /** Running two stretches of events is running the first and, unless it
      failed, the second from where the first left off. */
  lemma {:induction false} RunConcat(env: Env, s: HandlerState, a: seq<BinlogEvent>, b: seq<BinlogEvent>)
    requires StateValid(s)
    ensures var (mid, err) := Run(env, s, a);
      Run(env, s, a + b) == if err.Fail? then (mid, err) else Run(env, mid, b)
    decreases |a|
  {
    if a == [] {
      assert a + b == b;
    } else {
      assert (a + b)[0] == a[0] && (a + b)[1..] == a[1..] + b;
      var (next, err) := Step(env, s, a[0]);
      if err.Pass? {
        RunConcat(env, next, a[1..], b);
      }
    }
  }

  /** Messages once handed to the consumer stay handed over: a run only
      ever extends the delivered sequence. */
  lemma {:induction false} RunOnlyExtendsDelivered(env: Env, s: HandlerState, events: seq<BinlogEvent>)
    requires StateValid(s)
    ensures var r := Run(env, s, events);
      |s.delivered| <= |r.0.delivered| && r.0.delivered[..|s.delivered|] == s.delivered
    decreases |events|
  {
    if events != [] {
      var e := events[0];
      var (next, err) := Step(env, s, e);
      assert |s.delivered| <= |next.delivered| && next.delivered[..|s.delivered|] == s.delivered by {
        match e.payload
        case Query(_) => StepQueryEvent(env, s, e);
        case Xid(_) => StepXidEvent(env, s, e);
        case _ =>
      }
      if err.Pass? {
        RunOnlyExtendsDelivered(env, next, events[1..]);
        var final := Run(env, next, events[1..]).0.delivered;
        assert final[..|next.delivered|][..|s.delivered|] == final[..|s.delivered|];
      }
    }
  }

  // ---------------------------------------------------------------------
  // End-to-end scenarios
  // ---------------------------------------------------------------------

  /** Table 1 is `db.t`. */
  function TableT(): BinlogEvent
  {
    BinlogEvent(100, 200, TableMap(1, "db", "t"))
  }

  lemma BuildRowAB(x: Value, y: Value)
    ensures BuildRow(["a", "b"], [x, y]) == map["a" := x, "b" := y]
  {
    BuildRowAppend([], [], "a", x);
    BuildRowAppend(["a"], [x], "b", y);
    assert [] + ["a"] == ["a"] && [] + [x] == [x];
    assert ["a"] + ["b"] == ["a", "b"] && [x] + [y] == [x, y];
    assert BuildRow([], []) == map[];
  }

  /** A row of two values under columns a, b. */
  lemma MapRowAB(x: Value, y: Value)
    ensures MapRow([x, y], NumberedFields(["a", "b"])) == MessageRowData(map["a" := x, "b" := y], "")
  {
    var fields := NumberedFields(["a", "b"]);
    assert fields[0] == "a" && fields[1] == "b" && |fields| == 2;
    assert DetectMismatch([x, y], fields) == (false, "");
    var keys := RowKeys([x, y], fields, false);
    assert keys[0] == "a" && keys[1] == "b";
    assert keys == ["a", "b"];
    BuildRowAB(x, y);
  }

  function TableTMetadata(): TableMetadata
  {
    TableMetadata("db", "t", NumberedFields(["a", "b"]))
  }

  /** The buffered form of a row event for table 1. */
  function BufferedT(rowsType: RowsEventType, rows: seq<seq<Value>>): RowsEventData
  {
    RowsEventData(EventHeader(101, rowsType, 300), RowsEvent(1, rows), TableTMetadata())
  }

  function AfterTableT(): HandlerState
  {
    InitialState(map[1 := TableTMetadata()], map[CacheKey("db", "t") := TableTMetadata().fields])
  }

  lemma StepTableT(env: Env)
    requires env.db("db", "t") == Success(["a", "b"])
    ensures Step(env, InitialState(map[], map[]), TableT()) == (AfterTableT(), Pass)
  {
  }

  lemma StepCommitOne(env: Env, d: RowsEventData, xId: uint64)
    requires forall m :: env.consumer(m) == Pass
    requires Dense(d.tableMetadata.fields) && EventMessages("", xId, d).Success?
    ensures StateValid(AfterTableT().(buffered := [d]))
    ensures Step(env, AfterTableT().(buffered := [d]), BinlogEvent(102, 400, Xid(xId)))
         == (AfterTableT().(delivered := EventMessages("", xId, d).value), Pass)
  {
    ConvertedSingle("", xId, d);
    var ms := EventMessages("", xId, d).value;
    assert Deliver(env.consumer, ms) == (ms, Pass);
  }

  lemma RunSingle(env: Env, s: HandlerState, e: BinlogEvent)
    requires StateValid(s)
    ensures Run(env, s, [e]) == Step(env, s, e)
  {
    assert [e][1..] == [];
  }

  lemma RunAfterPass(env: Env, s: HandlerState, e: BinlogEvent, rest: seq<BinlogEvent>)
    requires StateValid(s) && Step(env, s, e).1 == Pass
    ensures Run(env, s, [e] + rest) == Run(env, Step(env, s, e).0, rest)
  {
    assert ([e] + rest)[0] == e && ([e] + rest)[1..] == rest;
  }

  lemma StepRowsT(env: Env, rowsType: RowsEventType, rows: seq<seq<Value>>)
    ensures Step(env, AfterTableT(), BinlogEvent(101, 300, Rows(rowsType, RowsEvent(1, rows))))
         == (AfterTableT().(buffered := [BufferedT(rowsType, rows)]), Pass)
  {
    var e2 := BinlogEvent(101, 300, Rows(rowsType, RowsEvent(1, rows)));
    var s := AfterTableT();
    StepRowsEvent(env, s, e2);
    assert e2.Header() == EventHeader(101, rowsType, 300);
    assert 1 in s.tables && s.tables[1] == TableTMetadata();
    assert s.buffered + [BufferedT(rowsType, rows)] == [BufferedT(rowsType, rows)];
  }

  /** After TABLE_MAP for table 1 (columns a, b) and one row event for it,
      a commit hands over exactly that event's messages. */
  lemma OneEventTransaction(env: Env, rowsType: RowsEventType, rows: seq<seq<Value>>, xId: uint64)
    requires env.db("db", "t") == Success(["a", "b"])
    requires forall m :: env.consumer(m) == Pass
    requires EventMessages("", xId, BufferedT(rowsType, rows)).Success?
    ensures Run(env, InitialState(map[], map[]), [
        TableT(), BinlogEvent(101, 300, Rows(rowsType, RowsEvent(1, rows))), BinlogEvent(102, 400, Xid(xId))])
      == (AfterTableT().(delivered := EventMessages("", xId, BufferedT(rowsType, rows)).value), Pass)
  {
    var e1 := TableT();
    var e2 := BinlogEvent(101, 300, Rows(rowsType, RowsEvent(1, rows)));
    var e3 := BinlogEvent(102, 400, Xid(xId));
    var d := BufferedT(rowsType, rows);
    StepTableT(env);
    StepRowsT(env, rowsType, rows);
    StepCommitOne(env, d, xId);
    RunSingle(env, AfterTableT().(buffered := [d]), e3);
    RunAfterPass(env, AfterTableT(), e2, [e3]);
    RunAfterPass(env, InitialState(map[], map[]), e1, [e2, e3]);
    assert [e2] + [e3] == [e2, e3];
    assert [e1] + [e2, e3] == [e1, e2, e3];
  }

  /** TABLE_MAP for table 1 = db.t with columns a, b, one written row
      (1, 2) and the commit 7 give exactly one Insert message, keyed by
      the column names and carrying transaction id 7. */
  lemma InsertTransaction(env: Env)
    requires env.db("db", "t") == Success(["a", "b"])
    requires forall m :: env.consumer(m) == Pass
    ensures var r := Run(env, InitialState(map[], map[]), [
        TableT(),
        BinlogEvent(101, 300, Rows(WriteRowsV1, RowsEvent(1, [[IntValue(1), IntValue(2)]]))),
        BinlogEvent(102, 400, Xid(7))]);
      && r.1 == Pass
      && |r.0.delivered| == 1
      && r.0.delivered[0].InsertMessage?
      && r.0.delivered[0].data == MessageRowData(map["a" := IntValue(1), "b" := IntValue(2)], "")
      && r.0.delivered[0].header.xId == 7
      && r.0.delivered[0].header.schema == "db" && r.0.delivered[0].header.table == "t"
  {
    var rows := [[IntValue(1), IntValue(2)]];
    EventMessagesContents("", 7, BufferedT(WriteRowsV1, rows));
    MapRowAB(IntValue(1), IntValue(2));
    OneEventTransaction(env, WriteRowsV1, rows, 7);
  }

  /** An update with the row pair (1, 2) -> (1, 3) committed as 8 gives one
      Update message with the old and the new row. */
  lemma UpdateTransaction(env: Env)
    requires env.db("db", "t") == Success(["a", "b"])
    requires forall m :: env.consumer(m) == Pass
    ensures var r := Run(env, InitialState(map[], map[]), [
        TableT(),
        BinlogEvent(101, 300, Rows(UpdateRowsV2, RowsEvent(1, [[IntValue(1), IntValue(2)], [IntValue(1), IntValue(3)]]))),
        BinlogEvent(102, 400, Xid(8))]);
      && r.1 == Pass
      && |r.0.delivered| == 1
      && r.0.delivered[0].UpdateMessage?
      && r.0.delivered[0].oldData == MessageRowData(map["a" := IntValue(1), "b" := IntValue(2)], "")
      && r.0.delivered[0].newData == MessageRowData(map["a" := IntValue(1), "b" := IntValue(3)], "")
      && r.0.delivered[0].header.xId == 8
  {
    var rows := [[IntValue(1), IntValue(2)], [IntValue(1), IntValue(3)]];
    EventMessagesContents("", 8, BufferedT(UpdateRowsV2, rows));
    MapRowAB(IntValue(1), IntValue(2));
    MapRowAB(IntValue(1), IntValue(3));
    OneEventTransaction(env, UpdateRowsV2, rows, 8);
  }

  /** A row event for a table id never mapped gives no message and does
      not abort the file. */
  lemma UnknownTableIsSkipped(env: Env)
    ensures var r := Run(env, InitialState(map[], map[]), [
        BinlogEvent(101, 300, Rows(WriteRowsV1, RowsEvent(9, [[IntValue(1)]]))),
        BinlogEvent(102, 400, Xid(7))]);
      r.1 == Pass && r.0.delivered == []
  {
  }

  // ---------------------------------------------------------------------
  // The handler as the source runs it
  // ---------------------------------------------------------------------

  class EventHandler {
    const rowRowsEventBuffer: RowsEventBuffer
    const consumer: Consumer
    const tableMap: TableMap
    const parseUuid: UuidParser
    /** the messages handed to the consumer so far */
    ghost var delivered: seq<Message>

    ghost predicate Valid()
      reads this, rowRowsEventBuffer, tableMap
    {
      tableMap.Valid() && AllDense(rowRowsEventBuffer.buffered)
    }

    ghost function Environment(): Env
    {
      Env(tableMap.db, consumer, parseUuid)
    }

    ghost function State(): HandlerState
      reads this, rowRowsEventBuffer, tableMap
    {
      HandlerState(rowRowsEventBuffer.buffered, rowRowsEventBuffer.gtid,
        tableMap.tableMetadataMap, tableMap.fieldsCache, delivered)
    }

    constructor (tableMap: TableMap, consumer: Consumer, parseUuid: UuidParser)
      requires tableMap.Valid()
      ensures Valid() && fresh(rowRowsEventBuffer)
      ensures this.tableMap == tableMap
      ensures Environment() == Env(tableMap.db, consumer, parseUuid)
      ensures State() == InitialState(tableMap.tableMetadataMap, tableMap.fieldsCache)
    {
      rowRowsEventBuffer := new RowsEventBuffer();
      this.consumer := consumer;
      this.tableMap := tableMap;
      this.parseUuid := parseUuid;
      delivered := [];
    }

    /** `onEvent`: dispatches on the event type. */
    method OnEvent(e: BinlogEvent) returns (err: Outcome<Error>)
      requires Valid()
      modifies this, rowRowsEventBuffer, tableMap
      ensures Valid()
      ensures (State(), err) == Step(Environment(), old(State()), e)
    {
      match e.payload {
        case Gtid(_, _) => err := OnGtid(e);
        case Query(_) => err := OnQuery(e);
        case Xid(_) => err := OnXid(e);
        case TableMap(_, _, _) => err := OnTableMap(e);
        case Rows(_, _) => err := OnRows(e);
        case Unknown(_) => err := Pass;
      }
    }

    method OnGtid(e: BinlogEvent) returns (err: Outcome<Error>)
      requires Valid() && e.payload.Gtid?
      modifies rowRowsEventBuffer
      ensures Valid()
      ensures (State(), err) == Step(Environment(), old(State()), e)
    {
      var sid, gno := e.payload.sid, e.payload.gno;
      var uid := parseUuid(sid);
      if uid.None? {
        return Fail(InvalidUuid(sid));
      }
      rowRowsEventBuffer.SetGTID(GtidText(uid.value, gno));
      return Pass;
    }

    method OnQuery(e: BinlogEvent) returns (err: Outcome<Error>)
      requires Valid() && e.payload.Query?
      modifies this
      ensures Valid()
      ensures (State(), err) == Step(Environment(), old(State()), e)
    {
      var queryEvent := e.payload.queryEvent;
      var query := queryEvent.query;
      if IsBegin(query) {
      } else if IsSavepoint(query) {
      } else {
        var message := ConvertQueryEventToMessage(e.Header(), queryEvent);
        delivered := delivered + [message];
        err := consumer(message);
        if err.Fail? {
          return err;
        }
      }
      return Pass;
    }

    method OnXid(e: BinlogEvent) returns (err: Outcome<Error>)
      requires Valid() && e.payload.Xid?
      modifies this, rowRowsEventBuffer
      ensures Valid()
      ensures (State(), err) == Step(Environment(), old(State()), e)
    {
      var xId := e.payload.xid;
      var events, gtid := rowRowsEventBuffer.Drain();
      var converted := ConvertRowsEventsToMessages(gtid, xId, events);
      if converted.Failure? {
        return Fail(converted.error);
      }
      err := DeliverMessages(converted.value);
    }

    /** The loop of `onEvent`'s commit branch: hands the messages to the
        consumer in order and returns the first error. */
    method DeliverMessages(messages: seq<Message>) returns (err: Outcome<Error>)
      modifies this
      ensures delivered == old(delivered) + Deliver(consumer, messages).0
      ensures err == Deliver(consumer, messages).1
    {
      ghost var before := delivered;
      for i := 0 to |messages|
        invariant delivered == before + messages[..i]
        invariant forall j :: 0 <= j < i ==> consumer(messages[j]).Pass?
      {
        assert messages[..i + 1] == messages[..i] + [messages[i]];
        delivered := delivered + [messages[i]];
        err := consumer(messages[i]);
        if err.Fail? {
          DeliverStopsAtFirstFailure(consumer, messages, i);
          return err;
        }
      }
      assert messages[..|messages|] == messages;
      return Pass;
    }

    method OnTableMap(e: BinlogEvent) returns (err: Outcome<Error>)
      requires Valid() && e.payload.TableMap?
      modifies tableMap
      ensures Valid()
      ensures (State(), err) == Step(Environment(), old(State()), e)
    {
      err := tableMap.Add(e.payload.tableId, e.payload.schema, e.payload.table);
      if err.Fail? {
        return err;
      }
      return Pass;
    }

    method OnRows(e: BinlogEvent) returns (err: Outcome<Error>)
      requires Valid() && e.payload.Rows?
      modifies rowRowsEventBuffer
      ensures Valid()
      ensures (State(), err) == Step(Environment(), old(State()), e)
    {
      var rowsEvent := e.payload.rowsEvent;
      var tableMetadata := tableMap.LookupTableMetadata(rowsEvent.tableId);
      if tableMetadata.None? {
      } else {
        rowRowsEventBuffer.BufferRowsEventData(NewRowsEventData(e.Header(), rowsEvent, tableMetadata.value));
      }
      return Pass;
    }
  }

  /** `ParseBinlogToMessages`: a fresh handler over the given table map runs
      the file's events in order and stops at the first error. */
  method ParseBinlogToMessages(events: seq<BinlogEvent>, tableMap: TableMap, consumer: Consumer, parseUuid: UuidParser)
    returns (err: Outcome<Error>, ghost delivered: seq<Message>)
    requires tableMap.Valid()
    modifies tableMap
    ensures tableMap.Valid()
    ensures var r := Run(Env(tableMap.db, consumer, parseUuid),
                         InitialState(old(tableMap.tableMetadataMap), old(tableMap.fieldsCache)), events);
      && err == r.1 && delivered == r.0.delivered
      && tableMap.tableMetadataMap == r.0.tables && tableMap.fieldsCache == r.0.fieldsCache
  {
    var handler := new EventHandler(tableMap, consumer, parseUuid);
    ghost var env := handler.Environment();
    ghost var goal := Run(env, handler.State(), events);
    for k := 0 to |events|
      invariant handler.Valid() && handler.tableMap == tableMap && fresh(handler.rowRowsEventBuffer)
      invariant handler.Environment() == env
      invariant Run(env, handler.State(), events[k..]) == goal
    {
      assert events[k..][1..] == events[k + 1..];
      err := handler.OnEvent(events[k]);
      if err.Fail? {
        delivered := handler.delivered;
        return;
      }
    }
    delivered := handler.delivered;
    return Pass, delivered;
  }
}
