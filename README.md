# binlog-parser, modelled in Dafny

`binlog-parser` turns a MySQL binary log into a stream of change messages:
one Insert, Update or Delete message per changed row, and one Query message
per statement that is neither `BEGIN` nor a `SAVEPOINT`. This project models
its core as Dafny code and proves what that code promises:

- **Event handler** (`BinlogToMessages`). `onEvent` is modelled twice. `Step`
  and `Run` are a pure state machine over decoded events. The class
  `EventHandler` is the handler as the source runs it, and each of its
  methods is proved equal to `Step`. The handler works with:
  - the per-transaction row-event buffer (`RowsEventBuffers`);
  - the table map and its column cache (`Database`);
  - the row-to-column mapper (`RowData`);
  - the converter from buffered events to messages (`Conversion`);
  - the message types (`Messages`).
- **Consumer chain** (`ConsumerChains`, and the older copy
  `MessagesConsumerChains`). Schema and table filters are applied in
  order. Accepted messages then go to collectors, which run in order and
  stop at the first error.
- **Line index** (`Indexes`). A file is read as its lines, lines are
  appended, and the index is written back as lines joined by newlines. The
  order-preserving difference of two indexes is also modelled.
- **Incremental selection of binlogs.** There are two variants.
  - `Watchers` models the watcher's reaction to a changed binlog directory.
  - `BinlogIndexParsing` models `parseFromBinlogIndex`, with
    `parseMultipleBinlogFiles` run sequentially.
  - Both parse every binlog that is new against the processed index except
    the newest one. Both record only successes, and neither persists
    anything from a run in which a parse fails.
- **Flags** (`Flags`). `commaSeparatedListToArray` and the filters
  `createConsumerChain` installs.
- **Prototype** (`Prototype`). This is the earlier auditor prototype. It
  names the columns of a row differently. It buffers message builders that
  are later applied to a transaction id, and it has its own table map.
- **Support modules.** `Text` holds the pieces of Go's `strings`/`fmt` the
  core uses. `Wrappers` holds `Option`, `Outcome` and `Result`. `Errors`
  holds the error kinds.

Go `error` results become `Outcome<Error>` (`Pass` or `Fail(e)`). A Go
`panic` that the code raises on bad input becomes an error value:
- an odd number of update rows;
- a failed column query in the prototype.

Everything outside the core becomes a parameter:
- the binlog decoder hands over events as values;
- the SQL column query is a function `(schema, table) -> Result<columns>`;
- UUID parsing is a partial function;
- the consumer, each collector and each binlog parse are functions;
- file contents are strings;
- a file write is a function of (file name, text).

The files of the repository come from different revisions, and the model
follows each file as written where they disagree.
- `binlog_to_messages.go:78` calls `ConvertRowsEventsToMessages(gtid, xId, events)`.
  `conversion.go:42` takes only `(xId, events)`, and `message.go:24` has no GTID
  field. The model's converter takes the GTID the buffer drained and copies it
  into a `gtid` field of every row message's header. Query messages carry an
  empty GTID.
- `parse_from_binlog_index.go` calls `binlogParseFunc` as `parseFunc(file, outputDir)`.
  The model uses that two-argument form.
- `parse_from_binlog_index.go` imports the package `index`, and
  `index/index.go` is not part of this model. Its `Index` is taken to be
  the one in `watcher/index/index.go`, with a variadic `Append`, which
  `Indexes.Index.AppendAll` models.
- The older consumer chain (`parser/parser/messages_consumer_chain.go`)
  shares the predicates and the `Consume` function of the newer one, so
  `ConsumerChains.Contains` and `ConsumerChains.Passes` also model its
  `contains` (lines 97-105) and predicates (lines 55-73).

## Model

| member | source | states |
|---|---|---|
| Messages.MessageType.Tag | src/zalora/binlog-parser/parser/messages/message.go:9-14 | every type tag is one of the five- or six-letter strings `Insert`, `Update`, `Delete`, `Query` (fixed per constructor below) |
| Messages.TagsDistinct | src/zalora/binlog-parser/parser/messages/message.go:9-14 | two message kinds have the same tag exactly when they are the same kind |
| Messages.NewMessageHeader | src/zalora/binlog-parser/parser/messages/message.go:24-32 | schema, table, binlog position and xId are copied unchanged, the GTID is the one given, and the message time is the RFC 3339 UTC text of the given unix time |
| Messages.Message.GetType | src/zalora/binlog-parser/parser/messages/message.go:48-50 | a message reports the type of its own kind and no other |
| Messages.NewQueryMessage | src/zalora/binlog-parser/parser/messages/message.go:66-68 | a Query message with tag "Query", the given header, and the query text verbatim |
| Messages.NewUpdateMessage | src/zalora/binlog-parser/parser/messages/message.go:76-78 | an Update message with tag "Update", the given header, old data and new data in argument order |
| Messages.NewInsertMessage | src/zalora/binlog-parser/parser/messages/message.go:85-87 | an Insert message with tag "Insert" carrying the given header and row data |
| Messages.NewDeleteMessage | src/zalora/binlog-parser/parser/messages/message.go:94-96 | a Delete message with tag "Delete" carrying the given header and row data |
| BinlogEvents.BinlogEvent.Header | src/zalora/binlog-parser/parser/parser/binlog_to_messages.go:36 | an event's header carries its timestamp and position, and its type is a rows type exactly for row events |
| RowData.DetectMismatch | src/zalora/binlog-parser/parser/conversion/row_data.go:44-54 | a mismatch is reported exactly when the row and column counts differ, with the "column names array is missing field(s)" notice for a longer row, the "row is missing field(s)" notice for a shorter one, and an empty notice otherwise |
| RowData.UnknownKeyInjective | src/zalora/binlog-parser/parser/conversion/row_data.go:19 | different positions give different `(unknown_k)` keys |
| RowData.RowKeys | src/zalora/binlog-parser/parser/conversion/row_data.go:17-31 | one key per value of the row |
| RowData.BuildRowAppend | src/zalora/binlog-parser/parser/conversion/row_data.go:17-31 | storing one more value extends the row map by that key, overwriting an earlier equal key |
| RowData.BuildRowContents | src/zalora/binlog-parser/parser/conversion/row_data.go:17-31 | the keys of the built map are exactly the given keys, and with distinct keys every value is kept under its key |
| RowData.MapRowIsBuilt | src/zalora/binlog-parser/parser/conversion/row_data.go:11-39 | a mapped row is the map of its values under the positional keys, with the mismatch notice attached |
| RowData.MapRowOnMismatch | src/zalora/binlog-parser/parser/conversion/row_data.go:18-20 | on a count mismatch every value, not only the surplus ones, is stored under `(unknown_k)` for its position k, no other key appears, and the non-empty notice is attached |
| RowData.MapRowOnMatch | src/zalora/binlog-parser/parser/conversion/row_data.go:21-31 | with equal counts the value at position j is keyed by column name j, the keys are exactly the column names, and the notice is empty |
| RowData.MapRowToColumnNames | src/zalora/binlog-parser/parser/conversion/row_data.go:12-38 | the loop body maps one row as `MapRow` specifies |
| RowData.MapRowDataToColumnNames | src/zalora/binlog-parser/parser/conversion/row_data.go:8-42 | one mapped row per input row, in input order |
| Conversion.NewRowsEventData | src/zalora/binlog-parser/parser/conversion/conversion.go:17-23 | the buffered entry keeps the event header, the rows event and the table metadata as given |
| Conversion.ConvertQueryEventToMessage | src/zalora/binlog-parser/parser/conversion/conversion.go:25-40 | a Query message with the statement verbatim, the event's schema, table "(unknown)", xId 0, no GTID, the event's position and its time |
| Conversion.MapRows | src/zalora/binlog-parser/parser/conversion/conversion.go:46 | one mapped row per row of the event |
| Conversion.EventMessages | src/zalora/binlog-parser/parser/conversion/conversion.go:45-85 | one event fails exactly when it is an update with an odd number of rows, and then fails with the old/new pairs panic; otherwise it gives as many messages as its kind calls for, all with the event's own header |
| Conversion.Then | src/zalora/binlog-parser/parser/conversion/conversion.go:45-88 | the messages of two runs are concatenated and the earlier failure wins |
| Conversion.ThenAssociative | src/zalora/binlog-parser/parser/conversion/conversion.go:45-88 | concatenating runs is associative |
| Conversion.ConvertedMessages | src/zalora/binlog-parser/parser/conversion/conversion.go:42-89 | a failed conversion fails with the pairs panic; a successful one gives the total message count of the events |
| Conversion.ConvertedFailsIffOddUpdate | src/zalora/binlog-parser/parser/conversion/conversion.go:91-94 | the conversion fails exactly when some buffered event is an update with an odd row count, never by silently dropping rows |
| Conversion.EventMessagesContents | src/zalora/binlog-parser/parser/conversion/conversion.go:56-84 | write events give one Insert per row and delete events one Delete per row, in row order; update message i pairs row 2i (old) with row 2i+1 (new); any other event type gives no message |
| Conversion.ConvertedConcat | src/zalora/binlog-parser/parser/conversion/conversion.go:45-88 | converting two runs of events is converting each and concatenating the results, in event order |
| Conversion.ConvertedSingle | src/zalora/binlog-parser/parser/conversion/conversion.go:45-88 | a single event converts to exactly its own messages |
| Conversion.ConvertedHeaders | src/zalora/binlog-parser/parser/conversion/conversion.go:48-54 | every message carries the commit's xId and GTID with the schema, table and position of the event it came from |
| Conversion.CreateInsertMessagesFromRowData | src/zalora/binlog-parser/parser/conversion/conversion.go:110-118 | one Insert per row data, in order, all with the given header |
| Conversion.CreateDeleteMessagesFromRowData | src/zalora/binlog-parser/parser/conversion/conversion.go:120-128 | one Delete per row data, in order, all with the given header |
| Conversion.CreateUpdateMessagesFromRowData | src/zalora/binlog-parser/parser/conversion/conversion.go:91-108 | an odd count is the old/new pairs panic; 2n rows give n Updates, message i with old row 2i and new row 2i+1 |
| Conversion.ConvertRowsEvent | src/zalora/binlog-parser/parser/conversion/conversion.go:46-85 | the loop body converts one event as `EventMessages` specifies |
| Conversion.ConvertRowsEventsToMessages | src/zalora/binlog-parser/parser/conversion/conversion.go:42-89 | the result is the concatenation of the per-event message lists in event order, as `ConvertedMessages` specifies |
| RowsEventBuffers.RowsEventBuffer.constructor | src/zalora/binlog-parser/parser/parser/rows_event_buffer.go:12-14 | a new buffer holds no entry and no GTID |
| RowsEventBuffers.RowsEventBuffer.BufferRowsEventData | src/zalora/binlog-parser/parser/parser/rows_event_buffer.go:16-18 | exactly one entry is appended at the end and the GTID is unchanged |
| RowsEventBuffers.RowsEventBuffer.SetGTID | src/zalora/binlog-parser/parser/parser/rows_event_buffer.go:20-22 | the GTID is overwritten and the entries are unchanged |
| RowsEventBuffers.RowsEventBuffer.GTID | src/zalora/binlog-parser/parser/parser/rows_event_buffer.go:24-26 | the current GTID, without a change of state |
| RowsEventBuffers.RowsEventBuffer.Drain | src/zalora/binlog-parser/parser/parser/rows_event_buffer.go:28-36 | every entry in buffering order with the GTID, leaving the buffer empty with GTID "" |
| RowsEventBuffers.DrainFreshAndDrainedBuffer | src/zalora/binlog-parser/parser/parser/rows_event_buffer.go:28-36 | a fresh buffer and a just-drained one both drain to `([], "")` |
| RowsEventBuffers.ReuseAfterDrain | src/zalora/binlog-parser/parser/parser/rows_event_buffer.go:16-36 | the last GTID set wins, and a buffer reused after a drain hands out only what was added since |
| Database.CacheKeyCollision | src/zalora/binlog-parser/database/table_map.go:46 | the distinct pairs (`a_b`, `c`) and (`a`, `b_c`) share one cache key |
| Database.NumberedFields | src/zalora/binlog-parser/database/table_map.go:76-90 | the fields are keyed 0..n-1 and field i is column i in query order |
| Database.GetFieldsFromDb | src/zalora/binlog-parser/database/table_map.go:62-93 | a failed query gives its error; a successful one its columns numbered from 0 in query order |
| Database.FieldsLookup | src/zalora/binlog-parser/database/table_map.go:45-60 | every cached field map stays numbered 0..n-1, and so does every answer |
| Database.AddEntry | src/zalora/binlog-parser/database/table_map.go:28-38 | the id map and the cache stay numbered 0..n-1 |
| Database.CacheHitNeedsNoQuery | src/zalora/binlog-parser/database/table_map.go:48-50 | on a cache hit the answer is the cached fields whatever the database would say, and the cache is unchanged, so each key is queried at most once |
| Database.FailedQueryIsCached | src/zalora/binlog-parser/database/table_map.go:52-59 | a failed query returns its error but stores an empty field map, so a later lookup of the same pair succeeds with no fields |
| Database.AddEntryProperties | src/zalora/binlog-parser/database/table_map.go:28-38 | a successful Add maps the id to the schema, table and resolved fields, overwriting any earlier entry; a failed one returns the lookup error with the id map unchanged; other ids are never touched |
| Database.FieldsFromQueryAreNumbered | src/zalora/binlog-parser/database/table_map.go:52-59 | fields resolved by a successful query are its columns numbered 0..n-1 in query order |
| Database.TableMap.constructor | src/zalora/binlog-parser/database/table_map.go:20-26 | a new table map has no ids, an empty cache and has run no query |
| Database.TableMap.GetFields | src/zalora/binlog-parser/database/table_map.go:45-60 | answers and caches as `FieldsLookup` says, and runs the query only on a cache miss |
| Database.TableMap.Add | src/zalora/binlog-parser/database/table_map.go:28-38 | updates the id map and the cache as `AddEntry` says, querying only on a cache miss |
| Database.TableMap.LookupTableMetadata | src/zalora/binlog-parser/database/table_map.go:40-43 | found exactly when the id is mapped, with its metadata |
| Database.LookupInFreshMap | src/zalora/binlog-parser/database/table_map.go:20-43 | an id never added is not found |
| Database.AddAfterFailedQuery | src/zalora/binlog-parser/database/table_map.go:28-59 | after a failed Add, adding the same table under another id succeeds with no fields |
| BinlogToMessages.Deliver | src/zalora/binlog-parser/parser/parser/binlog_to_messages.go:78-84 | the messages handed over are a prefix of the list; all are handed over exactly when the consumer accepts every one; on failure the last one handed over is the refused one, and its error is returned |
| BinlogToMessages.DeliverStopsAtFirstFailure | src/zalora/binlog-parser/parser/parser/binlog_to_messages.go:78-84 | delivery stops right after the first refused message and returns its error |
| BinlogToMessages.DeliveredAreGiven | src/zalora/binlog-parser/parser/parser/binlog_to_messages.go:78-84 | only given messages are handed over |
| BinlogToMessages.Step | src/zalora/binlog-parser/parser/parser/binlog_to_messages.go:35-131 | one event keeps the handler's table map numbered 0..n-1 |
| BinlogToMessages.Run | src/zalora/binlog-parser/parser/parser/binlog_to_messages.go:16-27 | a run of events keeps the handler's table map numbered 0..n-1 |
| BinlogToMessages.StepGtidEvent | src/zalora/binlog-parser/parser/parser/binlog_to_messages.go:37-49 | an unparsable source id is an error that changes nothing; otherwise the pending GTID becomes `uuid:gno` and nothing else changes |
| BinlogToMessages.BeginMarker | src/zalora/binlog-parser/parser/parser/binlog_to_messages.go:55-56 | once the spaces around it are trimmed, a statement opens a transaction exactly when it spells BEGIN in any mixture of cases, and nothing more |
| BinlogToMessages.SavepointMarker | src/zalora/binlog-parser/parser/parser/binlog_to_messages.go:57-58 | once the spaces around it are trimmed, a statement is a savepoint exactly when it starts with SAVEPOINT spelled in any mixture of cases |
| BinlogToMessages.BeginMarkerExample | src/zalora/binlog-parser/parser/parser/binlog_to_messages.go:55-56 | ` Begin ` opens a transaction |
| BinlogToMessages.TabbedBeginExample | src/zalora/binlog-parser/parser/parser/binlog_to_messages.go:55-67 | a tab before `BEGIN` makes it a statement, since only spaces are trimmed |
| BinlogToMessages.SavepointMarkerExample | src/zalora/binlog-parser/parser/parser/binlog_to_messages.go:57-58 | `savepoint sp1` is skipped as a savepoint |
| BinlogToMessages.StatementExamples | src/zalora/binlog-parser/parser/parser/binlog_to_messages.go:55-67 | `BEGIN WORK` and `ROLLBACK TO SAVEPOINT sp1` are neither marker, so each becomes a Query message |
| BinlogToMessages.StepQueryEvent | src/zalora/binlog-parser/parser/parser/binlog_to_messages.go:51-69 | `BEGIN` and `SAVEPOINT ...` (trimmed of blanks, any case) change nothing; any other statement hands exactly one Query message to the consumer and returns its outcome; buffer, GTID and table map are untouched |
| BinlogToMessages.StepXidEvent | src/zalora/binlog-parser/parser/parser/binlog_to_messages.go:71-86 | a commit empties the buffer and the GTID and hands over a prefix of the converted messages in order, all of them exactly when nothing fails; each carries the commit's id and the drained GTID; a conversion failure hands over nothing |
| BinlogToMessages.StepTableMapEvent | src/zalora/binlog-parser/parser/parser/binlog_to_messages.go:88-102 | the table is registered through the table map; a lookup error is returned with the id map unchanged |
| BinlogToMessages.StepRowsEvent | src/zalora/binlog-parser/parser/parser/binlog_to_messages.go:104-124 | a row event for an unknown table id is skipped without error; for a known id exactly one entry is buffered and nothing is handed over |
| BinlogToMessages.RunConcat | src/zalora/binlog-parser/parser/parser/binlog_to_messages.go:26 | running two stretches of events is running the first and, unless it failed, the second from where it stopped |
| BinlogToMessages.RunOnlyExtendsDelivered | src/zalora/binlog-parser/parser/parser/binlog_to_messages.go:35-131 | messages handed to the consumer are never taken back: a run only extends the delivered sequence |
| BinlogToMessages.BuildRowAB | src/zalora/binlog-parser/parser/conversion/row_data.go:17-31 | two values under columns a, b give the map a := x, b := y |
| BinlogToMessages.MapRowAB | src/zalora/binlog-parser/parser/conversion/row_data.go:8-42 | a two-value row under columns a, b is keyed by the names with no notice |
| BinlogToMessages.StepTableT | src/zalora/binlog-parser/parser/parser/binlog_to_messages.go:88-102 | TABLE_MAP for table 1 registers `db.t` with columns a, b |
| BinlogToMessages.StepCommitOne | src/zalora/binlog-parser/parser/parser/binlog_to_messages.go:71-86 | a commit after one buffered event hands over exactly that event's messages |
| BinlogToMessages.RunSingle | src/zalora/binlog-parser/parser/parser/binlog_to_messages.go:26 | a one-event run is one step |
| BinlogToMessages.RunAfterPass | src/zalora/binlog-parser/parser/parser/binlog_to_messages.go:26 | after a step without error the run continues from the new state |
| BinlogToMessages.StepRowsT | src/zalora/binlog-parser/parser/parser/binlog_to_messages.go:104-124 | a row event for the mapped table 1 is buffered with its metadata |
| BinlogToMessages.OneEventTransaction | src/zalora/binlog-parser/parser/parser/binlog_to_messages.go:71-124 | TABLE_MAP, one row event and a commit hand over exactly that event's messages |
| BinlogToMessages.InsertTransaction | src/zalora/binlog-parser/parser/parser/binlog_to_messages.go:71-124 | one written row committed as 7 gives one Insert keyed by column names, with xId 7, schema db, table t |
| BinlogToMessages.UpdateTransaction | src/zalora/binlog-parser/parser/parser/binlog_to_messages.go:71-124 | one updated row pair committed as 8 gives one Update with the old and the new row |
| BinlogToMessages.UnknownTableIsSkipped | src/zalora/binlog-parser/parser/parser/binlog_to_messages.go:112-118 | a row event for an unmapped table id gives no message and no error |
| BinlogToMessages.EventHandler.constructor | src/zalora/binlog-parser/parser/parser/binlog_to_messages.go:20-24 | a new handler has an empty buffer and the given table map, consumer and UUID parser |
| BinlogToMessages.EventHandler.OnEvent | src/zalora/binlog-parser/parser/parser/binlog_to_messages.go:35-131 | the new state and the returned error are those of `Step` |
| BinlogToMessages.EventHandler.OnGtid | src/zalora/binlog-parser/parser/parser/binlog_to_messages.go:37-49 | as `Step` for a GTID event |
| BinlogToMessages.EventHandler.OnQuery | src/zalora/binlog-parser/parser/parser/binlog_to_messages.go:51-69 | as `Step` for a QUERY event |
| BinlogToMessages.EventHandler.OnXid | src/zalora/binlog-parser/parser/parser/binlog_to_messages.go:71-86 | as `Step` for an XID event |
| BinlogToMessages.EventHandler.DeliverMessages | src/zalora/binlog-parser/parser/parser/binlog_to_messages.go:78-84 | the loop hands over what `Deliver` says and returns its outcome |
| BinlogToMessages.EventHandler.OnTableMap | src/zalora/binlog-parser/parser/parser/binlog_to_messages.go:88-102 | as `Step` for a TABLE_MAP event |
| BinlogToMessages.EventHandler.OnRows | src/zalora/binlog-parser/parser/parser/binlog_to_messages.go:104-124 | as `Step` for a row event |
| BinlogToMessages.ParseBinlogToMessages | src/zalora/binlog-parser/parser/parser/binlog_to_messages.go:16-27 | the file's events run in order from a fresh handler and stop at the first error; the table map ends as `Run` says |
| ConsumerChains.Contains | src/zalora/binlog-parser/parser/consumer_chain.go:131-139 | true exactly when some element equals the string |
| ConsumerChains.Passes | src/zalora/binlog-parser/parser/consumer_chain.go:81-99 | a schema filter passes a message with no schema, otherwise exactly when its schema is listed; a table filter likewise for the table |
| ConsumerChains.RunCollectors | src/zalora/binlog-parser/parser/consumer_chain.go:70-78 | collectors run in order; the outcome is Pass exactly when all accept; on failure the last one run is the failing one and its error is returned |
| ConsumerChains.RunCollectorsStopsAtFirstFailure | src/zalora/binlog-parser/parser/consumer_chain.go:70-76 | the first failing collector is the last to run and its error is returned |
| ConsumerChains.Indices | src/zalora/binlog-parser/parser/consumer_chain.go:70-76 | helper: the positions 0..n-1 in order, with which the model records the collectors that ran; the source's range loop has no index |
| ConsumerChains.CheckPredicates | src/zalora/binlog-parser/parser/consumer_chain.go:62-68 | the message is accepted exactly when every predicate passes it |
| ConsumerChains.RunCollectorsInOrder | src/zalora/binlog-parser/parser/consumer_chain.go:70-78 | the loop runs collectors 0, 1, ... up to the first failure and returns what `RunCollectors` says |
| ConsumerChains.RejectedMessageIsDropped | src/zalora/binlog-parser/parser/consumer_chain.go:62-68 | a message some predicate rejects runs no collector and gives no error |
| ConsumerChains.AcceptedMessageReachesAllCollectors | src/zalora/binlog-parser/parser/consumer_chain.go:61-79 | an accepted message reaches every collector when all of them succeed |
| ConsumerChains.EmptyChainAcceptsAll | src/zalora/binlog-parser/parser/consumer_chain.go:25-27 | a new chain accepts any message and returns no error |
| ConsumerChains.AcceptsAppend | src/zalora/binlog-parser/parser/consumer_chain.go:29-35 | adding a predicate narrows the chain by exactly that predicate, whatever its position |
| ConsumerChains.AfterLastSlash | src/zalora/binlog-parser/parser/consumer_chain.go:46 | the part after the last slash has no slash, and a path without slash is its own last part |
| ConsumerChains.BaseIsIdentity | src/zalora/binlog-parser/parser/consumer_chain.go:46-48 | a path is accepted as a file name exactly when it is "/" or non-empty without a slash |
| ConsumerChains.ConsumerChain.constructor | src/zalora/binlog-parser/parser/consumer_chain.go:25-27 | no predicates, no collectors, no output dir, no pretty printing |
| ConsumerChains.ConsumerChain.IncludeTables | src/zalora/binlog-parser/parser/consumer_chain.go:29-31 | exactly one table filter is appended after the existing predicates |
| ConsumerChains.ConsumerChain.IncludeSchemas | src/zalora/binlog-parser/parser/consumer_chain.go:33-35 | exactly one schema filter is appended after the existing predicates |
| ConsumerChains.ConsumerChain.OutputParsedFilesToDir | src/zalora/binlog-parser/parser/consumer_chain.go:37-39 | sets the output directory |
| ConsumerChains.ConsumerChain.PrettyPrint | src/zalora/binlog-parser/parser/consumer_chain.go:41-43 | sets the pretty-print switch |
| ConsumerChains.ConsumerChain.CollectAsJsonInFile | src/zalora/binlog-parser/parser/consumer_chain.go:45-59 | a name that is not a bare file name is refused with its message; a file creation error is returned; otherwise exactly one collector is appended |
| ConsumerChains.ConsumerChain.ConsumeMessage | src/zalora/binlog-parser/parser/consumer_chain.go:61-79 | returns what `Consume` says and runs exactly the collectors it says, in order |
| ConsumerChains.FilterByTable | src/zalora/binlog-parser/parser/consumer_chain.go:29-79 | a chain including some tables drops a message of any other table without error and hands a message of a listed table to its file |
| MessagesConsumerChains.MessagesConsumerChain.constructor | src/zalora/binlog-parser/parser/parser/messages_consumer_chain.go:19-21 | no predicates, no collectors |
| MessagesConsumerChains.MessagesConsumerChain.IncludeTables | src/zalora/binlog-parser/parser/parser/messages_consumer_chain.go:23-25 | exactly one table filter appended |
| MessagesConsumerChains.MessagesConsumerChain.IncludeSchemas | src/zalora/binlog-parser/parser/parser/messages_consumer_chain.go:27-29 | exactly one schema filter appended |
| MessagesConsumerChains.MessagesConsumerChain.CollectAsJsonInFile | src/zalora/binlog-parser/parser/parser/messages_consumer_chain.go:31-33 | exactly one collector appended |
| MessagesConsumerChains.MessagesConsumerChain.ConsumeMessage | src/zalora/binlog-parser/parser/parser/messages_consumer_chain.go:35-53 | a rejected message runs no collector; otherwise collectors run in order until the first error, which is returned |
| MessagesConsumerChains.FirstCollectorErrorWins | src/zalora/binlog-parser/parser/parser/messages_consumer_chain.go:44-50 | when the first of two collectors fails, its error is returned and the second never runs |
| Indexes.DropCR | src/zalora/binlog-parser/watcher/index/index.go:21-23 | a line loses at most one final carriage return |
| Indexes.ScanLinesCut | src/zalora/binlog-parser/watcher/index/index.go:21-23 | the first line ends at the first newline |
| Indexes.ScanLinesLast | src/zalora/binlog-parser/watcher/index/index.go:21-23 | a final unterminated line is read as a line |
| Indexes.ScanFromIsScanLines | src/zalora/binlog-parser/watcher/index/index.go:18-23 | cutting at one newline after another reads the same lines as splitting at every newline |
| Indexes.Serialized | src/zalora/binlog-parser/watcher/index/index.go:36-39 | the written text always ends in a newline |
| Indexes.SerializedAppend | src/zalora/binlog-parser/watcher/index/index.go:28-39 | an empty index is written as a single newline, and one more line adds that line and a newline |
| Indexes.ScanSerialized | src/zalora/binlog-parser/watcher/index/index.go:17-39 | reading back what was written gives the same lines when there is at least one and no line holds a newline or ends in a carriage return; an empty index reads back as one empty line |
| Indexes.DifferenceMembership | src/zalora/binlog-parser/watcher/index/index.go:41-61 | a line is in the difference exactly when it is a line of the first index and of no line of the second |
| Indexes.DifferenceConcat | src/zalora/binlog-parser/watcher/index/index.go:46-58 | the difference keeps the first index's order and duplicates: it distributes over concatenation |
| Indexes.DifferenceOfContained | src/zalora/binlog-parser/watcher/index/index.go:41-61 | nothing is new when every line is already known |
| Indexes.DifferenceSelf | src/zalora/binlog-parser/watcher/index/index.go:41-61 | an index has nothing new against itself |
| Indexes.DifferenceEmpty | src/zalora/binlog-parser/watcher/index/index.go:41-61 | against an empty index every line is new, in order |
| Indexes.NextLine | src/zalora/binlog-parser/watcher/index/index.go:21-22 | one scanner step takes the first line and leaves a shorter rest |
| Indexes.Index.constructor | src/zalora/binlog-parser/watcher/index/index.go:17-26 | the index holds the file's lines in order, the final unterminated one included |
| Indexes.Index.Append | src/zalora/binlog-parser/watcher/index/index.go:28-30 | exactly one line is added at the end |
| Indexes.Index.AppendAll | src/zalora/binlog-parser/parse_from_binlog_index.go:62 | the lines are added at the end, in order |
| Indexes.Index.SyncFile | src/zalora/binlog-parser/watcher/index/index.go:36-39 | the named file receives the lines joined by newlines plus a final newline, and the write's outcome is returned |
| Indexes.Index.Sync | src/zalora/binlog-parser/watcher/index/index.go:32-34 | as SyncFile, for the file the index was read from |
| Indexes.Index.Diff | src/zalora/binlog-parser/watcher/index/index.go:41-61 | the lines of this index missing from the other, as `Difference` |
| Indexes.AppendTwoAndSerialize | src/zalora/binlog-parser/watcher/index/index.go:17-39 | a one-line index with two lines appended is written as three newline-terminated lines |
| Watchers.FirstParseError | src/zalora/binlog-parser/watcher/watcher.go:52-61 | a reported failure position lies within the files |
| Watchers.FirstParseErrorIsFirst | src/zalora/binlog-parser/watcher/watcher.go:52-61 | the position found is the first failing file, and none is found exactly when all pass |
| Watchers.SucceededOnlySuccesses | src/zalora/binlog-parser/watcher/watcher.go:63-65 | only files whose parse reports success are recorded, never more than were given |
| Watchers.SucceededKeepsEverySuccess | src/zalora/binlog-parser/watcher/watcher.go:63-65 | a file reported successful is never skipped; `(false, nil)` skips a file |
| Watchers.SucceededAll | src/zalora/binlog-parser/watcher/watcher.go:52-66 | when every parse succeeds, every file is recorded in order |
| Watchers.FirstParseErrorAt | src/zalora/binlog-parser/watcher/watcher.go:57-61 | the first failure is at i when file i fails and no earlier one does |
| Watchers.FirstParseErrorNone | src/zalora/binlog-parser/watcher/watcher.go:52-66 | there is no failure when every file passes |
| Watchers.SucceededSnoc | src/zalora/binlog-parser/watcher/watcher.go:63-65 | one more parsed file is recorded exactly when its parse reports success |
| Watchers.ParseOne | src/zalora/binlog-parser/watcher/watcher.go:53-65 | the parse error is returned; a file is appended only when it parsed without error and reported success |
| Watchers.ParseFiles | src/zalora/binlog-parser/watcher/watcher.go:52-66 | files are parsed in order up to and including the first failure, whose error is returned; only the successes before it are appended |
| Watchers.Reconcile | src/zalora/binlog-parser/watcher/watcher.go:43-70 | a reaction does what `Reaction` says and writes only the files it lists |
| Watchers.BinlogIndexChanged | src/zalora/binlog-parser/watcher/watcher.go:17-71 | an error opening either index is returned before any parse; otherwise the reaction is `Reaction` of the two indexes' lines |
| Watchers.ParsedAreNew | src/zalora/binlog-parser/watcher/watcher.go:43-55 | the binlogs parsed are a prefix of the new ones, all in the server's index and not yet in the watcher's, and the newest new binlog is never parsed |
| Watchers.NotInInitIsLast | src/zalora/binlog-parser/watcher/watcher.go:52 | a line missing from all but the last position is the last line |
| Watchers.ReactionWhenAllSucceed | src/zalora/binlog-parser/watcher/watcher.go:52-70 | when all new binlogs but the newest parse successfully, they are all recorded in order, the index is written back, and no error is returned |
| Watchers.NextRunSeesOnlyNewest | src/zalora/binlog-parser/watcher/watcher.go:43-68 | against the index such a reaction writes, the only new binlog left is the newest one |
| BinlogIndexParsing.FirstErrorIsFirst | src/zalora/binlog-parser/parse_from_binlog_index.go:115-123 | the result is Pass exactly when no entry is an error, and otherwise the error of lowest index |
| BinlogIndexParsing.FindFirstError | src/zalora/binlog-parser/parse_from_binlog_index.go:115-123 | the loop returns the first error, as `FirstError` |
| BinlogIndexParsing.RemoveEmptyArrayEntries | src/zalora/binlog-parser/parse_from_binlog_index.go:105-113 | as written, the entries come back unchanged, empty ones included |
| BinlogIndexParsing.NonEmptyEntries | src/zalora/binlog-parser/parse_from_binlog_index.go:105-113 | the kept entries are exactly the non-empty ones, and a list with no empty entry is kept whole |
| BinlogIndexParsing.DropEmptyEntries | src/zalora/binlog-parser/parse_from_binlog_index.go:105-113 | the helper as its name says: the non-empty entries, in order |
| BinlogIndexParsing.AsWrittenKeepsEmptySlot | src/zalora/binlog-parser/parse_from_binlog_index.go:105-113 | the helper as written hands back `[f, ""]` unchanged, where the intended result is `[f]` |
| BinlogIndexParsing.SlotsWhenNoError | src/zalora/binlog-parser/parse_from_binlog_index.go:79-91 | with no error every result slot holds its file |
| BinlogIndexParsing.ParsedAreTheSuccesses | src/zalora/binlog-parser/parse_from_binlog_index.go:79-98 | one result slot per file; a non-empty name is among the slots exactly when it is a given file that parsed without error, and an empty slot is among them exactly when some file failed or a given name was empty |
| BinlogIndexParsing.ParseMultipleBinlogFiles | src/zalora/binlog-parser/parse_from_binlog_index.go:72-103 | every file is parsed once, in order; the error of lowest index is returned with every result slot, as `removeEmptyArrayEntries` as written leaves them: file i where it parsed, an empty slot where it failed |
| BinlogIndexParsing.ParseMultipleBinlogFilesIntended | src/zalora/binlog-parser/parse_from_binlog_index.go:72-113 | with the helper its name intends: exactly the non-empty files that parsed without error, in order, with the error of lowest index |
| BinlogIndexParsing.ParseNewBinlogs | src/zalora/binlog-parser/parse_from_binlog_index.go:38-69 | a run does what `IndexRun` says (on success the new binlogs but the newest are appended verbatim, an empty line of the binlog index included) and writes only the files it lists |
| BinlogIndexParsing.ParseFromBinlogIndex | src/zalora/binlog-parser/parse_from_binlog_index.go:10-70 | a missing binlog index is an error before anything is parsed; so is an error opening either index; otherwise the run is `IndexRun` of the two indexes' lines |
| BinlogIndexParsing.WrittenOnlyWhenAllParsed | src/zalora/binlog-parser/parse_from_binlog_index.go:41-67 | the parsed index is written exactly when at least two binlogs are new and all but the newest parsed without error; it then gains exactly those binlogs, verbatim and in the server's order, after its own lines |
| BinlogIndexParsing.FailureIsAParseError | src/zalora/binlog-parser/parse_from_binlog_index.go:50-58 | a failed run that wrote nothing returns the parse error of one of the new binlogs it handed over, never of the newest |
| BinlogIndexParsing.EmptyIndexLineIsWritten | src/zalora/binlog-parser/parse_from_binlog_index.go:41-67 | with the binlog index `a`, ``, `b`, `c`, an empty parsed index and every parse succeeding, the empty name is parsed and the index is written as `a\n\nb\n`, an empty line included |
| Flags.CommaSeparatedListToArray | src/zalora/binlog-parser/main.go:124-136 | the loop gives the trimmed, non-empty comma-separated items in order, as `ListItems` |
| Flags.TrimmedPiece | src/zalora/binlog-parser/main.go:128 | a non-empty trimmed piece starts and ends with non-space and has only characters of the piece |
| Flags.TrimmedItemsAreClean | src/zalora/binlog-parser/main.go:127-133 | no item is empty or has white space at either end |
| Flags.TrimmedItemsWithout | src/zalora/binlog-parser/main.go:127-133 | a character no piece holds is in no item |
| Flags.ListItemsAreClean | src/zalora/binlog-parser/main.go:124-136 | no item is empty, none starts or ends with white space, and none holds a comma |
| Flags.TrimmedItemsOfBlank | src/zalora/binlog-parser/main.go:127-133 | blank pieces give no item |
| Flags.ListItemsOfBlank | src/zalora/binlog-parser/main.go:124-136 | an empty or all-blank list has no items |
| Flags.TrimmedItemsOfClean | src/zalora/binlog-parser/main.go:127-133 | clean pieces are kept unchanged and in order |
| Flags.ListItemsOfJoin | src/zalora/binlog-parser/main.go:124-136 | clean items without commas, joined by commas, come back unchanged and in order |
| Flags.FilterPredicatesAccept | src/zalora/binlog-parser/main.go:107-119 | with the intended filters a message is kept exactly when its table is listed (or none is listed, or it has none) and its schema is listed (likewise) |
| Flags.ChainPredicatesFilter | src/zalora/binlog-parser/main.go:107-119 | the same for the lists given on the command line |
| Flags.RowOf | src/zalora/binlog-parser/main.go:107-119 | a row message with the given schema and table |
| Flags.ListItemsOfWord | src/zalora/binlog-parser/main.go:124-136 | a single clean word is a one-item list |
| Flags.ListItemsOfEmpty | src/zalora/binlog-parser/main.go:124-136 | the empty flag value is the empty list |
| Flags.AsWrittenDropsAllWithoutFlags | src/zalora/binlog-parser/main.go:107-112 | with neither flag given, the filters as written drop every row of a named table; the intended ones keep it |
| Flags.AsWrittenDropsSelectedSchema | src/zalora/binlog-parser/main.go:114-118 | with `-include-tables T -include-schemas S`, the filters as written drop the rows of S.T; the intended ones keep them |
| Text.DigitChar | src/zalora/binlog-parser/parser/parser/binlog_to_messages.go:46 | a digit value below ten prints as a decimal digit character |
| Text.NatToString | src/zalora/binlog-parser/parser/parser/binlog_to_messages.go:46 | `%d` of a natural number is a non-empty string of digits |
| Text.IntToString | src/zalora/binlog-parser/parser/parser/binlog_to_messages.go:46 | `%d` of an integer is non-empty |
| Text.DecimalRoundTrip | src/zalora/binlog-parser/parser/parser/binlog_to_messages.go:46 | reading the printed number back gives the number |
| Text.NatToStringInjective | src/zalora/binlog-parser/parser/conversion/row_data.go:19 | distinct numbers print differently, so `(unknown_k)` keys never collide |
| Text.IndexOf | src/zalora/binlog-parser/watcher/index/index.go:21 | the first position of the character, or none when it does not occur |
| Text.IndexOfSeparated | src/zalora/binlog-parser/main.go:127 | the first separator after a separator-free prefix is found right after it |
| Text.TrimLeftFunc | src/zalora/binlog-parser/main.go:128 | a suffix of the input that starts with a kept character, all dropped characters being trimmed ones |
| Text.TrimRightFunc | src/zalora/binlog-parser/main.go:128 | a prefix of the input that ends with a kept character, all dropped characters being trimmed ones |
| Text.TrimFuncEnds | src/zalora/binlog-parser/main.go:128 | trimming both ends leaves a piece of the input that neither starts nor ends with a trimmed character |
| Text.TrimFuncKeepsCharacters | src/zalora/binlog-parser/main.go:128 | trimming adds no character |
| Text.TrimFuncEmpty | src/zalora/binlog-parser/main.go:128 | trimming leaves nothing exactly when every character is trimmed |
| Text.TrimSpaceProperties | src/zalora/binlog-parser/main.go:128 | `strings.TrimSpace` gives an input piece without white space at either end, empty exactly for a blank input |
| Text.TrimSpaceOfTrimmed | src/zalora/binlog-parser/main.go:128 | trimming an already trimmed string changes nothing |
| Text.UpperCharIsCapital | src/zalora/binlog-parser/parser/parser/binlog_to_messages.go:55-57 | an ASCII capital is the upper case of exactly its own spellings: itself, its small letter, and dotless i or long s for I and S |
| Text.ToUpperEquals | src/zalora/binlog-parser/parser/parser/binlog_to_messages.go:55 | upper-casing gives a word of capitals exactly for the texts that spell it letter by letter in any mixture of cases |
| Text.ToUpperHasPrefix | src/zalora/binlog-parser/parser/parser/binlog_to_messages.go:57 | upper-casing starts with a word of capitals exactly for the texts that start with a spelling of it in any case |
| Text.ToUpperIdempotent | src/zalora/binlog-parser/parser/parser/binlog_to_messages.go:55-57 | upper-casing twice is upper-casing once |
| Text.TrimBlanksOfPadded | src/zalora/binlog-parser/parser/parser/binlog_to_messages.go:55-57 | `strings.Trim(s, " ")` removes one space on either side of a text that does not start or end with one |
| Text.TrimBlanksOfUnpadded | src/zalora/binlog-parser/parser/parser/binlog_to_messages.go:55-57 | `strings.Trim(s, " ")` leaves a text without a space at either end unchanged |
| Text.Split | src/zalora/binlog-parser/main.go:127 | at least one piece, and no piece holds the separator |
| Text.SplitWithoutSeparator | src/zalora/binlog-parser/main.go:127 | a text without separator is one piece |
| Text.SplitAtFirstSeparator | src/zalora/binlog-parser/main.go:127 | splitting cuts at the first separator and goes on with the rest |
| Text.SplitKeepsCharacters | src/zalora/binlog-parser/main.go:127 | every character of every piece comes from the text |
| Text.SplitJoin | src/zalora/binlog-parser/main.go:127 | splitting undoes joining when no piece holds the separator |
| Prototype.Unnamed | src/zalora.com/auditor/parse-binlog/parse.go:52-60 | the count of unnamed positions before j is at most j |
| Prototype.Keys | src/zalora.com/auditor/parse-binlog/parse.go:54-62 | one key per position |
| Prototype.RowMaps | src/zalora.com/auditor/parse-binlog/parse.go:50-66 | one map per row |
| Prototype.KeyRow | src/zalora.com/auditor/parse-binlog/parse.go:51-63 | the inner loop keys one row as `RowMap` specifies |
| Prototype.RowData | src/zalora.com/auditor/parse-binlog/parse.go:47-69 | one map per row, in row order, each as `RowMap` specifies |
| Prototype.UnnamedIncreases | src/zalora.com/auditor/parse-binlog/parse.go:57-60 | the unknown counter never decreases along the row and grows at each unnamed position |
| Prototype.UnnamedNumbering | src/zalora.com/auditor/parse-binlog/parse.go:57-60 | every counter value below the final count is given to some unnamed position |
| Prototype.UnknownKeysDistinct | src/zalora.com/auditor/parse-binlog/parse.go:57-60 | two unnamed positions get different `(unknown_k)` keys |
| Prototype.UnknownKeysNumbered | src/zalora.com/auditor/parse-binlog/parse.go:57-60 | `(unknown_k)` is used for every k below the number of unnamed positions, counting them from 0 in row order |
| Prototype.RowMapKeys | src/zalora.com/auditor/parse-binlog/parse.go:54-62 | the keys of a row map are exactly the keys of its positions: the column name where there is one, `(unknown_k)` otherwise |
| Prototype.RowMapKeepsEveryValue | src/zalora.com/auditor/parse-binlog/parse.go:54-62 | with distinct column names unlike any `(unknown_k)`, every value is kept under its position's key |
| Prototype.HeaderBuilder.Build | src/zalora.com/auditor/parse-binlog/parse.go:80-97 | the built header has the captured schema, table and position with the given transaction id, and the captured binlog time as RFC 3339 text in the local zone of the process, not in UTC |
| Prototype.MessageBuilder.Apply | src/zalora.com/auditor/parse-binlog/parse.go:99-153 | applying a builder gives a message of its own kind with tag `UPDATE`, `INSERT` or `DELETE`, the captured rows and the header for the given transaction id |
| Prototype.PayloadSnoc | src/zalora.com/auditor/parse-binlog/parse.go:229-231 | the rows of builders appended together are the rows of each, concatenated |
| Prototype.CreateUpdateMessageBuildersFromRowData | src/zalora.com/auditor/parse-binlog/parse.go:158-177 | an odd count is the old/new pairs panic; 2n rows give n update builders, builder i with old row 2i and new row 2i+1 |
| Prototype.CreateInsertMessageBuildersFromRowData | src/zalora.com/auditor/parse-binlog/parse.go:179-189 | one insert builder per row, in order |
| Prototype.CreateDeleteMessageBuildersFromRowData | src/zalora.com/auditor/parse-binlog/parse.go:191-201 | one delete builder per row, in order |
| Prototype.PayloadOfEachRow | src/zalora.com/auditor/parse-binlog/parse.go:179-201 | insert and delete builders carry exactly the given rows, in order |
| Prototype.PayloadOfUpdatePairs | src/zalora.com/auditor/parse-binlog/parse.go:167-174 | update builders carry exactly the given rows, in order |
| Prototype.BuildersKeepRows | src/zalora.com/auditor/parse-binlog/parse.go:158-201 | building fails exactly for an update with an odd row count; otherwise no row is lost, added or reordered |
| Prototype.TableMap.constructor | src/zalora.com/auditor/parse-binlog/parse.go:208-210 | a new table map knows no id |
| Prototype.TableMap.LookupTableMetadata | src/zalora.com/auditor/parse-binlog/parse.go:216-219 | not found exactly for an absent id, otherwise the stored metadata |
| Prototype.TableMap.Add | src/zalora.com/auditor/parse-binlog/parse.go:212-214 | the id's entry is overwritten with the schema, table and numbered columns; other ids are untouched; a failed query leaves the map unchanged |
| Prototype.MessageBuffer.constructor | src/zalora.com/auditor/parse-binlog/parse.go:225-227 | a new buffer is empty |
| Prototype.MessageBuffer.BufferMessageBuilder | src/zalora.com/auditor/parse-binlog/parse.go:229-231 | the builders are appended in order |
| Prototype.MessageBuffer.BuildAllMessagesForTransactionId | src/zalora.com/auditor/parse-binlog/parse.go:233-245 | every buffered builder is applied to the id in buffer order, and the buffer is left empty |
| Prototype.BuiltMessagesKeepRows | src/zalora.com/auditor/parse-binlog/parse.go:233-245 | the built messages all carry the transaction id and together carry exactly the buffered rows, in order |
| Prototype.HandleRowDataEvent | src/zalora.com/auditor/parse-binlog/parse.go:247-271 | an unknown table id buffers nothing; otherwise the event's builders are appended, or an odd update count fails with the buffer unchanged |

## Left out

- Binary binlog decoding (the `go-mysql` replication library and `ParseFile`): events reach the model as values of `BinlogEvents.BinlogEvent`.
- UUID parsing (`uuid.FromBytes`): a partial function given to the handler. `BinlogToMessages.StepGtidEvent` states the outcome in its terms.
- Time formatting: the RFC 3339 text of a unix time is an uninterpreted value. It is `Rfc3339Utc(seconds)` for the UTC time of `message.go:28`, and `Rfc3339Local(seconds)` for the local-zone time of the prototype (`parse.go:84`, without `.UTC()`); the time zone itself and the text are not modelled. The wall-clock `MessageTime` of the prototype header is not modelled.
- The SQL side of the column query and the database connection: a function from (schema, table) to the columns or an error.
- JSON encoding, `jsonFileCollector`, `marshalMessage`, file creation and file writes: collectors, the collector factory and the file writer are functions. `Indexes.Index` keeps the list of writes it made.
- Concurrency: the goroutines and `WaitGroup` of `parseMultipleBinlogFiles` are modelled as a sequential loop over the files. The watcher's `fileMutex` and the file system watcher (`watcher/filesystem`) are not part of this model.
- `bufio.Scanner`'s 64 KiB line limit: lines of any length are read.
- Logging (`glog`): it has no effect on results.
- `filepath.Base`: modelled for `/`-separated paths only.
- `main()` and `printUsage` of `main.go`, `main()` of the prototype, `parse_single_file.go`, `parse_binlog_file.go` and `parser/main.go`: wiring and I/O only.
- `index/index.go` is not part of this model; `Indexes.Index` stands in for it.
- RowData.MapRowToColumnNames: requires the column names to be numbered 0..n-1 (`Dense`). The source panics when, without a count mismatch, a position has no column name. The table map always builds numbered maps and keeps them numbered as an invariant, so that panic is never modelled.
- Conversion.EventMessages: requires numbered column maps for the same reason.
- Prototype.TableMap.Add: returns the failed query's error instead of panicking, and leaves the map unchanged.
- Conversion.CreateUpdateMessagesFromRowData: the panic on an odd number of update rows (`conversion.go:92-94`) is the returned error `Panic(...)`; the conversion and the handler stop with it instead of unwinding. Prototype.CreateUpdateMessageBuildersFromRowData does the same for `parse.go:159-161`.
- Messages.MessageType.Tag: its own contract only bounds the tag's length. The tag of each kind is stated by the four message constructors, and distinctness by `Messages.TagsDistinct`.
- Watchers.BinlogIndexChanged: the error of the final `Sync` is dropped, as in the source, so the write's outcome does not appear in the result.

## Findings

| source | as written | input that shows it | evidently intended | confidence | as-written member | corrected member |
|---|---|---|---|---|---|---|
| src/zalora/binlog-parser/main.go:107-114 | `includeTablesFlag != nil` and `includeSchemasFlag != nil` always hold, since `flag.String` never returns nil. Filters for empty lists are installed even when no flag is given, and a table filter with no tables rejects every message that names a table | no `-include-tables` and no `-include-schemas`; an Insert into `db.t` is dropped | install a filter only when its flag lists something | not executed | Flags.AsWrittenDropsAllWithoutFlags | Flags.ChainPredicatesFilter |
| src/zalora/binlog-parser/main.go:117 | the schema list is installed with `IncludeTables`, as a filter on table names | `-include-tables t -include-schemas db`; an Insert into `db.t` is dropped, because `db` is not a table name | `chain.IncludeSchemas(includeSchemas...)` | not executed | Flags.AsWrittenDropsSelectedSchema | Flags.FilterPredicatesAccept |
| src/zalora/binlog-parser/parse_from_binlog_index.go:105-113 | `removeEmptyArrayEntries` copies every entry, so `parseMultipleBinlogFiles` returns the empty result slot of a failed file among the parsed files. Its only caller returns on any parse error before using the list (lines 56-58), so an empty slot reaches the parsed index only through an empty line of the binlog index that parses | files `[f, g]` where `g` fails: `[f, ""]` is returned; binlog index `a`, ``, `b`, `c` with every parse passing: the parsed index is written as `a\n\nb\n` | drop the empty entries and return `[f]` | not executed | BinlogIndexParsing.AsWrittenKeepsEmptySlot | BinlogIndexParsing.ParseMultipleBinlogFilesIntended |
