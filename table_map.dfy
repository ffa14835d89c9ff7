/** Resolving table ids to table metadata, with the column lists cached by
    schema and table (database/table_map.go). */
module Database {

  import opened Wrappers
  import opened Errors
  import opened RowData
  import opened Messages

  datatype TableMetadata = TableMetadata(schema: string, table: string, fields: map<int, string>)

  /** The column query `SELECT COLUMN_NAME ... ORDER BY ORDINAL_POSITION`:
      for a schema and a table, the column names in ordinal order or an
      error. The database itself is not modelled. */
  type ColumnQuery = (string, string) -> Result<seq<string>, Error>

  /** The cache key `schema + "_" + table`. */
  function CacheKey(schema: string, table: string): string
  {
    schema + "_" + table
  }

  /** Two different (schema, table) pairs can share one cache key. */
  lemma CacheKeyCollision()
    ensures ("a_b", "c") != ("a", "b_c")
    ensures CacheKey("a_b", "c") == CacheKey("a", "b_c")
  {
  }

  /** The column list numbered from 0 in query order. */
  function NumberedFields(columns: seq<string>): (fields: map<int, string>)
    ensures Dense(fields) && |fields| == |columns|
    ensures forall i :: 0 <= i < |columns| ==> i in fields && fields[i] == columns[i]
  {
    if |columns| == 0 then map[]
    else NumberedFields(columns[..|columns| - 1])[|columns| - 1 := columns[|columns| - 1]]
  }

  /** `getFieldsFromDb`: runs the column query and numbers the columns
      0..n-1 in the order the query returns them. */
  method GetFieldsFromDb(db: ColumnQuery, schema: string, table: string)
    returns (r: Result<map<int, string>, Error>)
    ensures db(schema, table).Failure? ==> r == Failure(db(schema, table).error)
    ensures db(schema, table).Success? ==> r == Success(NumberedFields(db(schema, table).value))
  {
    var rows := db(schema, table);
    if rows.Failure? {
      return Failure(rows.error);
    }
    var columns := rows.value;
    var fields: map<int, string> := map[];
    var i := 0;
    while i < |columns|
      invariant 0 <= i <= |columns|
      invariant fields == NumberedFields(columns[..i])
    {
      assert columns[..i + 1][..i] == columns[..i];
      fields := fields[i := columns[i]];
      i := i + 1;
    }
    assert columns[..i] == columns;
    return Success(fields);
  }

  type FieldsCache = map<string, map<int, string>>

  ghost predicate CacheDense(cache: FieldsCache)
  {
    forall key :: key in cache ==> Dense(cache[key])
  }

  ghost predicate TablesDense(tables: map<uint64, TableMetadata>)
  {
    forall id :: id in tables ==> Dense(tables[id].fields)
  }

  /** What `getFields` answers and the cache it leaves behind: a cache hit
      answers from the cache; a miss runs the query once and caches its
      answer, an empty field map (Go's nil map) when the query failed. */
  function FieldsLookup(cache: FieldsCache, db: ColumnQuery, schema: string, table: string)
    : (r: (Result<map<int, string>, Error>, FieldsCache))
    requires CacheDense(cache)
    ensures CacheDense(r.1)
    ensures r.0.Success? ==> Dense(r.0.value)
  {
    var key := CacheKey(schema, table);
    if key in cache then (Success(cache[key]), cache)
    else match db(schema, table)
      case Failure(e) => (Failure(e), cache[key := map[]])
      case Success(columns) => (Success(NumberedFields(columns)), cache[key := NumberedFields(columns)])
  }

  /** What `Add` returns and the id map and cache it leaves behind. */
  function AddEntry(tables: map<uint64, TableMetadata>, cache: FieldsCache, db: ColumnQuery,
                    id: uint64, schema: string, table: string)
    : (r: (Outcome<Error>, map<uint64, TableMetadata>, FieldsCache))
    requires TablesDense(tables) && CacheDense(cache)
    ensures TablesDense(r.1) && CacheDense(r.2)
  {
    var (fields, newCache) := FieldsLookup(cache, db, schema, table);
    match fields
    case Failure(e) => (Fail(e), tables, newCache)
    case Success(f) => (Pass, tables[id := TableMetadata(schema, table, f)], newCache)
  }

  /** A cache hit answers without consulting the database: the answer does
      not depend on the query, and the cache stays as it was. */
  lemma CacheHitNeedsNoQuery(cache: FieldsCache, db1: ColumnQuery, db2: ColumnQuery, schema: string, table: string)
    requires CacheDense(cache) && CacheKey(schema, table) in cache
    ensures FieldsLookup(cache, db1, schema, table) == FieldsLookup(cache, db2, schema, table)
    ensures FieldsLookup(cache, db1, schema, table) == (Success(cache[CacheKey(schema, table)]), cache)
  {
  }

  /** A failed query is cached as an empty field map, so the next lookup of
      the same pair succeeds with no fields whatever the database says. */
  lemma FailedQueryIsCached(cache: FieldsCache, db: ColumnQuery, later: ColumnQuery, schema: string, table: string)
    requires CacheDense(cache) && CacheKey(schema, table) !in cache
    requires db(schema, table).Failure?
    ensures var (first, cache1) := FieldsLookup(cache, db, schema, table);
      && first == Failure(db(schema, table).error)
      && FieldsLookup(cache1, later, schema, table) == (Success(map[]), cache1)
  {
  }

  /** After a successful `Add` the id resolves to the given schema and table
      and the fields the lookup resolved; a failed `Add` returns the lookup's
      error and leaves the id map alone; other ids are never touched. */
  lemma AddEntryProperties(tables: map<uint64, TableMetadata>, cache: FieldsCache, db: ColumnQuery,
                           id: uint64, schema: string, table: string)
    requires TablesDense(tables) && CacheDense(cache)
    ensures var (err, newTables, newCache) := AddEntry(tables, cache, db, id, schema, table);
      var (fields, lookupCache) := FieldsLookup(cache, db, schema, table);
      && newCache == lookupCache
      && (err.Pass? <==> fields.Success?)
      && (err.Fail? ==> err.error == fields.error && newTables == tables)
      && (err.Pass? ==> id in newTables && newTables[id] == TableMetadata(schema, table, fields.value))
      && (forall other :: other != id ==> (other in newTables <==> other in tables))
      && (forall other :: other != id && other in tables ==> newTables[other] == tables[other])
  {
  }

  /** The fields a successful query resolves are its columns numbered
      0..n-1 in the order returned. */
  lemma FieldsFromQueryAreNumbered(cache: FieldsCache, db: ColumnQuery, schema: string, table: string)
    requires CacheDense(cache) && CacheKey(schema, table) !in cache
    requires db(schema, table).Success?
    ensures var fields := FieldsLookup(cache, db, schema, table).0;
      var columns := db(schema, table).value;
      && fields.Success? && |fields.value| == |columns|
      && forall i :: 0 <= i < |columns| ==> fields.value[i] == columns[i]
  {
  }

  class TableMap {
    /** table id -> metadata, for the current binlog file */
    var tableMetadataMap: map<uint64, TableMetadata>
    /** cache key -> numbered column names */
    var fieldsCache: FieldsCache
    const db: ColumnQuery
    /** the cache keys the column query was run for, in order */
    ghost var queried: seq<string>

    /** The column lists are numbered 0..n-1, and the query ran at most once
        per cache key, exactly for the keys in the cache. */
    ghost predicate Valid()
      reads this
    {
      && TablesDense(tableMetadataMap)
      && CacheDense(fieldsCache)
      && (forall key :: key in fieldsCache <==> key in queried)
      && Distinct(queried)
    }

    constructor (db: ColumnQuery)
      ensures Valid() && this.db == db
      ensures tableMetadataMap == map[] && fieldsCache == map[] && queried == []
    {
      this.db := db;
      tableMetadataMap := map[];
      fieldsCache := map[];
      queried := [];
    }

    /** `getFields`. */
    method GetFields(schema: string, table: string) returns (r: Result<map<int, string>, Error>)
      requires Valid()
      modifies this`fieldsCache, this`queried
      ensures Valid()
      ensures (r, fieldsCache) == FieldsLookup(old(fieldsCache), db, schema, table)
      ensures queried == if CacheKey(schema, table) in old(fieldsCache) then old(queried)
                         else old(queried) + [CacheKey(schema, table)]
    {
      var cacheKey := CacheKey(schema, table);
      if cacheKey in fieldsCache {
        return Success(fieldsCache[cacheKey]);
      }
      var fields := GetFieldsFromDb(db, schema, table);
      queried := queried + [cacheKey];
      if fields.Failure? {
        fieldsCache := fieldsCache[cacheKey := map[]];
        return Failure(fields.error);
      }
      fieldsCache := fieldsCache[cacheKey := fields.value];
      return fields;
    }

    /** `Add`. */
    method Add(id: uint64, schema: string, table: string) returns (err: Outcome<Error>)
      requires Valid()
      modifies this`tableMetadataMap, this`fieldsCache, this`queried
      ensures Valid()
      ensures (err, tableMetadataMap, fieldsCache)
           == AddEntry(old(tableMetadataMap), old(fieldsCache), db, id, schema, table)
      ensures queried == if CacheKey(schema, table) in old(fieldsCache) then old(queried)
                         else old(queried) + [CacheKey(schema, table)]
    {
      var fields := GetFields(schema, table);
      if fields.Failure? {
        return Fail(fields.error);
      }
      tableMetadataMap := tableMetadataMap[id := TableMetadata(schema, table, fields.value)];
      return Pass;
    }

    /** `LookupTableMetadata`: the metadata mapped to `id`, if any. */
    function LookupTableMetadata(id: uint64): (r: Option<TableMetadata>)
      reads this
      ensures r.Some? <==> id in tableMetadataMap
      ensures r.Some? ==> r.value == tableMetadataMap[id]
    {
      if id in tableMetadataMap then Some(tableMetadataMap[id]) else None
    }
  }

  /** A fresh table map knows no table id. */
  method LookupInFreshMap(db: ColumnQuery, id: uint64) returns (found: Option<TableMetadata>)
    ensures found == None
  {
    var tableMap := new TableMap(db);
    found := tableMap.LookupTableMetadata(id);
  }

  /** A failed column query is cached like a successful one, so adding the
      same table again succeeds without querying, and with no fields. */
  method AddAfterFailedQuery(db: ColumnQuery, schema: string, table: string, firstId: uint64, secondId: uint64)
    returns (first: Outcome<Error>, second: Outcome<Error>, found: Option<TableMetadata>)
    requires db(schema, table).Failure?
    ensures first == Fail(db(schema, table).error)
    ensures second == Pass
    ensures found == Some(TableMetadata(schema, table, map[]))
  {
    var tableMap := new TableMap(db);
    first := tableMap.Add(firstId, schema, table);
    second := tableMap.Add(secondId, schema, table);
    found := tableMap.LookupTableMetadata(secondId);
  }
}
