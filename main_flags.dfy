/** The command-line flags of the `binlog-parser` binary (main.go): the
    comma-separated lists of tables and schemas, and the message filters
    `createConsumerChain` builds from them. */
module Flags {

  import opened Text
  import opened Messages
  import opened ConsumerChains

  // ---------------------------------------------------------------------
  // commaSeparatedListToArray
  // ---------------------------------------------------------------------

  /** The pieces, each trimmed of white space, without the empty ones, in
      order. */
  function TrimmedItems(pieces: seq<string>): (r: seq<string>)
  {
    if pieces == [] then []
    else
      var item := TrimSpace(pieces[|pieces| - 1]);
      TrimmedItems(pieces[..|pieces| - 1]) + (if item != "" then [item] else [])
  }

  /** The items of a comma-separated list. */
  function ListItems(str: string): (r: seq<string>)
  {
    TrimmedItems(Split(str, ','))
  }

  /** `commaSeparatedListToArray`. */
  method CommaSeparatedListToArray(str: string) returns (arr: seq<string>)
    ensures arr == ListItems(str)
  {
    var pieces := Split(str, ',');
    arr := [];
    for k := 0 to |pieces|
      invariant arr == TrimmedItems(pieces[..k])
    {
      var item := TrimSpace(pieces[k]);
      assert pieces[..k + 1][..k] == pieces[..k];
      if item != "" {
        arr := arr + [item];
      }
    }
    assert pieces[..|pieces|] == pieces;
  }

  /** An item as the list keeps it: not empty, and with no white space at
      either end. */
  predicate Clean(item: string)
  {
    item != [] && !IsSpace(item[0]) && !IsSpace(item[|item| - 1])
  }

  /** A trimmed piece that is not empty is clean and has only characters
      of the piece. */
  lemma TrimmedPiece(piece: string)
    ensures TrimSpace(piece) != "" ==> Clean(TrimSpace(piece))
    ensures forall c :: c in TrimSpace(piece) ==> c in piece
  {
    TrimSpaceProperties(piece);
  }

  /** Every item is clean. */
  lemma {:induction false} TrimmedItemsAreClean(pieces: seq<string>)
    ensures forall item :: item in TrimmedItems(pieces) ==> Clean(item)
    decreases |pieces|
  {
    if pieces != [] {
      TrimmedItemsAreClean(pieces[..|pieces| - 1]);
      TrimmedPiece(pieces[|pieces| - 1]);
    }
  }

  /** A character no piece holds is in no item. */
  lemma {:induction false} TrimmedItemsWithout(pieces: seq<string>, c: char)
    requires forall p :: p in pieces ==> c !in p
    ensures forall item :: item in TrimmedItems(pieces) ==> c !in item
    decreases |pieces|
  {
    if pieces != [] {
      var init, last := pieces[..|pieces| - 1], pieces[|pieces| - 1];
      assert forall p :: p in init ==> p in pieces;
      TrimmedItemsWithout(init, c);
      assert last in pieces;
      TrimmedPiece(last);
    }
  }

  /** No item is empty, none starts or ends with white space, and none
      holds a comma. */
  lemma ListItemsAreClean(str: string)
    ensures forall item :: item in ListItems(str) ==> Clean(item) && ',' !in item
  {
    TrimmedItemsAreClean(Split(str, ','));
    TrimmedItemsWithout(Split(str, ','), ',');
  }

  /** A blank list, empty or all white space, has no items. */
  lemma {:induction false} TrimmedItemsOfBlank(pieces: seq<string>)
    requires forall p, c :: p in pieces && c in p ==> IsSpace(c)
    ensures TrimmedItems(pieces) == []
    decreases |pieces|
  {
    if pieces != [] {
      var init, last := pieces[..|pieces| - 1], pieces[|pieces| - 1];
      assert forall p :: p in init ==> p in pieces;
      TrimmedItemsOfBlank(init);
      assert last in pieces;
      TrimSpaceProperties(last);
      assert forall i :: 0 <= i < |last| ==> last[i] in last;
    }
  }

  lemma ListItemsOfBlank(str: string)
    requires forall i :: 0 <= i < |str| ==> IsSpace(str[i])
    ensures ListItems(str) == []
  {
    SplitKeepsCharacters(str, ',');
    TrimmedItemsOfBlank(Split(str, ','));
  }

  /** Items that are already clean come back from their comma-separated
      list unchanged and in order. */
  lemma {:induction false} TrimmedItemsOfClean(items: seq<string>)
    requires forall item :: item in items ==> Clean(item)
    ensures TrimmedItems(items) == items
    decreases |items|
  {
    if items != [] {
      var init, last := items[..|items| - 1], items[|items| - 1];
      assert items == init + [last];
      assert forall item :: item in init ==> item in items;
      TrimmedItemsOfClean(init);
      assert Clean(last) by {
        assert last in items;
      }
      TrimSpaceOfTrimmed(last);
      assert TrimmedItems(items) == TrimmedItems(init) + [TrimSpace(last)];
    }
  }

  lemma ListItemsOfJoin(items: seq<string>)
    requires forall item :: item in items ==> Clean(item) && ',' !in item
    ensures ListItems(Join(items, ",")) == items
  {
    if items == [] {
      assert Split("", ',') == [""];
      assert TrimSpace("") == "";
      assert TrimmedItems([""]) == TrimmedItems([]);
    } else {
      SplitJoin(items, ',');
      TrimmedItemsOfClean(items);
    }
  }

  // ---------------------------------------------------------------------
  // createConsumerChain
  // ---------------------------------------------------------------------

  /** The filters `createConsumerChain` installs, as written: the pointer
      returned by `flag.String` is never nil, so both filters are always
      installed, even for a flag left at its empty default, and the schema
      list is installed through `IncludeTables`, as a filter on table
      names. */
  function ChainPredicatesAsWritten(includeTables: string, includeSchemas: string)
    : (r: seq<Predicate>)
  {
    [TablesPredicate(ListItems(includeTables)), TablesPredicate(ListItems(includeSchemas))]
  }

  /** The filters as intended: a table filter when tables are listed, a
      schema filter when schemas are listed. */
  function FilterPredicates(tables: seq<string>, schemas: seq<string>): (r: seq<Predicate>)
  {
    (if tables == [] then [] else [TablesPredicate(tables)])
    + (if schemas == [] then [] else [SchemaPredicate(schemas)])
  }

  function ChainPredicates(includeTables: string, includeSchemas: string): (r: seq<Predicate>)
  {
    FilterPredicates(ListItems(includeTables), ListItems(includeSchemas))
  }

  /** With the intended filters a message is kept exactly when its table
      is listed (or no table is listed, or it has none) and its schema is
      listed (or no schema is listed, or it has none). */
  lemma FilterPredicatesAccept(tables: seq<string>, schemas: seq<string>, m: Message)
    ensures Accepts(FilterPredicates(tables, schemas), m) <==>
      (tables == [] || m.GetHeader().table == "" || m.GetHeader().table in tables) &&
      (schemas == [] || m.GetHeader().schema == "" || m.GetHeader().schema in schemas)
  {
    var ps := FilterPredicates(tables, schemas);
    if tables != [] {
      assert ps[0] == TablesPredicate(tables);
    }
    if schemas != [] {
      assert ps[|ps| - 1] == SchemaPredicate(schemas);
    }
  }

  /** The same, for the flags as given on the command line. */
  lemma ChainPredicatesFilter(includeTables: string, includeSchemas: string, m: Message)
    ensures var tables, schemas := ListItems(includeTables), ListItems(includeSchemas);
      Accepts(ChainPredicates(includeTables, includeSchemas), m) <==>
        (tables == [] || m.GetHeader().table == "" || m.GetHeader().table in tables) &&
        (schemas == [] || m.GetHeader().schema == "" || m.GetHeader().schema in schemas)
  {
    FilterPredicatesAccept(ListItems(includeTables), ListItems(includeSchemas), m);
    assert ChainPredicates(includeTables, includeSchemas)
        == FilterPredicates(ListItems(includeTables), ListItems(includeSchemas));
  }

  /** A row of `table` in `schema`. */
  function RowOf(schema: string, table: string): (m: Message)
    ensures m.GetHeader().schema == schema && m.GetHeader().table == table
  {
    NewInsertMessage(NewMessageHeader(schema, table, 0, 0, 0, ""), MessageRowData(map[], ""))
  }

  lemma ListItemsOfWord(word: string)
    requires Clean(word) && ',' !in word
    ensures ListItems(word) == [word]
  {
    SplitWithoutSeparator(word, ',');
    TrimSpaceOfTrimmed(word);
    assert [word][..0] == [];
    assert TrimmedItems([word]) == TrimmedItems([]) + [TrimSpace(word)];
  }

  lemma ListItemsOfEmpty()
    ensures ListItems("") == []
  {
    assert Split("", ',') == [""];
    assert TrimSpace("") == "";
    assert [""][..0] == [];
  }

  /** With neither flag given, the filters as written drop every row of a
      named table; the intended ones keep it. */
  lemma AsWrittenDropsAllWithoutFlags(schema: string, table: string)
    requires table != ""
    ensures !Accepts(ChainPredicatesAsWritten("", ""), RowOf(schema, table))
    ensures Accepts(ChainPredicates("", ""), RowOf(schema, table))
  {
    ListItemsOfEmpty();
    var m := RowOf(schema, table);
    var asWritten := ChainPredicatesAsWritten("", "");
    assert asWritten[0] == TablesPredicate([]);
    assert !Passes(asWritten[0], m);
    assert ChainPredicates("", "") == FilterPredicates([], []) == [];
  }

  /** With `-include-tables T -include-schemas S`, the filters as written
      drop the rows of `S.T` the flags ask for, since `S` is not a table
      name; the intended ones keep them. */
  lemma AsWrittenDropsSelectedSchema(schema: string, table: string)
    requires Clean(schema) && ',' !in schema && Clean(table) && ',' !in table
    requires schema != table
    ensures !Accepts(ChainPredicatesAsWritten(table, schema), RowOf(schema, table))
    ensures Accepts(ChainPredicates(table, schema), RowOf(schema, table))
  {
    ListItemsOfWord(table);
    ListItemsOfWord(schema);
    var m := RowOf(schema, table);
    var asWritten := ChainPredicatesAsWritten(table, schema);
    assert asWritten[1] == TablesPredicate([schema]);
    assert !Passes(asWritten[1], m);
    assert ChainPredicates(table, schema) == FilterPredicates([table], [schema]);
    FilterPredicatesAccept([table], [schema], m);
  }
}
