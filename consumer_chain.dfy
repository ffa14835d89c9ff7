/** Filtering messages by schema and table and handing the accepted ones to
    collectors in order (parser/consumer_chain.go). */
module ConsumerChains {

  import opened Wrappers
  import opened Errors
  import opened Messages
  import opened Text

  /** A sink for accepted messages (`collector`); it may fail. */
  type Collector = Message -> Outcome<Error>

  /** The two kinds of filter the chain builds (`schemaPredicate`,
      `tablesPredicate`), each with the names it lets through. */
  datatype Predicate =
    | SchemaPredicate(databases: seq<string>)
    | TablesPredicate(tables: seq<string>)

  /** `contains`: list membership by string equality, scanning from the
      front. */
  function Contains(s: seq<string>, e: string): (r: bool)
    ensures r <==> e in s
  {
    if s == [] then false
    else if s[0] == e then true
    else Contains(s[1..], e)
  }

  /** A message with no schema (or no table) always passes the
      corresponding filter; otherwise its schema (table) must be listed. */
  function Passes(p: Predicate, m: Message): (r: bool)
    ensures p.SchemaPredicate? ==>
      (r <==> m.GetHeader().schema == "" || m.GetHeader().schema in p.databases)
    ensures p.TablesPredicate? ==>
      (r <==> m.GetHeader().table == "" || m.GetHeader().table in p.tables)
  {
    match p
    case SchemaPredicate(databases) =>
      if m.GetHeader().schema == "" then true else Contains(databases, m.GetHeader().schema)
    case TablesPredicate(tables) =>
      if m.GetHeader().table == "" then true else Contains(tables, m.GetHeader().table)
  }

  /** Every predicate of the chain lets the message through. */
  predicate Accepts(predicates: seq<Predicate>, m: Message)
  {
    forall i :: 0 <= i < |predicates| ==> Passes(predicates[i], m)
  }

  /** Hands the message to the collectors in order until one fails: how many
      collectors ran, and the outcome. */
  function RunCollectors(collectors: seq<Collector>, m: Message): (r: (nat, Outcome<Error>))
    ensures r.0 <= |collectors|
    ensures r.1.Pass? <==> forall i :: 0 <= i < |collectors| ==> collectors[i](m).Pass?
    ensures r.1.Pass? ==> r.0 == |collectors|
    ensures r.1.Fail? ==> && r.0 > 0 && r.1 == collectors[r.0 - 1](m)
                          && forall i :: 0 <= i < r.0 - 1 ==> collectors[i](m).Pass?
    decreases |collectors|
  {
    if collectors == [] then (0, Pass)
    else
      var out := collectors[0](m);
      if out.Fail? then (1, out)
      else
        var (ran, err) := RunCollectors(collectors[1..], m);
        (ran + 1, err)
  }

  /** What `consumeMessage` does with one message: the number of collectors
      it runs and the error it returns. */
  function Consume(predicates: seq<Predicate>, collectors: seq<Collector>, m: Message): (nat, Outcome<Error>)
  {
    if Accepts(predicates, m) then RunCollectors(collectors, m) else (0, Pass)
  }

  /** The first collector that fails is the last one to run, and its error
      is the chain's. */
  lemma {:induction false} RunCollectorsStopsAtFirstFailure(collectors: seq<Collector>, m: Message, i: nat)
    requires i < |collectors| && collectors[i](m).Fail?
    requires forall j :: 0 <= j < i ==> collectors[j](m).Pass?
    ensures RunCollectors(collectors, m) == (i + 1, collectors[i](m))
    decreases i
  {
    if i > 0 {
      RunCollectorsStopsAtFirstFailure(collectors[1..], m, i - 1);
    }
  }

  /** The indices 0..n-1 in order. */
  function Indices(n: nat): (r: seq<nat>)
    ensures |r| == n && forall i :: 0 <= i < n ==> r[i] == i
  {
    if n == 0 then [] else Indices(n - 1) + [n - 1]
  }

  /** The predicate loop of `consumeMessage`: the predicates in order, up
      to the first that rejects the message. */
  method CheckPredicates(predicates: seq<Predicate>, m: Message) returns (accepted: bool)
    ensures accepted == Accepts(predicates, m)
  {
    for k := 0 to |predicates|
      invariant forall i :: 0 <= i < k ==> Passes(predicates[i], m)
    {
      if !Passes(predicates[k], m) {
        return false;
      }
    }
    return true;
  }

  /** The collector loop of `consumeMessage`: the collectors in order, up
      to the first failure; `calls` lists the ones that ran. */
  method RunCollectorsInOrder(collectors: seq<Collector>, m: Message)
    returns (err: Outcome<Error>, ghost calls: seq<nat>)
    ensures err == RunCollectors(collectors, m).1
    ensures calls == Indices(RunCollectors(collectors, m).0)
  {
    calls := [];
    for k := 0 to |collectors|
      invariant forall i :: 0 <= i < k ==> collectors[i](m).Pass?
      invariant calls == Indices(k)
    {
      calls := calls + [k];
      var collectorErr := collectors[k](m);
      if collectorErr.Fail? {
        RunCollectorsStopsAtFirstFailure(collectors, m, k);
        return collectorErr, calls;
      }
    }
    err := Pass;
  }

  /** A message some predicate rejects runs no collector and is not an
      error. */
  lemma RejectedMessageIsDropped(predicates: seq<Predicate>, collectors: seq<Collector>, m: Message, i: nat)
    requires i < |predicates| && !Passes(predicates[i], m)
    ensures Consume(predicates, collectors, m) == (0, Pass)
  {
  }

  /** An accepted message runs every collector when all of them succeed. */
  lemma AcceptedMessageReachesAllCollectors(predicates: seq<Predicate>, collectors: seq<Collector>, m: Message)
    requires Accepts(predicates, m)
    requires forall i :: 0 <= i < |collectors| ==> collectors[i](m).Pass?
    ensures Consume(predicates, collectors, m) == (|collectors|, Pass)
  {
  }

  /** A chain with neither predicates nor collectors accepts every message. */
  lemma EmptyChainAcceptsAll(m: Message)
    ensures Accepts([], m) && Consume([], [], m) == (0, Pass)
  {
  }

  /** Adding a predicate narrows the chain by exactly that predicate, and the
      order in which predicates were added does not matter. */
  lemma AcceptsAppend(predicates: seq<Predicate>, p: Predicate, m: Message)
    ensures Accepts(predicates + [p], m) <==> Accepts(predicates, m) && Passes(p, m)
    ensures Accepts(predicates + [p], m) <==> Accepts([p] + predicates, m)
  {
    var back, front := predicates + [p], [p] + predicates;
    if Accepts(predicates, m) && Passes(p, m) {
      forall i | 0 <= i < |back| ensures Passes(back[i], m) {
        if i < |predicates| {
          assert back[i] == predicates[i];
        }
      }
      forall i | 0 <= i < |front| ensures Passes(front[i], m) {
        if i > 0 {
          assert front[i] == predicates[i - 1];
        }
      }
    }
    if Accepts(back, m) {
      assert back[|predicates|] == p;
      forall i | 0 <= i < |predicates| ensures Passes(predicates[i], m) {
        assert back[i] == predicates[i];
      }
    }
    if Accepts(front, m) {
      assert front[0] == p;
      forall i | 0 <= i < |predicates| ensures Passes(predicates[i], m) {
        assert front[i + 1] == predicates[i];
      }
    }
  }

  // ---------------------------------------------------------------------
  // File names
  // ---------------------------------------------------------------------

  predicate IsSlash(c: char)
  {
    c == '/'
  }

  /** The characters after the last slash. */
  function AfterLastSlash(s: string): (r: string)
    ensures '/' !in r
    ensures '/' !in s ==> r == s
  {
    if s == [] then []
    else if s[|s| - 1] == '/' then []
    else AfterLastSlash(s[..|s| - 1]) + [s[|s| - 1]]
  }

  /** `filepath.Base` on slash-separated paths: the last element after
      trailing slashes are dropped; "." for the empty path and "/" for a
      path of slashes only. */
  function Base(path: string): string
  {
    if path == [] then "."
    else
      var stripped := TrimRightFunc(path, IsSlash);
      if stripped == [] then "/" else AfterLastSlash(stripped)
  }

  /** A path is its own base name exactly when it is "/" or a non-empty
      name without a slash. */
  lemma BaseIsIdentity(path: string)
    ensures Base(path) == path <==> path == "/" || (path != [] && '/' !in path)
  {
    if path != [] {
      var stripped := TrimRightFunc(path, IsSlash);
      if '/' !in path {
        assert !IsSlash(path[|path| - 1]);
        assert stripped == path;
      } else if stripped == [] {
        if path != "/" {
          assert path[0] == '/' && |path| > 1;
          assert Base(path) != path;
        }
      } else {
        assert '/' !in Base(path);
      }
    }
  }

  /** Where a collector for a new output file comes from: creating the file
      in the output directory and writing each message to it as JSON, pretty
      printed or not. File creation and JSON encoding are not modelled. */
  type FileCollectorFactory = (string, string, bool) -> Result<Collector, Error>

  class ConsumerChain {
    var predicates: seq<Predicate>
    var collectors: seq<Collector>
    var prettyPrint: bool
    var outputDir: string
    /** the indices of the collectors run so far, in order */
    ghost var collectorCalls: seq<nat>

    /** `NewConsumerChain`: no predicates, no collectors. */
    constructor ()
      ensures predicates == [] && collectors == []
      ensures !prettyPrint && outputDir == "" && collectorCalls == []
    {
      predicates := [];
      collectors := [];
      prettyPrint := false;
      outputDir := "";
      collectorCalls := [];
    }

    method IncludeTables(tables: seq<string>)
      modifies this`predicates
      ensures predicates == old(predicates) + [TablesPredicate(tables)]
    {
      predicates := predicates + [TablesPredicate(tables)];
    }

    method IncludeSchemas(schemas: seq<string>)
      modifies this`predicates
      ensures predicates == old(predicates) + [SchemaPredicate(schemas)]
    {
      predicates := predicates + [SchemaPredicate(schemas)];
    }

    method OutputParsedFilesToDir(outputDir: string)
      modifies this`outputDir
      ensures this.outputDir == outputDir
    {
      this.outputDir := outputDir;
    }

    method PrettyPrint(prettyPrint: bool)
      modifies this`prettyPrint
      ensures this.prettyPrint == prettyPrint
    {
      this.prettyPrint := prettyPrint;
    }

    /** `CollectAsJsonInFile`: refuses a name that is not a bare file name,
        passes on the file creation error, and otherwise adds one collector
        at the end. */
    method CollectAsJsonInFile(filename: string, create: FileCollectorFactory) returns (err: Outcome<Error>)
      modifies this`collectors
      ensures Base(filename) != filename ==>
        err == Fail(FileError("Pass only file name - " + filename + " given")) && collectors == old(collectors)
      ensures Base(filename) == filename && create(outputDir, filename, prettyPrint).Failure? ==>
        err == Fail(create(outputDir, filename, prettyPrint).error) && collectors == old(collectors)
      ensures Base(filename) == filename && create(outputDir, filename, prettyPrint).Success? ==>
        err == Pass && collectors == old(collectors) + [create(outputDir, filename, prettyPrint).value]
    {
      if Base(filename) != filename {
        return Fail(FileError("Pass only file name - " + filename + " given"));
      }
      var f := create(outputDir, filename, prettyPrint);
      if f.Failure? {
        return Fail(f.error);
      }
      collectors := collectors + [f.value];
      return Pass;
    }

    /** `consumeMessage`: the first rejecting predicate ends the call
        without error; otherwise the collectors run in order up to the
        first failure, whose error is returned. */
    method ConsumeMessage(m: Message) returns (err: Outcome<Error>)
      modifies this`collectorCalls
      ensures err == Consume(predicates, collectors, m).1
      ensures collectorCalls
           == old(collectorCalls) + Indices(Consume(predicates, collectors, m).0)
    {
      var accepted := CheckPredicates(predicates, m);
      if !accepted {
        assert Indices(0) == [];
        return Pass;
      }
      ghost var calls;
      err, calls := RunCollectorsInOrder(collectors, m);
      collectorCalls := collectorCalls + calls;
    }
  }

  /** A chain that includes only some tables and writes to one file drops
      a message for another table, and hands a message for a listed table to
      the file's collector. */
  method FilterByTable(m: Message, tables: seq<string>, create: FileCollectorFactory)
    returns (err: Outcome<Error>, ghost ran: bool)
    requires m.GetHeader().table != ""
    requires create("", "messages.json", false).Success?
    ensures m.GetHeader().table !in tables ==> err == Pass && !ran
    ensures m.GetHeader().table in tables ==> err == create("", "messages.json", false).value(m) && ran
  {
    var chain := new ConsumerChain();
    chain.IncludeTables(tables);
    BaseIsIdentity("messages.json");
    var created := chain.CollectAsJsonInFile("messages.json", create);
    var collector := create("", "messages.json", false).value;
    assert chain.predicates == [TablesPredicate(tables)];
    assert chain.collectors == [collector];
    assert Accepts(chain.predicates, m) <==> Passes(TablesPredicate(tables), m) by {
      assert chain.predicates[0] == TablesPredicate(tables);
    }
    assert RunCollectors([collector], m) == (1, collector(m)) by {
      assert [collector][1..] == [];
    }
    err := chain.ConsumeMessage(m);
    ran := |chain.collectorCalls| > 0;
  }
}
