/** The older consumer chain of the `parser/parser` package
    (parser/parser/messages_consumer_chain.go). Its predicates, `contains`
    and `consumeMessage` behave as the newer chain's do, so it shares their
    specification; it has no output directory and no pretty-print switch,
    and takes an already opened file for its JSON collector. */
module MessagesConsumerChains {

  import opened Wrappers
  import opened Errors
  import opened Messages
  import opened ConsumerChains

  class MessagesConsumerChain {
    var predicates: seq<Predicate>
    var collectors: seq<Collector>
    /** the indices of the collectors run so far, in order */
    ghost var collectorCalls: seq<nat>

    /** `NewMessagesConsumerChain`: no predicates, no collectors. */
    constructor ()
      ensures predicates == [] && collectors == [] && collectorCalls == []
    {
      predicates := [];
      collectors := [];
      collectorCalls := [];
    }

    method IncludeTables(tables: seq<string>)
      modifies this`predicates
      ensures predicates == old(predicates) + [TablesPredicate(tables)]
    {
      predicates := predicates + [TablesPredicate(tables)];
    }

    method IncludeSchemas(schemas: seq<string>)
      modifies this`predicates
      ensures predicates == old(predicates) + [SchemaPredicate(schemas)]
    {
      predicates := predicates + [SchemaPredicate(schemas)];
    }

    /** `CollectAsJsonInFile`: `fileCollector` writes each message to the
        already opened file as indented JSON. */
    method CollectAsJsonInFile(fileCollector: Collector)
      modifies this`collectors
      ensures collectors == old(collectors) + [fileCollector]
    {
      collectors := collectors + [fileCollector];
    }

    /** `consumeMessage`. */
    method ConsumeMessage(m: Message) returns (err: Outcome<Error>)
      modifies this`collectorCalls
      ensures err == Consume(predicates, collectors, m).1
      ensures collectorCalls
           == old(collectorCalls) + Indices(Consume(predicates, collectors, m).0)
    {
      var accepted := CheckPredicates(predicates, m);
      if !accepted {
        assert Indices(0) == [];
        return Pass;
      }
      ghost var calls;
      err, calls := RunCollectorsInOrder(collectors, m);
      collectorCalls := collectorCalls + calls;
    }
  }

  /** With two collectors of which the first fails, the second never runs
      and the first one's error is returned. */
  method FirstCollectorErrorWins(m: Message, first: Collector, second: Collector)
    returns (err: Outcome<Error>, ghost calls: seq<nat>)
    requires first(m).Fail?
    ensures err == first(m) && calls == [0]
  {
    var chain := new MessagesConsumerChain();
    chain.CollectAsJsonInFile(first);
    chain.CollectAsJsonInFile(second);
    assert chain.collectors == [first, second];
    RunCollectorsStopsAtFirstFailure(chain.collectors, m, 0);
    err := chain.ConsumeMessage(m);
    calls := chain.collectorCalls;
    assert Indices(1) == [0] by {
      assert Indices(0) == [];
    }
  }
}
