/** The watcher's reaction to a change in the binlog directory
    (watcher/watcher.go): compare the server's binlog index with the
    watcher's own index, parse every new binlog except the newest one, which
    the server may still be writing, and record the binlogs parsed. */
module Watchers {

  import opened Wrappers
  import opened Errors
  import opened Indexes

  /** `ParseFunc`: parses one binlog file and says whether it was parsed, or
      fails with an error. */
  type ParseFunc = string -> (bool, Outcome<Error>)

  /** The position of the first file whose parse fails, if any. */
  function FirstParseError(files: seq<string>, parse: ParseFunc): (r: Option<nat>)
    ensures r.Some? ==> r.value < |files|
  {
    if files == [] then None
    else if parse(files[0]).1.Fail? then Some(0)
    else match FirstParseError(files[1..], parse)
      case None => None
      case Some(k) => Some(k + 1)
  }

  /** `FirstParseError` finds the first failing file, and finds none only
      when every file passes. */
  lemma {:induction false} FirstParseErrorIsFirst(files: seq<string>, parse: ParseFunc)
    ensures var r := FirstParseError(files, parse);
      (r.None? ==> forall i :: 0 <= i < |files| ==> parse(files[i]).1.Pass?) &&
      (r.Some? ==> parse(files[r.value]).1.Fail? &&
                   forall i :: 0 <= i < r.value ==> parse(files[i]).1.Pass?)
    decreases |files|
  {
    if files != [] && parse(files[0]).1.Pass? {
      FirstParseErrorIsFirst(files[1..], parse);
      assert forall i :: 0 < i < |files| ==> files[i] == files[1..][i - 1];
    }
  }

  /** The files whose parse reports success, in order. */
  function Succeeded(files: seq<string>, parse: ParseFunc): (r: seq<string>)
  {
    if files == [] then []
    else
      var last := files[|files| - 1];
      Succeeded(files[..|files| - 1], parse) + (if parse(last).0 then [last] else [])
  }

  /** Only files whose parse reports success are recorded, never more
      than were parsed. */
  lemma {:induction false} SucceededOnlySuccesses(files: seq<string>, parse: ParseFunc)
    ensures |Succeeded(files, parse)| <= |files|
    ensures forall x :: x in Succeeded(files, parse) ==> x in files && parse(x).0
    decreases |files|
  {
    if files != [] {
      var init, last := files[..|files| - 1], files[|files| - 1];
      SucceededOnlySuccesses(init, parse);
      assert files == init + [last];
    }
  }

  /** A file whose parse reports success is never skipped. */
  lemma {:induction false} SucceededKeepsEverySuccess(files: seq<string>, parse: ParseFunc)
    ensures forall x :: x in files && parse(x).0 ==> x in Succeeded(files, parse)
    decreases |files|
  {
    if files != [] {
      var init, last := files[..|files| - 1], files[|files| - 1];
      SucceededKeepsEverySuccess(init, parse);
      assert files == init + [last];
    }
  }

  /** When every parse succeeds, every file is recorded, in order. */
  lemma {:induction false} SucceededAll(files: seq<string>, parse: ParseFunc)
    requires forall i :: 0 <= i < |files| ==> parse(files[i]).0
    ensures Succeeded(files, parse) == files
    decreases |files|
  {
    if files != [] {
      var init := files[..|files| - 1];
      SucceededAll(init, parse);
      assert init + [files[|files| - 1]] == files;
    }
  }

  /** The first failure is at `i` when `files[i]` fails and no earlier
      file does. */
  lemma {:induction false} FirstParseErrorAt(files: seq<string>, parse: ParseFunc, i: nat)
    requires i < |files| && parse(files[i]).1.Fail?
    requires forall j :: 0 <= j < i ==> parse(files[j]).1.Pass?
    ensures FirstParseError(files, parse) == Some(i)
    decreases i
  {
    if i > 0 {
      assert parse(files[0]).1.Pass?;
      FirstParseErrorAt(files[1..], parse, i - 1);
    }
  }

  /** There is no failure when every file passes. */
  lemma {:induction false} FirstParseErrorNone(files: seq<string>, parse: ParseFunc)
    requires forall j :: 0 <= j < |files| ==> parse(files[j]).1.Pass?
    ensures FirstParseError(files, parse) == None
    decreases |files|
  {
    if files != [] {
      assert parse(files[0]).1.Pass?;
      FirstParseErrorNone(files[1..], parse);
    }
  }

  /** Parsing one more file records it exactly when it succeeds. */
  lemma SucceededSnoc(files: seq<string>, i: nat, parse: ParseFunc)
    requires i < |files|
    ensures Succeeded(files[..i + 1], parse)
         == Succeeded(files[..i], parse) + (if parse(files[i]).0 then [files[i]] else [])
  {
    assert files[..i + 1][..i] == files[..i];
  }

  /** The files a run parses: all of `files` when none fails, otherwise up
      to and including the first failing one. */
  function Attempted(files: seq<string>, parse: ParseFunc): (r: seq<string>)
  {
    match FirstParseError(files, parse)
    case None => files
    case Some(k) => files[..k + 1]
  }

  /** The files a run records: the successful ones before the first
      failure. */
  function Recorded(files: seq<string>, parse: ParseFunc): (r: seq<string>)
  {
    match FirstParseError(files, parse)
    case None => Succeeded(files, parse)
    case Some(k) => Succeeded(files[..k], parse)
  }

  /** One turn of the parse loop: a file is appended to `index` when its
      parse reports success and no error. */
  method ParseOne(line: string, parse: ParseFunc, index: Index) returns (err: Outcome<Error>)
    modifies index`lines
    ensures err == parse(line).1
    ensures index.lines
         == old(index.lines) + (if err.Pass? && parse(line).0 then [line] else [])
  {
    var success, parseErr := parse(line).0, parse(line).1;
    if parseErr.Fail? {
      return parseErr;
    }
    if success {
      index.Append(line);
    }
    return Pass;
  }

  /** The parse loop of `binlogIndexChanged`: each file in order; the first
      error stops the loop and is returned; a file is appended to `index`
      only when its parse reports success. */
  method ParseFiles(files: seq<string>, parse: ParseFunc, index: Index)
    returns (err: Outcome<Error>, ghost calls: seq<string>)
    modifies index`lines
    ensures calls == Attempted(files, parse)
    ensures err.Pass? <==> FirstParseError(files, parse).None?
    ensures err == (match FirstParseError(files, parse)
                    case None => Pass
                    case Some(k) => parse(files[k]).1)
    ensures index.lines == old(index.lines) + Recorded(files, parse)
  {
    calls := [];
    for i := 0 to |files|
      invariant calls == files[..i]
      invariant forall j :: 0 <= j < i ==> parse(files[j]).1.Pass?
      invariant index.lines == old(index.lines) + Succeeded(files[..i], parse)
    {
      calls := calls + [files[i]];
      err := ParseOne(files[i], parse, index);
      if err.Fail? {
        FirstParseErrorAt(files, parse, i);
        assert Attempted(files, parse) == files[..i + 1];
        assert Recorded(files, parse) == Succeeded(files[..i], parse);
        return;
      }
      SucceededSnoc(files, i, parse);
    }
    assert files[..|files|] == files;
    FirstParseErrorNone(files, parse);
    err := Pass;
  }

  /** What one reaction to a change does, given the lines of the watcher's
      index (`known`) and of the server's binlog index: the error returned,
      the binlogs handed to the parser, in order, and the files written.
      With at most one new binlog nothing happens; otherwise all new
      binlogs but the newest are parsed in order until one fails; when none
      fails, the watcher's index, with the successfully parsed binlogs
      appended, is written back, and an error of that write is dropped. */
  function Reaction(known: seq<string>, binlogLines: seq<string>, filename: string, parse: ParseFunc)
    : (r: (Outcome<Error>, seq<string>, seq<(string, string)>))
  {
    var diff := Difference(binlogLines, known);
    if |diff| <= 1 then (Pass, [], [])
    else
      var pending := diff[..|diff| - 1];
      match FirstParseError(pending, parse)
      case None => (Pass, pending, [(filename, Serialized(known + Succeeded(pending, parse)))])
      case Some(k) => (parse(pending[k]).1, pending[..k + 1], [])
  }

  /** The body of `binlogIndexChanged` once both indexes are read. */
  method Reconcile(watcherIndex: Index, binlogIndex: Index, parse: ParseFunc, write: FileWriter)
    returns (err: Outcome<Error>, ghost calls: seq<string>, ghost written: seq<(string, string)>)
    modifies watcherIndex`lines, watcherIndex`writes
    ensures (err, calls, written)
         == Reaction(old(watcherIndex.lines), old(binlogIndex.lines), watcherIndex.filename, parse)
    ensures watcherIndex.writes == old(watcherIndex.writes) + written
  {
    ghost var known := watcherIndex.lines;
    calls, written := [], [];
    var filesToParse := binlogIndex.Diff(watcherIndex);
    if |filesToParse| <= 1 {
      err := Pass;
      return;
    }
    var pending := filesToParse[..|filesToParse| - 1];
    err, calls := ParseFiles(pending, parse, watcherIndex);
    if err.Fail? {
      return;
    }
    assert watcherIndex.lines == known + Succeeded(pending, parse);
    var _ := watcherIndex.Sync(write);
    written := [(watcherIndex.filename, Serialized(watcherIndex.lines))];
    err := Pass;
  }

  /** `binlogIndexChanged`: the watcher's own index file is opened (and
      created when missing, so only an open error is possible), then the
      server's binlog index; an open error is returned; otherwise the two
      are reconciled as `Reaction` says. */
  method BinlogIndexChanged(
    watcherIndexFilename: string, watcherIndexFile: Result<string, Error>,
    binlogIndexFilename: string, binlogIndexFile: Result<string, Error>,
    parse: ParseFunc, write: FileWriter)
    returns (err: Outcome<Error>, ghost calls: seq<string>, ghost written: seq<(string, string)>)
    ensures watcherIndexFile.Failure? ==>
      err == Fail(watcherIndexFile.error) && calls == [] && written == []
    ensures watcherIndexFile.Success? && binlogIndexFile.Failure? ==>
      err == Fail(binlogIndexFile.error) && calls == [] && written == []
    ensures watcherIndexFile.Success? && binlogIndexFile.Success? ==>
      (err, calls, written)
      == Reaction(ScanLines(watcherIndexFile.value), ScanLines(binlogIndexFile.value), watcherIndexFilename, parse)
  {
    calls, written := [], [];
    if watcherIndexFile.Failure? {
      err := Fail(watcherIndexFile.error);
      return;
    }
    var watcherIndex := new Index(watcherIndexFile.value, watcherIndexFilename);
    if binlogIndexFile.Failure? {
      err := Fail(binlogIndexFile.error);
      return;
    }
    var binlogIndex := new Index(binlogIndexFile.value, binlogIndexFilename);
    err, calls, written := Reconcile(watcherIndex, binlogIndex, parse, write);
  }

  /** Every binlog a reaction parses is in the server's index and not yet
      in the watcher's; the binlogs parsed are a prefix of the new ones, and
      the newest new binlog is never among them. */
  lemma ParsedAreNew(known: seq<string>, binlogLines: seq<string>, filename: string, parse: ParseFunc)
    ensures var diff := Difference(binlogLines, known);
      var calls := Reaction(known, binlogLines, filename, parse).1;
      calls == diff[..|calls|] && (diff != [] ==> |calls| < |diff|) &&
      forall x :: x in calls ==> x in binlogLines && x !in known
  {
    var diff := Difference(binlogLines, known);
    DifferenceMembership(binlogLines, known);
    if |diff| > 1 {
      var pending := diff[..|diff| - 1];
      var calls := Attempted(pending, parse);
      assert forall x :: x in calls ==> x in pending;
      assert forall x :: x in pending ==> x in diff;
    }
  }

  /** A line of `s` that is not in `s` without its last line is the last
      line. */
  lemma NotInInitIsLast(s: seq<string>, x: string)
    requires x in s && s != [] && x !in s[..|s| - 1]
    ensures x == s[|s| - 1]
  {
    var i :| 0 <= i < |s| && s[i] == x;
    assert forall j :: 0 <= j < |s| - 1 ==> s[j] in s[..|s| - 1];
  }

  /** When every new binlog but the newest is parsed successfully, all of
      them are recorded and written back in order. */
  lemma ReactionWhenAllSucceed(known: seq<string>, binlogLines: seq<string>, filename: string, parse: ParseFunc)
    requires |Difference(binlogLines, known)| > 1
    requires var diff := Difference(binlogLines, known);
      forall i :: 0 <= i < |diff| - 1 ==> parse(diff[i]).0 && parse(diff[i]).1.Pass?
    ensures var diff := Difference(binlogLines, known);
      var pending := diff[..|diff| - 1];
      Reaction(known, binlogLines, filename, parse)
        == (Pass, pending, [(filename, Serialized(known + pending))])
  {
    var diff := Difference(binlogLines, known);
    var pending := diff[..|diff| - 1];
    FirstParseErrorNone(pending, parse);
    SucceededAll(pending, parse);
  }

  /** Against the index such a reaction writes, the only binlog still new
      is the newest one (repeated as often as the server lists it): the
      next reaction will not parse it until a newer binlog appears. */
  lemma NextRunSeesOnlyNewest(known: seq<string>, binlogLines: seq<string>)
    requires Difference(binlogLines, known) != []
    ensures var diff := Difference(binlogLines, known);
      var next := Difference(binlogLines, known + diff[..|diff| - 1]);
      forall j :: 0 <= j < |next| ==> next[j] == diff[|diff| - 1]
  {
    var diff := Difference(binlogLines, known);
    var pending := diff[..|diff| - 1];
    var next := Difference(binlogLines, known + pending);
    DifferenceMembership(binlogLines, known);
    DifferenceMembership(binlogLines, known + pending);
    forall j | 0 <= j < |next|
      ensures next[j] == diff[|diff| - 1]
    {
      assert next[j] in next;
      NotInInitIsLast(diff, next[j]);
    }
  }
}
