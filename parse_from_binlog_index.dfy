/** Parsing the binlogs the MySQL server lists in its binlog index
    (parse_from_binlog_index.go): the binlogs not yet in the parsed index,
    except the newest one, are parsed; when all of them are parsed without
    error they are appended to the parsed index, which is written back.

    The goroutines of `parseMultipleBinlogFiles` each write only their own
    slot of the result arrays, so running them one after another, in slice
    order, gives the same arrays; the model does so. */
module BinlogIndexParsing {

  import opened Wrappers
  import opened Errors
  import opened Indexes
  import Text

  /** `binlogParseFunc`, as called here: parses one binlog file, writing its
      messages below the output directory. */
  type BinlogParseFunc = (string, string) -> Outcome<Error>

  /** What `os.Stat` and `os.Open` find for the binlog index file. */
  datatype BinlogIndexFile =
    | Missing(error: Error)
    | Unopenable(error: Error)
    | Readable(content: string)

  // ---------------------------------------------------------------------
  // findFirstError
  // ---------------------------------------------------------------------

  /** The first error of the list, or `Pass` when there is none. */
  function FirstError(errors: seq<Outcome<Error>>): (r: Outcome<Error>)
  {
    if errors == [] then Pass
    else if errors[0].Fail? then errors[0]
    else FirstError(errors[1..])
  }

  /** `FirstError` is `Pass` exactly when no entry is an error; otherwise it
      is the entry with the lowest index that is one. */
  lemma {:induction false} FirstErrorIsFirst(errors: seq<Outcome<Error>>)
    ensures FirstError(errors).Pass? <==> forall i :: 0 <= i < |errors| ==> errors[i].Pass?
    ensures FirstError(errors).Fail? ==>
      exists i :: 0 <= i < |errors| && errors[i] == FirstError(errors) &&
        forall j :: 0 <= j < i ==> errors[j].Pass?
    decreases |errors|
  {
    if errors != [] && errors[0].Pass? {
      var rest := errors[1..];
      FirstErrorIsFirst(rest);
      assert forall i :: 0 < i < |errors| ==> errors[i] == rest[i - 1];
      if FirstError(rest).Fail? {
        var i :| 0 <= i < |rest| && rest[i] == FirstError(rest) &&
          forall j :: 0 <= j < i ==> rest[j].Pass?;
        assert errors[i + 1] == FirstError(errors);
      }
    }
  }

  /** `findFirstError`. */
  method FindFirstError(errors: seq<Outcome<Error>>) returns (err: Outcome<Error>)
    ensures err == FirstError(errors)
  {
    for i := 0 to |errors|
      invariant FirstError(errors[i..]) == FirstError(errors)
    {
      assert errors[i..][1..] == errors[i + 1..];
      if errors[i].Fail? {
        return errors[i];
      }
    }
    return Pass;
  }

  // ---------------------------------------------------------------------
  // removeEmptyArrayEntries
  // ---------------------------------------------------------------------

  /** `removeEmptyArrayEntries` as written copies every entry, empty ones
      included: despite its name it removes nothing. */
  method RemoveEmptyArrayEntries(strs: seq<string>) returns (tmp: seq<string>)
    ensures tmp == strs
  {
    tmp := [];
    for i := 0 to |strs|
      invariant tmp == strs[..i]
    {
      tmp := tmp + [strs[i]];
    }
    assert strs[..|strs|] == strs;
  }

  /** The entries that are not empty, in order. */
  function NonEmpty(strs: seq<string>): seq<string>
  {
    if strs == [] then []
    else
      var last := strs[|strs| - 1];
      NonEmpty(strs[..|strs| - 1]) + (if last != "" then [last] else [])
  }

  /** The kept entries are exactly the non-empty ones; a list with no empty
      entry is kept whole. */
  lemma {:induction false} NonEmptyEntries(strs: seq<string>)
    ensures forall s :: s in NonEmpty(strs) <==> s in strs && s != ""
    ensures "" !in strs ==> NonEmpty(strs) == strs
    decreases |strs|
  {
    if strs != [] {
      var init, last := strs[..|strs| - 1], strs[|strs| - 1];
      assert strs == init + [last];
      NonEmptyEntries(init);
    }
  }

  /** `removeEmptyArrayEntries` as its name says: the empty entries, the
      slots of the files that failed, are dropped and the others kept in
      order. */
  method DropEmptyEntries(strs: seq<string>) returns (tmp: seq<string>)
    ensures tmp == NonEmpty(strs)
  {
    tmp := [];
    for i := 0 to |strs|
      invariant tmp == NonEmpty(strs[..i])
    {
      assert strs[..i + 1][..i] == strs[..i];
      if strs[i] != "" {
        tmp := tmp + [strs[i]];
      }
    }
    assert strs[..|strs|] == strs;
  }

  /** The helper as written hands back the empty slot of a failed file,
      where the intended one drops it. */
  method AsWrittenKeepsEmptySlot(file: string) returns (tmp: seq<string>)
    requires file != ""
    ensures tmp == [file, ""] && "" in tmp
    ensures NonEmpty([file, ""]) == [file]
  {
    tmp := RemoveEmptyArrayEntries([file, ""]);
    assert [file, ""][..1] == [file] && [file][..0] == [];
    assert NonEmpty([file]) == NonEmpty([]) + [file];
    assert NonEmpty([file, ""]) == NonEmpty([file]) + [];
  }

  // ---------------------------------------------------------------------
  // parseMultipleBinlogFiles
  // ---------------------------------------------------------------------

  /** The error slot of each file: what parsing it returns. */
  function Outcomes(files: seq<string>, outputDir: string, parse: BinlogParseFunc)
    : (r: seq<Outcome<Error>>)
  {
    seq(|files|, i requires 0 <= i < |files| => parse(files[i], outputDir))
  }

  /** The result slot of each file: the file when it was parsed, the empty
      string otherwise. */
  function Slots(files: seq<string>, outputDir: string, parse: BinlogParseFunc)
    : (r: seq<string>)
  {
    seq(|files|, i requires 0 <= i < |files| =>
      if parse(files[i], outputDir).Pass? then files[i] else "")
  }

  /** With no error, every result slot holds its file: the parsed files are
      the files, in order. */
  lemma SlotsWhenNoError(files: seq<string>, outputDir: string, parse: BinlogParseFunc)
    requires FirstError(Outcomes(files, outputDir, parse)).Pass?
    ensures Slots(files, outputDir, parse) == files
  {
    var outcomes := Outcomes(files, outputDir, parse);
    FirstErrorIsFirst(outcomes);
    forall i | 0 <= i < |files|
      ensures Slots(files, outputDir, parse)[i] == files[i]
    {
      assert outcomes[i] == parse(files[i], outputDir);
    }
  }

  /** The result slots, one per file: a name is among them exactly when it
      is a given file that parsed without error, and an empty slot is among
      them exactly when some file failed (or a given name was empty). */
  lemma ParsedAreTheSuccesses(files: seq<string>, outputDir: string, parse: BinlogParseFunc)
    ensures |Slots(files, outputDir, parse)| == |files|
    ensures forall f :: f != "" ==>
      (f in Slots(files, outputDir, parse) <==>
       exists i :: 0 <= i < |files| && files[i] == f && parse(f, outputDir).Pass?)
    ensures "" in Slots(files, outputDir, parse) <==>
      exists i :: 0 <= i < |files| && (files[i] == "" || parse(files[i], outputDir).Fail?)
  {
    var slots := Slots(files, outputDir, parse);
    forall f | f != "" ensures f in slots <==>
      exists i :: 0 <= i < |files| && files[i] == f && parse(f, outputDir).Pass?
    {
      if f in slots {
        var i :| 0 <= i < |slots| && slots[i] == f;
        assert files[i] == f;
      }
      if exists i :: 0 <= i < |files| && files[i] == f && parse(f, outputDir).Pass? {
        var i :| 0 <= i < |files| && files[i] == f && parse(f, outputDir).Pass?;
        assert slots[i] == f;
      }
    }
    if "" in slots {
      var i :| 0 <= i < |slots| && slots[i] == "";
      assert files[i] == "" || parse(files[i], outputDir).Fail?;
    }
    if exists i :: 0 <= i < |files| && (files[i] == "" || parse(files[i], outputDir).Fail?) {
      var i :| 0 <= i < |files| && (files[i] == "" || parse(files[i], outputDir).Fail?);
      assert slots[i] == "";
    }
  }

  /** `parseMultipleBinlogFiles`: every file is parsed; slot `i` of the
      result array holds file `i` when it was parsed and stays empty
      otherwise, slot `i` of the error array holds its error when it failed
      and stays nil otherwise. The error of lowest index is returned, and
      so is the result array, with `removeEmptyArrayEntries` as written:
      every slot, the empty ones of the failed files included. */
  method ParseMultipleBinlogFiles(outputDir: string, filesToParse: seq<string>, parse: BinlogParseFunc)
    returns (parsed: seq<string>, err: Outcome<Error>, ghost calls: seq<string>)
    ensures parsed == Slots(filesToParse, outputDir, parse)
    ensures |parsed| == |filesToParse|
    ensures forall f :: f != "" ==>
      (f in parsed <==> exists i :: 0 <= i < |filesToParse| && filesToParse[i] == f && parse(f, outputDir).Pass?)
    ensures "" in parsed <==>
      exists i :: 0 <= i < |filesToParse| && (filesToParse[i] == "" || parse(filesToParse[i], outputDir).Fail?)
    ensures err == FirstError(Outcomes(filesToParse, outputDir, parse))
    ensures calls == filesToParse
  {
    var parsedFiles := new string[|filesToParse|](_ => "");
    var errors := new Outcome<Error>[|filesToParse|](_ => Pass);
    calls := [];
    for i := 0 to |filesToParse|
      invariant calls == filesToParse[..i]
      invariant forall j :: 0 <= j < i ==> errors[j] == parse(filesToParse[j], outputDir)
      invariant forall j :: 0 <= j < i ==> parsedFiles[j] == Slots(filesToParse, outputDir, parse)[j]
      invariant forall j :: i <= j < |filesToParse| ==> parsedFiles[j] == "" && errors[j] == Pass
    {
      var f := filesToParse[i];
      calls := calls + [f];
      var e := parse(f, outputDir);
      if e.Fail? {
        errors[i] := e;
      } else {
        parsedFiles[i] := f;
      }
    }
    assert filesToParse[..|filesToParse|] == filesToParse;
    assert errors[..] == Outcomes(filesToParse, outputDir, parse);
    err := FindFirstError(errors[..]);
    parsed := RemoveEmptyArrayEntries(parsedFiles[..]);
    assert parsedFiles[..] == Slots(filesToParse, outputDir, parse);
    ParsedAreTheSuccesses(filesToParse, outputDir, parse);
  }

  /** `parseMultipleBinlogFiles` with the helper its name intends: the empty
      slots are dropped, so exactly the (non-empty) files that parsed
      without error are returned, in order. */
  method ParseMultipleBinlogFilesIntended(outputDir: string, filesToParse: seq<string>, parse: BinlogParseFunc)
    returns (parsed: seq<string>, err: Outcome<Error>, ghost calls: seq<string>)
    ensures parsed == NonEmpty(Slots(filesToParse, outputDir, parse))
    ensures forall f :: f in parsed <==>
      f != "" && exists i :: 0 <= i < |filesToParse| && filesToParse[i] == f && parse(f, outputDir).Pass?
    ensures err == FirstError(Outcomes(filesToParse, outputDir, parse))
    ensures calls == filesToParse
  {
    var slots;
    slots, err, calls := ParseMultipleBinlogFiles(outputDir, filesToParse, parse);
    parsed := DropEmptyEntries(slots);
    NonEmptyEntries(slots);
  }

  // ---------------------------------------------------------------------
  // parseFromBinlogIndex
  // ---------------------------------------------------------------------

  /** What one run does once both indexes are read, given the lines of the
      parsed index (`known`) and of the binlog index: the error returned,
      the binlogs handed to the parser, and the files written. With at most
      one new binlog nothing happens; otherwise every new binlog but the
      newest is parsed; the first error, in binlog order, is returned and
      nothing is written; with no error the parsed index, with those
      binlogs appended in order (an empty line of the binlog index that
      parses is appended as an empty line), is written back and the error of that write is
      returned. */
  function IndexRun(known: seq<string>, binlogLines: seq<string>, filename: string,
                    outputDir: string, parse: BinlogParseFunc, write: FileWriter)
    : (r: (Outcome<Error>, seq<string>, seq<(string, string)>))
  {
    var diff := Difference(binlogLines, known);
    if |diff| <= 1 then (Pass, [], [])
    else
      var pending := diff[..|diff| - 1];
      var err := FirstError(Outcomes(pending, outputDir, parse));
      if err.Fail? then (err, pending, [])
      else
        var text := Serialized(known + pending);
        (write(filename, text), pending, [(filename, text)])
  }

  /** The body of `parseFromBinlogIndex` once both indexes are read. */
  method ParseNewBinlogs(parsedIndex: Index, binlogIndex: Index, outputDir: string,
                         parse: BinlogParseFunc, write: FileWriter)
    returns (err: Outcome<Error>, ghost calls: seq<string>, ghost written: seq<(string, string)>)
    modifies parsedIndex`lines, parsedIndex`writes
    ensures (err, calls, written)
         == IndexRun(old(parsedIndex.lines), old(binlogIndex.lines), parsedIndex.filename,
                     outputDir, parse, write)
    ensures parsedIndex.writes == old(parsedIndex.writes) + written
  {
    calls, written := [], [];
    var filesToParse := binlogIndex.Diff(parsedIndex);
    if |filesToParse| <= 1 {
      err := Pass;
      return;
    }
    var pending := filesToParse[..|filesToParse| - 1];
    var parsedFiles;
    parsedFiles, err, calls := ParseMultipleBinlogFiles(outputDir, pending, parse);
    if err.Fail? {
      return;
    }
    SlotsWhenNoError(pending, outputDir, parse);
    parsedIndex.AppendAll(parsedFiles);
    err := parsedIndex.Sync(write);
    written := [(parsedIndex.filename, Serialized(parsedIndex.lines))];
  }

  /** `parseFromBinlogIndex`: a missing binlog index is an error before
      anything else; then the parsed index is opened (and created when
      missing), then the binlog index; an open error is returned; otherwise
      the run goes as `IndexRun` says. */
  method ParseFromBinlogIndex(
    binlogIndexFilename: string, binlogIndexFile: BinlogIndexFile,
    parsedIndexFilename: string, parsedIndexFile: Result<string, Error>,
    outputDir: string, parse: BinlogParseFunc, write: FileWriter)
    returns (err: Outcome<Error>, ghost calls: seq<string>, ghost written: seq<(string, string)>)
    ensures binlogIndexFile.Missing? ==>
      err == Fail(binlogIndexFile.error) && calls == [] && written == []
    ensures !binlogIndexFile.Missing? && parsedIndexFile.Failure? ==>
      err == Fail(parsedIndexFile.error) && calls == [] && written == []
    ensures binlogIndexFile.Unopenable? && parsedIndexFile.Success? ==>
      err == Fail(binlogIndexFile.error) && calls == [] && written == []
    ensures binlogIndexFile.Readable? && parsedIndexFile.Success? ==>
      (err, calls, written)
      == IndexRun(ScanLines(parsedIndexFile.value), ScanLines(binlogIndexFile.content),
                  parsedIndexFilename, outputDir, parse, write)
  {
    calls, written := [], [];
    if binlogIndexFile.Missing? {
      err := Fail(binlogIndexFile.error);
      return;
    }
    if parsedIndexFile.Failure? {
      err := Fail(parsedIndexFile.error);
      return;
    }
    if binlogIndexFile.Unopenable? {
      err := Fail(binlogIndexFile.error);
      return;
    }
    var parsedIndex := new Index(parsedIndexFile.value, parsedIndexFilename);
    var binlogIndex := new Index(binlogIndexFile.content, binlogIndexFilename);
    err, calls, written := ParseNewBinlogs(parsedIndex, binlogIndex, outputDir, parse, write);
  }

  /** The parsed index is written only when at least two binlogs are new
      and every one of them but the newest parsed without error; it then
      gains exactly those binlogs, in the server's order, after its own
      lines. When one fails, that error is returned and nothing is
      written, so the next run starts over from the same parsed index. */
  lemma WrittenOnlyWhenAllParsed(known: seq<string>, binlogLines: seq<string>, filename: string,
                                 outputDir: string, parse: BinlogParseFunc, write: FileWriter)
    ensures var diff := Difference(binlogLines, known);
      var r := IndexRun(known, binlogLines, filename, outputDir, parse, write);
      r.2 != [] <==> |diff| > 1 && forall i :: 0 <= i < |diff| - 1 ==> parse(diff[i], outputDir).Pass?
    ensures var diff := Difference(binlogLines, known);
      var r := IndexRun(known, binlogLines, filename, outputDir, parse, write);
      r.2 != [] ==> r.2 == [(filename, Serialized(known + diff[..|diff| - 1]))]
  {
    var diff := Difference(binlogLines, known);
    if |diff| > 1 {
      var pending := diff[..|diff| - 1];
      var outcomes := Outcomes(pending, outputDir, parse);
      FirstErrorIsFirst(outcomes);
      assert forall i :: 0 <= i < |pending| ==> outcomes[i] == parse(diff[i], outputDir);
      var r := IndexRun(known, binlogLines, filename, outputDir, parse, write);
      if FirstError(outcomes).Pass? {
        assert r.2 == [(filename, Serialized(known + pending))];
      } else {
        assert r.2 == [];
      }
    }
  }

  /** A failed run that wrote nothing returns the error of one of the
      binlogs it parsed: the `i`-th new one. */
  lemma FailureIsAParseError(known: seq<string>, binlogLines: seq<string>, filename: string,
                             outputDir: string, parse: BinlogParseFunc, write: FileWriter)
    returns (i: nat)
    ensures var diff := Difference(binlogLines, known);
      var r := IndexRun(known, binlogLines, filename, outputDir, parse, write);
      r.0.Fail? && r.2 == [] ==> i < |diff| - 1 && r.0 == parse(diff[i], outputDir)
  {
    i := 0;
    var diff := Difference(binlogLines, known);
    if |diff| > 1 {
      var pending := diff[..|diff| - 1];
      var outcomes := Outcomes(pending, outputDir, parse);
      var err := FirstError(outcomes);
      FirstErrorIsFirst(outcomes);
      if err.Fail? {
        i :| 0 <= i < |outcomes| && outcomes[i] == err && forall j :: 0 <= j < i ==> outcomes[j].Pass?;
        assert outcomes[i] == parse(diff[i], outputDir);
      }
    }
  }

  /** An empty line in the binlog index reaches the parsed index: with
      the binlog index `a`, ``, `b`, `c`, an empty parsed index and every
      parse succeeding, the empty name is parsed and written back as an
      empty line, since the result slots are appended unfiltered. */
  lemma EmptyIndexLineIsWritten(filename: string, outputDir: string, parse: BinlogParseFunc, write: FileWriter)
    requires forall f :: parse(f, outputDir).Pass?
    ensures IndexRun([], ["a", "", "b", "c"], filename, outputDir, parse, write).1 == ["a", "", "b"]
    ensures IndexRun([], ["a", "", "b", "c"], filename, outputDir, parse, write).2
         == [(filename, "a\n\nb\n")]
  {
    var lines := ["a", "", "b", "c"];
    DifferenceEmpty(lines);
    WrittenOnlyWhenAllParsed([], lines, filename, outputDir, parse, write);
    assert forall i :: 0 <= i < 3 ==> parse(lines[i], outputDir).Pass?;
    var r := IndexRun([], lines, filename, outputDir, parse, write);
    assert r.2 != [];
    assert lines[..3] == ["a", "", "b"];
    assert [] + lines[..3] == ["a", "", "b"];
    assert Text.Join(["b"], "\n") == "b";
    assert Text.Join(["", "b"], "\n") == "\nb";
    assert Text.Join(["a", "", "b"], "\n") == "a\n\nb";
    assert Serialized(["a", "", "b"]) == "a\n\nb\n";
    assert r.2 == [(filename, Serialized(["a", "", "b"]))];
  }
}
