/** A binlog index file held as its list of lines: reading it, appending to
    it, writing it back and comparing two of them (watcher/index/index.go). */
module Indexes {

  import opened Wrappers
  import opened Errors
  import opened Text

  // ---------------------------------------------------------------------
  // Reading lines as `bufio.ScanLines` does
  // ---------------------------------------------------------------------

  /** One carriage return at the end of a line is dropped. */
  function DropCR(line: string): (r: string)
    ensures r == line || (line == r + "\r")
  {
    if line != [] && line[|line| - 1] == '\r' then line[..|line| - 1] else line
  }

  /** The pieces of a split text, without the empty piece a final
      separator leaves. */
  function Kept(pieces: seq<string>): (r: seq<string>)
    requires |pieces| >= 1
  {
    if pieces[|pieces| - 1] == "" then pieces[..|pieces| - 1] else pieces
  }

  lemma KeptCons(x: string, pieces: seq<string>)
    requires |pieces| >= 1
    ensures Kept([x] + pieces) == [x] + Kept(pieces)
  {
    var all := [x] + pieces;
    assert all[|all| - 1] == pieces[|pieces| - 1];
    if pieces[|pieces| - 1] == "" {
      assert all[..|all| - 1] == [x] + pieces[..|pieces| - 1];
    }
  }

  function DropCRs(lines: seq<string>): (r: seq<string>)
  {
    if lines == [] then [] else [DropCR(lines[0])] + DropCRs(lines[1..])
  }

  /** The lines of a text: the pieces between newlines, the empty piece
      after a final newline not counted, each without a trailing carriage
      return. */
  function ScanLines(text: string): seq<string>
  {
    DropCRs(Kept(Split(text, '\n')))
  }

  /** The scanner's step: the first line ends at the first newline. */
  lemma ScanLinesCut(text: string, i: nat)
    requires IndexOf(text, '\n') == Some(i)
    ensures ScanLines(text) == [DropCR(text[..i])] + ScanLines(text[i + 1..])
  {
    var x, y := text[..i], text[i + 1..];
    assert text == x + ['\n'] + y;
    SplitAtFirstSeparator(x, '\n', y);
    KeptCons(x, Split(y, '\n'));
    var kept := [x] + Kept(Split(y, '\n'));
    assert kept[0] == x && kept[1..] == Kept(Split(y, '\n'));
  }

  /** Without a newline, the whole text is the one line. */
  lemma ScanLinesLast(text: string)
    requires text != [] && IndexOf(text, '\n') == None
    ensures ScanLines(text) == [DropCR(text)]
  {
    SplitWithoutSeparator(text, '\n');
    assert Kept([text]) == [text];
    assert [text][1..] == [] && DropCRs([]) == [];
  }

  lemma {:induction false} DropCRsIdentity(lines: seq<string>)
    requires forall line :: line in lines ==> DropCR(line) == line
    ensures DropCRs(lines) == lines
    decreases |lines|
  {
    if lines != [] {
      assert lines[0] in lines;
      assert forall line :: line in lines[1..] ==> line in lines;
      DropCRsIdentity(lines[1..]);
      assert [lines[0]] + lines[1..] == lines;
    }
  }

  /** The scanner's loop: cut the text at its first newline, again and
      again, until nothing is left. */
  function ScanFrom(text: string): seq<string>
    decreases |text|
  {
    if text == [] then []
    else match IndexOf(text, '\n')
      case None => [DropCR(text)]
      case Some(i) => [DropCR(text[..i])] + ScanFrom(text[i + 1..])
  }

  lemma ScanFromCut(text: string, i: nat)
    requires IndexOf(text, '\n') == Some(i)
    ensures ScanFrom(text) == [DropCR(text[..i])] + ScanFrom(text[i + 1..])
  {
  }

  lemma ScanFromLast(text: string)
    requires text != [] && IndexOf(text, '\n') == None
    ensures ScanFrom(text) == [DropCR(text)]
  {
  }

  lemma ScanLinesEmpty()
    ensures ScanLines([]) == []
  {
    assert Split([], '\n') == [""];
    assert Kept([""]) == [];
  }

  /** Cutting at newlines one at a time reads the same lines as splitting
      the whole text at once. */
  lemma {:induction false} ScanFromIsScanLines(text: string)
    ensures ScanFrom(text) == ScanLines(text)
    decreases |text|
  {
    if text == [] {
      ScanLinesEmpty();
    } else {
      match IndexOf(text, '\n')
      case Some(i) =>
        ScanFromCut(text, i);
        ScanLinesCut(text, i);
        ScanFromIsScanLines(text[i + 1..]);
      case None =>
        ScanFromLast(text);
        ScanLinesLast(text);
    }
  }

  // ---------------------------------------------------------------------
  // Writing lines back
  // ---------------------------------------------------------------------

  /** What `SyncFile` writes: the lines joined by newlines, and one newline
      more. */
  function Serialized(lines: seq<string>): (text: string)
    ensures |text| >= 1 && text[|text| - 1] == '\n'
  {
    Join(lines, "\n") + "\n"
  }

  lemma {:induction false} JoinAppend(parts: seq<string>, x: string, sep: string)
    requires |parts| >= 1
    ensures Join(parts + [x], sep) == Join(parts, sep) + sep + x
    decreases |parts|
  {
    if |parts| == 1 {
      assert (parts + [x])[1..] == [x];
    } else {
      assert (parts + [x])[1..] == parts[1..] + [x];
      JoinAppend(parts[1..], x, sep);
    }
  }

  /** Appending a line to a non-empty index appends that line and a newline
      to the text written; an empty index is written as a lone newline. */
  lemma SerializedAppend(lines: seq<string>, x: string)
    ensures Serialized([]) == "\n"
    ensures |lines| >= 1 ==> Serialized(lines + [x]) == Serialized(lines) + x + "\n"
  {
    if |lines| >= 1 {
      JoinAppend(lines, x, "\n");
    }
  }

  /** Reading back what was written gives the same lines when there is at
      least one line and none holds a newline or ends in a carriage return;
      an empty index reads back as one empty line. */
  lemma ScanSerialized(lines: seq<string>)
    requires forall line :: line in lines ==> '\n' !in line && DropCR(line) == line
    ensures |lines| >= 1 ==> ScanLines(Serialized(lines)) == lines
    ensures lines == [] ==> ScanLines(Serialized(lines)) == [""]
  {
    if |lines| >= 1 {
      var parts := lines + [""];
      JoinAppend(lines, "", "\n");
      assert Serialized(lines) == Join(parts, "\n");
      forall p | p in parts ensures '\n' !in p {
        if p != "" {
          assert p in lines;
        }
      }
      SplitJoin(parts, '\n');
      assert Kept(parts) == lines;
      DropCRsIdentity(lines);
    } else {
      assert Serialized(lines) == "\n";
      SplitAtFirstSeparator("", '\n', "");
      assert Split("\n", '\n') == ["", ""] by {
        assert "" + ['\n'] + "" == "\n";
      }
      assert Kept(["", ""]) == [""];
      assert DropCRs([""]) == [""] by {
        assert [""][1..] == [];
      }
    }
  }

  // ---------------------------------------------------------------------
  // Comparing two indexes
  // ---------------------------------------------------------------------

  /** The lines of `a` that are not lines of `b`, in `a`'s order and with
      `a`'s repetitions. */
  function Difference(a: seq<string>, b: seq<string>): seq<string>
  {
    if a == [] then []
    else
      var last := a[|a| - 1];
      Difference(a[..|a| - 1], b) + (if last in b then [] else [last])
  }

  /** A line is in the difference exactly when it is in `a` and not in `b`. */
  lemma {:induction false} DifferenceMembership(a: seq<string>, b: seq<string>)
    ensures forall x :: x in Difference(a, b) <==> x in a && x !in b
    decreases |a|
  {
    if a != [] {
      var init := a[..|a| - 1];
      DifferenceMembership(init, b);
      assert a == init + [a[|a| - 1]];
    }
  }

  /** The difference of a concatenation is the concatenation of the
      differences: order and repetitions of `a` are kept. */
  lemma {:induction false} DifferenceConcat(a1: seq<string>, a2: seq<string>, b: seq<string>)
    ensures Difference(a1 + a2, b) == Difference(a1, b) + Difference(a2, b)
    decreases |a2|
  {
    if a2 == [] {
      assert a1 + a2 == a1;
    } else {
      var init := a2[..|a2| - 1];
      var last := a2[|a2| - 1];
      DifferenceConcat(a1, init, b);
      assert (a1 + a2)[..|a1 + a2| - 1] == a1 + init;
      assert (a1 + a2)[|a1 + a2| - 1] == last;
    }
  }

  /** Nothing of `a` is new when every line of `a` is in `b`. */
  lemma {:induction false} DifferenceOfContained(a: seq<string>, b: seq<string>)
    requires forall x :: x in a ==> x in b
    ensures Difference(a, b) == []
    decreases |a|
  {
    if a != [] {
      assert forall x :: x in a[..|a| - 1] ==> x in a;
      assert a[|a| - 1] in a;
      DifferenceOfContained(a[..|a| - 1], b);
    }
  }

  /** An index compared with itself has no new lines. */
  lemma DifferenceSelf(a: seq<string>)
    ensures Difference(a, a) == []
  {
    DifferenceOfContained(a, a);
  }

  /** Against an empty index every line is new, in order. */
  lemma {:induction false} DifferenceEmpty(a: seq<string>)
    ensures Difference(a, []) == a
    decreases |a|
  {
    if a != [] {
      DifferenceEmpty(a[..|a| - 1]);
      assert a[..|a| - 1] + [a[|a| - 1]] == a;
    }
  }

  /** One step of the line scanner: the first line of a non-empty text,
      without its line ending, and what follows that line. */
  method NextLine(text: string) returns (line: string, after: string)
    requires text != []
    ensures |after| < |text|
    ensures ScanFrom(text) == [line] + ScanFrom(after)
  {
    match IndexOf(text, '\n')
    case Some(i) =>
      ScanFromCut(text, i);
      line, after := DropCR(text[..i]), text[i + 1..];
    case None =>
      ScanFromLast(text);
      line, after := DropCR(text), [];
  }

  // ---------------------------------------------------------------------
  // The index
  // ---------------------------------------------------------------------

  /** Writes a text to a file, or fails; the file system is not modelled. */
  type FileWriter = (string, string) -> Outcome<Error>

  class Index {
    var lines: seq<string>
    const filename: string
    /** every (file name, text) written so far, in order */
    ghost var writes: seq<(string, string)>

    /** `NewIndex`: the lines of the file's content, as the line scanner
        returns them. */
    constructor (content: string, filename: string)
      ensures lines == ScanLines(content) && this.filename == filename && writes == []
    {
      var scanned: seq<string> := [];
      var rest := content;
      while rest != []
        invariant ScanFrom(content) == scanned + ScanFrom(rest)
        decreases |rest|
      {
        var line, after := NextLine(rest);
        assert scanned + ([line] + ScanFrom(after)) == (scanned + [line]) + ScanFrom(after);
        scanned := scanned + [line];
        rest := after;
      }
      assert ScanFrom(content) == scanned + [];
      ScanFromIsScanLines(content);
      lines := scanned;
      this.filename := filename;
      writes := [];
    }

    method Append(line: string)
      modifies this`lines
      ensures lines == old(lines) + [line]
    {
      lines := lines + [line];
    }

    /** The variadic `Append(lines...)` of the `index` package that
        parse_from_binlog_index.go uses: the lines go at the end, in order. */
    method AppendAll(more: seq<string>)
      modifies this`lines
      ensures lines == old(lines) + more
    {
      lines := lines + more;
    }

    /** `SyncFile`: writes the serialised lines to the named file. */
    method SyncFile(filename: string, write: FileWriter) returns (err: Outcome<Error>)
      modifies this`writes
      ensures writes == old(writes) + [(filename, Serialized(lines))]
      ensures err == write(filename, Serialized(lines))
    {
      var data := Join(lines, "\n");
      writes := writes + [(filename, data + "\n")];
      err := write(filename, data + "\n");
    }

    /** `Sync`: writes the index back to the file it was read from. */
    method Sync(write: FileWriter) returns (err: Outcome<Error>)
      modifies this`writes
      ensures writes == old(writes) + [(filename, Serialized(lines))]
      ensures err == write(filename, Serialized(lines))
    {
      err := SyncFile(filename, write);
    }

    /** `Diff`: the lines of this index missing from the other one. */
    method Diff(other: Index) returns (diff: seq<string>)
      ensures diff == Difference(lines, other.lines)
    {
      diff := [];
      for k := 0 to |lines|
        invariant diff == Difference(lines[..k], other.lines)
      {
        var line := lines[k];
        var found := false;
        for j := 0 to |other.lines|
          invariant found <==> line in other.lines[..j]
        {
          if other.lines[j] == line {
            found := true;
            break;
          }
        }
        assert found <==> line in other.lines;
        assert lines[..k + 1][..k] == lines[..k];
        if !found {
          diff := diff + [line];
        }
      }
      assert lines[..|lines|] == lines;
    }
  }

  /** Two lines appended to an index read from a one-line file are written
      back after that line, each ending in a newline. */
  lemma AppendTwoAndSerialize(first: string, a: string, b: string)
    requires '\n' !in first && DropCR(first) == first
    ensures Serialized(ScanLines(first + "\n") + [a, b]) == first + "\n" + a + "\n" + b + "\n"
  {
    ScanSerialized([first]);
    assert Serialized([first]) == first + "\n";
    SerializedAppend([first], a);
    SerializedAppend([first, a], b);
    assert [first] + [a] == [first, a] && [first, a] + [b] == [first, a, b] && [first] + [a, b] == [first, a, b];
  }
}
