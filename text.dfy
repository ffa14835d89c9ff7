/** The few pieces of Go's `strings` and `fmt` packages that the binlog
    parser relies on, written out over `seq<char>`: decimal formatting
    (`%d`), `strings.Split`, `strings.Join`, `strings.Trim`,
    `strings.TrimSpace`, `strings.ToUpper` and `strings.HasPrefix`. */
module Text {

  import opened Wrappers

  // ---------------------------------------------------------------------
  // Decimal formatting, as `fmt.Sprintf("%d", n)`
  // ---------------------------------------------------------------------

  function DigitChar(d: nat): (c: char)
    requires d < 10
    ensures '0' <= c <= '9'
  {
    ('0' as int + d) as char
  }

  function DigitValue(c: char): nat
  {
    if '0' <= c <= '9' then c as int - '0' as int else 0
  }

  predicate IsDigits(s: string)
  {
    forall i :: 0 <= i < |s| ==> '0' <= s[i] <= '9'
  }

  /** The shortest decimal representation of `n`. */
  function NatToString(n: nat): (s: string)
    ensures 1 <= |s| && IsDigits(s)
    decreases n
  {
    if n < 10 then [DigitChar(n)] else NatToString(n / 10) + [DigitChar(n % 10)]
  }

  /** `%d` of a signed integer: a minus sign in front of negative values. */
  function IntToString(i: int): (s: string)
    ensures 1 <= |s|
  {
    if i < 0 then "-" + NatToString(-i) else NatToString(i)
  }

  /** Reads a string of digits back as a number. */
  function DecimalValue(s: string): nat
  {
    if s == [] then 0 else 10 * DecimalValue(s[..|s| - 1]) + DigitValue(s[|s| - 1])
  }

  lemma {:induction false} DecimalRoundTrip(n: nat)
    ensures DecimalValue(NatToString(n)) == n
    decreases n
  {
    if n >= 10 {
      var s := NatToString(n);
      assert s[..|s| - 1] == NatToString(n / 10);
      DecimalRoundTrip(n / 10);
    }
  }

  /** Distinct numbers are printed differently. */
  lemma NatToStringInjective(a: nat, b: nat)
    ensures NatToString(a) == NatToString(b) ==> a == b
  {
    DecimalRoundTrip(a);
    DecimalRoundTrip(b);
  }

  // ---------------------------------------------------------------------
  // Searching
  // ---------------------------------------------------------------------

  /** Position of the first occurrence of `c` in `s`, as `strings.IndexByte`. */
  function IndexOf(s: string, c: char): (r: Option<nat>)
    ensures r.None? ==> c !in s
    ensures r.Some? ==> r.value < |s| && s[r.value] == c && c !in s[..r.value]
  {
    if s == [] then None
    else if s[0] == c then Some(0)
    else match IndexOf(s[1..], c)
      case None => None
      case Some(i) =>
        assert s[..i + 1] == [s[0]] + s[1..][..i];
        Some(i + 1)
  }

  lemma IndexOfSeparated(x: string, c: char, y: string)
    requires c !in x
    ensures IndexOf(x + [c] + y, c) == Some(|x|)
  {
    var s := x + [c] + y;
    assert s[|x|] == c;
    assert s[..|x|] == x;
  }

  predicate HasPrefix(s: string, prefix: string)
  {
    |prefix| <= |s| && s[..|prefix|] == prefix
  }

  // ---------------------------------------------------------------------
  // Trimming
  // ---------------------------------------------------------------------

  /** `unicode.IsSpace`: the Latin-1 spaces plus the other characters with
      Unicode's White_Space property. */
  predicate IsSpace(c: char)
  {
    c == ' ' || c == '\t' || c == '\n' || c == '\U{000B}' || c == '\U{000C}' || c == '\r'
    || c == '\U{0085}' || c == '\U{00A0}' || c == '\U{1680}'
    || ('\U{2000}' <= c <= '\U{200A}')
    || c == '\U{2028}' || c == '\U{2029}' || c == '\U{202F}' || c == '\U{205F}' || c == '\U{3000}'
  }

  predicate IsBlank(c: char)
  {
    c == ' '
  }

  /** Drops the leading characters that satisfy `f`. */
  function TrimLeftFunc(s: string, f: char -> bool): (r: string)
    ensures |r| <= |s| && r == s[|s| - |r|..]
    ensures r == [] || !f(r[0])
    ensures forall i :: 0 <= i < |s| - |r| ==> f(s[i])
  {
    if s != [] && f(s[0]) then TrimLeftFunc(s[1..], f) else s
  }

  /** Drops the trailing characters that satisfy `f`. */
  function TrimRightFunc(s: string, f: char -> bool): (r: string)
    ensures |r| <= |s| && r == s[..|r|]
    ensures r == [] || !f(r[|r| - 1])
    ensures forall i :: |r| <= i < |s| ==> f(s[i])
  {
    if s != [] && f(s[|s| - 1]) then TrimRightFunc(s[..|s| - 1], f) else s
  }

  /** `strings.TrimSpace`. */
  function TrimSpace(s: string): (r: string)
  {
    TrimRightFunc(TrimLeftFunc(s, IsSpace), IsSpace)
  }

  /** `strings.Trim(s, " ")`: drops leading and trailing blanks. */
  function TrimBlanks(s: string): (r: string)
  {
    TrimRightFunc(TrimLeftFunc(s, IsBlank), IsBlank)
  }

  /** A text with no blank at either end is its own trim. */
  lemma TrimBlanksOfUnpadded(s: string)
    requires s == [] || (s[0] != ' ' && s[|s| - 1] != ' ')
    ensures TrimBlanks(s) == s
  {
    assert TrimLeftFunc(s, IsBlank) == s;
    assert TrimRightFunc(s, IsBlank) == s;
  }

  /** One space on either side of such a text is trimmed away. */
  lemma TrimBlanksOfPadded(s: string)
    requires s != [] && s[0] != ' ' && s[|s| - 1] != ' '
    ensures TrimBlanks(" " + s + " ") == s
  {
    var p := " " + s + " ";
    assert p[1..] == s + " ";
    assert TrimLeftFunc(s + " ", IsBlank) == s + " ";
    assert (s + " ")[..|s|] == s;
    assert TrimRightFunc(s, IsBlank) == s;
  }

  /** Trimming both ends by `f` leaves a piece of the input that neither
      starts nor ends with a trimmed character. */
  lemma TrimFuncEnds(s: string, f: char -> bool)
    ensures var r := TrimRightFunc(TrimLeftFunc(s, f), f);
      r == [] || (!f(r[0]) && !f(r[|r| - 1]))
  {
    var l := TrimLeftFunc(s, f);
    var r := TrimRightFunc(l, f);
    if r != [] {
      assert r[0] == l[0];
    }
  }

  lemma TrimFuncKeepsCharacters(s: string, f: char -> bool)
    ensures forall c :: c in TrimRightFunc(TrimLeftFunc(s, f), f) ==> c in s
  {
    var l := TrimLeftFunc(s, f);
    var r := TrimRightFunc(l, f);
    var k := |s| - |l|;
    assert l == s[k..];
    assert r == l[..|r|];
    forall i | 0 <= i < |r| ensures r[i] in s {
      assert r[i] == l[i] == s[k + i];
    }
    forall c | c in r ensures c in s {
      var i :| 0 <= i < |r| && r[i] == c;
    }
  }

  /** Trimming both ends by `f` leaves nothing exactly when every character
      is trimmed. */
  lemma TrimFuncEmpty(s: string, f: char -> bool)
    ensures TrimRightFunc(TrimLeftFunc(s, f), f) == [] <==> forall i :: 0 <= i < |s| ==> f(s[i])
  {
    var l := TrimLeftFunc(s, f);
    var r := TrimRightFunc(l, f);
    if r == [] {
      forall i | 0 <= i < |s| ensures f(s[i]) {
        if i >= |s| - |l| {
          assert s[i] == l[i - (|s| - |l|)];
        }
      }
    } else {
      assert s[|s| - |l|] == l[0] == r[0];
    }
  }

  lemma TrimSpaceProperties(s: string)
    ensures var r := TrimSpace(s);
      (r == [] || (!IsSpace(r[0]) && !IsSpace(r[|r| - 1])))
      && (forall c :: c in r ==> c in s)
      && (r == [] <==> forall i :: 0 <= i < |s| ==> IsSpace(s[i]))
  {
    TrimFuncEnds(s, IsSpace);
    TrimFuncKeepsCharacters(s, IsSpace);
    TrimFuncEmpty(s, IsSpace);
  }

  lemma TrimSpaceOfTrimmed(s: string)
    requires s == [] || (!IsSpace(s[0]) && !IsSpace(s[|s| - 1]))
    ensures TrimSpace(s) == s
  {
  }

  // ---------------------------------------------------------------------
  // Case mapping
  // ---------------------------------------------------------------------

  /** Upper case of one character as far as it can equal an ASCII letter:
      a..z become A..Z, and the two non-ASCII letters whose upper case is
      ASCII (dotless i and long s) become I and S. Every other character is
      kept; its true upper case is never an ASCII character either, so
      comparisons against ASCII keywords come out the same. */
  function UpperChar(c: char): (u: char)
  {
    if 'a' <= c <= 'z' then (c as int - 32) as char
    else if c == '\U{0131}' then 'I'
    else if c == '\U{017F}' then 'S'
    else c
  }

  /** `strings.ToUpper`, character by character. */
  function ToUpper(s: string): (r: string)
    ensures |r| == |s|
    ensures forall i :: 0 <= i < |s| ==> r[i] == UpperChar(s[i])
  {
    seq(|s|, i requires 0 <= i < |s| => UpperChar(s[i]))
  }

  /** `c` is a spelling of the ASCII capital `u` in some case: `u` itself,
      its small letter, or the dotless i or long s for I and S. */
  predicate FoldsTo(c: char, u: char)
  {
    c == u || ('A' <= u <= 'Z' && c == (u as int + 32) as char)
    || (u == 'I' && c == '\U{0131}') || (u == 'S' && c == '\U{017F}')
  }

  /** A word of ASCII capitals, such as a SQL keyword. */
  predicate Capitals(w: string)
  {
    forall i :: 0 <= i < |w| ==> 'A' <= w[i] <= 'Z'
  }

  /** An ASCII capital is the upper case of exactly the characters that
      spell it. */
  lemma UpperCharIsCapital(c: char, u: char)
    requires 'A' <= u <= 'Z'
    ensures UpperChar(c) == u <==> FoldsTo(c, u)
  {
  }

  /** `s` starts with a spelling of `w` in some mixture of cases. */
  predicate SpellsPrefix(s: string, w: string)
  {
    |w| <= |s| && forall i :: 0 <= i < |w| ==> FoldsTo(s[i], w[i])
  }

  /** `s` is a spelling of `w` in some mixture of cases. */
  predicate Spells(s: string, w: string)
  {
    |s| == |w| && SpellsPrefix(s, w)
  }

  /** Upper-casing gives the word `w` exactly for the texts that spell `w`
      in any mixture of cases. */
  lemma ToUpperEquals(s: string, w: string)
    requires Capitals(w)
    ensures ToUpper(s) == w <==> Spells(s, w)
  {
    forall i | 0 <= i < |s| && i < |w| {
      UpperCharIsCapital(s[i], w[i]);
    }
  }

  /** Upper-casing starts with the word `w` exactly for the texts that
      start with a spelling of `w` in any mixture of cases. */
  lemma ToUpperHasPrefix(s: string, w: string)
    requires Capitals(w)
    ensures HasPrefix(ToUpper(s), w) <==> SpellsPrefix(s, w)
  {
    if |w| <= |s| {
      ToUpperEquals(s[..|w|], w);
      assert ToUpper(s)[..|w|] == ToUpper(s[..|w|]);
    }
  }

  /** Upper-casing twice is upper-casing once. */
  lemma ToUpperIdempotent(s: string)
    ensures ToUpper(ToUpper(s)) == ToUpper(s)
  {
  }

  // ---------------------------------------------------------------------
  // Splitting and joining
  // ---------------------------------------------------------------------

  /** `strings.Split(s, string(sep))`: the pieces between separators,
      always at least one (the empty input gives one empty piece). */
  function Split(s: string, sep: char): (r: seq<string>)
    ensures |r| >= 1
    ensures forall p :: p in r ==> sep !in p
    decreases |s|
  {
    if s == [] then [""]
    else if s[0] == sep then [""] + Split(s[1..], sep)
    else
      var rest := Split(s[1..], sep);
      [[s[0]] + rest[0]] + rest[1..]
  }

  /** `strings.Join(parts, sep)`. */
  function Join(parts: seq<string>, sep: string): (r: string)
  {
    if |parts| == 0 then ""
    else if |parts| == 1 then parts[0]
    else parts[0] + sep + Join(parts[1..], sep)
  }

  lemma {:induction false} SplitWithoutSeparator(s: string, sep: char)
    requires sep !in s
    ensures Split(s, sep) == [s]
    decreases |s|
  {
    if s != [] {
      SplitWithoutSeparator(s[1..], sep);
      assert [s[0]] + s[1..] == s;
    }
  }

  lemma {:induction false} SplitAtFirstSeparator(x: string, sep: char, y: string)
    requires sep !in x
    ensures Split(x + [sep] + y, sep) == [x] + Split(y, sep)
    decreases |x|
  {
    if x == [] {
      assert x + [sep] + y == [sep] + y;
      assert ([sep] + y)[1..] == y;
    } else {
      var s := x + [sep] + y;
      assert s[0] == x[0] && s[1..] == x[1..] + [sep] + y;
      SplitAtFirstSeparator(x[1..], sep, y);
      assert [x[0]] + x[1..] == x;
    }
  }

  /** Every character of every piece comes from the split text. */
  lemma {:induction false} SplitKeepsCharacters(s: string, sep: char)
    ensures forall p, c :: p in Split(s, sep) && c in p ==> c in s
    decreases |s|
  {
    if s != [] {
      SplitKeepsCharacters(s[1..], sep);
      assert forall c :: c in s[1..] ==> c in s;
    }
  }

  /** Splitting undoes joining when no piece holds the separator. */
  lemma {:induction false} SplitJoin(parts: seq<string>, sep: char)
    requires |parts| >= 1
    requires forall p :: p in parts ==> sep !in p
    ensures Split(Join(parts, [sep]), sep) == parts
    decreases |parts|
  {
    if |parts| == 1 {
      SplitWithoutSeparator(parts[0], sep);
    } else {
      SplitJoin(parts[1..], sep);
      SplitAtFirstSeparator(parts[0], sep, Join(parts[1..], [sep]));
      assert [parts[0]] + parts[1..] == parts;
    }
  }
}
