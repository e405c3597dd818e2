/**
 * The Python 2 `str` operations the modelled code relies on, as functions on
 * `seq<char>`: split with a one-character separator, split() on whitespace,
 * re.split(r"\s+", ...), splitlines(), strip(), startswith, `in` on
 * substrings, os.path.basename, the `<` order on strings and int() in base 10.
 */
module PyStr {
  import opened Wrappers
  import Numerals

  /** Python 2's whitespace for `str` (and `\s` in a non-Unicode pattern): space, \t, \n, \v, \f, \r. */
  predicate IsSpace(c: char)
  {
    c == ' ' || c == '\t' || c == '\n' || c == '\U{B}' || c == '\U{C}' || c == '\r'
  }

  predicate NoSpace(s: string)
  {
    forall i :: 0 <= i < |s| ==> !IsSpace(s[i])
  }

  predicate AllSpace(s: string)
  {
    forall i :: 0 <= i < |s| ==> IsSpace(s[i])
  }

  predicate StartsWith(s: string, prefix: string)
  {
    |prefix| <= |s| && s[..|prefix|] == prefix
  }

  predicate EndsWith(s: string, suffix: string)
  {
    |suffix| <= |s| && s[|s| - |suffix|..] == suffix
  }

  /** `sub in s` for strings. */
  predicate Contains(s: string, sub: string)
    decreases |s|
  {
    StartsWith(s, sub) || (s != [] && Contains(s[1..], sub))
  }

  // ---------------------------------------------------------------------------
  // s.split(sep) with a one-character separator, and sep.join(parts)

  function Split(s: string, sep: char): (parts: seq<string>)
    ensures |parts| >= 1
    ensures forall i :: 0 <= i < |parts| ==> sep !in parts[i]
  {
    if s == [] then [""]
    else
      var rest := Split(s[1..], sep);
      if s[0] == sep then [""] + rest
      else [[s[0]] + rest[0]] + rest[1..]
  }

  function Join(parts: seq<string>, sep: char): string
  {
    if parts == [] then ""
    else if |parts| == 1 then parts[0]
    else parts[0] + [sep] + Join(parts[1..], sep)
  }

  /** Joining the pieces of a split gives back the string. */
  lemma {:induction false} JoinSplit(s: string, sep: char)
    ensures Join(Split(s, sep), sep) == s
  {
    if s != [] {
      var rest := Split(s[1..], sep);
      JoinSplit(s[1..], sep);
      if s[0] == sep {
        assert Split(s, sep) == [""] + rest;
        assert ([""] + rest)[1..] == rest;
      } else {
        var parts := Split(s, sep);
        assert parts == [[s[0]] + rest[0]] + rest[1..];
        assert parts[1..] == rest[1..];
        if |rest| > 1 {
          assert Join(rest, sep) == rest[0] + [sep] + Join(rest[1..], sep);
        }
      }
    }
  }

  lemma {:induction false} SplitSeparatorFree(a: string, b: string, sep: char)
    requires sep !in a
    ensures Split(a + b, sep) == [a + Split(b, sep)[0]] + Split(b, sep)[1..]
    decreases |a|
  {
    var tail := Split(b, sep);
    if a != [] {
      assert (a + b)[1..] == a[1..] + b;
      assert (a + b)[0] == a[0];
      SplitSeparatorFree(a[1..], b, sep);
      var rest := Split(a[1..] + b, sep);
      assert rest[0] == a[1..] + tail[0];
      assert rest[1..] == tail[1..];
      assert [a[0]] + (a[1..] + tail[0]) == a + tail[0];
    } else {
      assert a + b == b;
      assert a + tail[0] == tail[0];
      assert [tail[0]] + tail[1..] == tail;
    }
  }

  /** Splitting a join of separator-free pieces gives back the pieces. */
  lemma {:induction false} SplitJoin(parts: seq<string>, sep: char)
    requires |parts| >= 1
    requires forall i :: 0 <= i < |parts| ==> sep !in parts[i]
    ensures Split(Join(parts, sep), sep) == parts
  {
    if |parts| == 1 {
      SplitSeparatorFree(parts[0], "", sep);
      assert parts[0] + "" == parts[0];
    } else {
      var tail := Join(parts[1..], sep);
      SplitJoin(parts[1..], sep);
      assert Join(parts, sep) == parts[0] + ([sep] + tail);
      SplitSeparatorFree(parts[0], [sep] + tail, sep);
      assert ([sep] + tail)[1..] == tail;
      assert Split([sep] + tail, sep) == [""] + parts[1..];
      assert Split([sep] + tail, sep)[0] == "";
      assert Split([sep] + tail, sep)[1..] == parts[1..];
      assert parts[0] + "" == parts[0];
      assert [parts[0]] + parts[1..] == parts;
    }
  }

  // ---------------------------------------------------------------------------
  // Whitespace: lstrip, the maximal run of non-space characters, strip()

  function LStrip(s: string): (r: string)
    ensures |r| <= |s|
    ensures r == [] || !IsSpace(r[0])
  {
    if s != [] && IsSpace(s[0]) then LStrip(s[1..]) else s
  }

  /** lstrip() removes a prefix of whitespace and nothing else. */
  lemma {:induction false} LStripRemovesSpace(s: string)
    ensures var r := LStrip(s); r == s[|s| - |r|..] && AllSpace(s[..|s| - |r|])
  {
    if s != [] && IsSpace(s[0]) {
      LStripRemovesSpace(s[1..]);
      var r := LStrip(s);
      assert s[..|s| - |r|] == [s[0]] + s[1..][..|s| - 1 - |r|];
    }
  }

  function RStrip(s: string): (r: string)
    ensures |r| <= |s|
  {
    if s != [] && IsSpace(s[|s| - 1]) then RStrip(s[..|s| - 1]) else s
  }

  /** rstrip() removes a suffix of whitespace and nothing else, up to a last character that is not whitespace. */
  lemma {:induction false} RStripRemovesSpace(s: string)
    ensures var r := RStrip(s); r == s[..|r|] && AllSpace(s[|r|..]) && (r == [] || !IsSpace(r[|r| - 1]))
  {
    if s != [] && IsSpace(s[|s| - 1]) {
      RStripRemovesSpace(s[..|s| - 1]);
      var r := RStrip(s);
      assert s[|r|..] == s[..|s| - 1][|r|..] + [s[|s| - 1]];
    }
  }

  /** str.strip(): drops the leading and trailing whitespace. */
  function Strip(s: string): (r: string)
    ensures |r| <= |s|
  {
    RStrip(LStrip(s))
  }

  /** strip() leaves a string that neither starts nor ends with whitespace, cut out of the original between whitespace. */
  lemma StripTrims(s: string)
    ensures var r := Strip(s);
            && (r == [] || (!IsSpace(r[0]) && !IsSpace(r[|r| - 1])))
            && exists i :: 0 <= i <= |s| - |r| && r == s[i..i + |r|] && AllSpace(s[..i]) && AllSpace(s[i + |r|..])
  {
    var t := LStrip(s);
    LStripRemovesSpace(s);
    RStripRemovesSpace(t);
    var r := Strip(s);
    var i := |s| - |t|;
    assert r == s[i..i + |r|];
    assert s[i + |r|..] == t[|r|..];
  }

  /** The longest prefix of s without whitespace. */
  function Token(s: string): (t: string)
    ensures |t| <= |s| && t == s[..|t|] && NoSpace(t)
    ensures |t| == |s| || IsSpace(s[|t|])
  {
    if s != [] && !IsSpace(s[0]) then [s[0]] + Token(s[1..]) else []
  }

  /** str.split() with no argument: the maximal runs of non-whitespace characters. */
  function Fields(s: string): (words: seq<string>)
    ensures forall i :: 0 <= i < |words| ==> words[i] != [] && NoSpace(words[i])
    decreases |s|
  {
    var t := LStrip(s);
    if t == [] then []
    else
      var w := Token(t);
      [w] + Fields(t[|w|..])
  }

  /** re.split(r"\s+", s): like Fields, but an empty first or last piece is kept when s starts or ends with whitespace. */
  function SplitOnSpaceRuns(s: string): (pieces: seq<string>)
    ensures |pieces| >= 1
    ensures forall i :: 0 <= i < |pieces| ==> NoSpace(pieces[i])
    ensures (s == [] || IsSpace(s[0])) <==> pieces[0] == []
    decreases |s|
  {
    var w := Token(s);
    var rest := s[|w|..];
    if rest == [] then [w] else [w] + SplitOnSpaceRuns(LStrip(rest))
  }

  function NonEmpty(pieces: seq<string>): (r: seq<string>)
    ensures forall i :: 0 <= i < |r| ==> r[i] != []
  {
    if pieces == [] then []
    else if pieces[0] == [] then NonEmpty(pieces[1..])
    else [pieces[0]] + NonEmpty(pieces[1..])
  }

  lemma LStripIdempotent(s: string)
    ensures LStrip(LStrip(s)) == LStrip(s)
  {
  }

  lemma {:induction false} FieldsOfLStrip(s: string)
    ensures Fields(LStrip(s)) == Fields(s)
  {
    LStripIdempotent(s);
  }

  lemma NonEmptyCons(p: string, ps: seq<string>)
    ensures NonEmpty([p] + ps) == if p == [] then NonEmpty(ps) else [p] + NonEmpty(ps)
  {
    assert ([p] + ps)[1..] == ps;
  }

  /** The words of split() are exactly the non-empty pieces of re.split(r"\s+", ...). */
  lemma {:induction false} FieldsAreNonEmptyPieces(s: string)
    ensures NonEmpty(SplitOnSpaceRuns(s)) == Fields(s)
    decreases |s|
  {
    var w := Token(s);
    var rest := s[|w|..];
    if s == [] {
    } else if w == [] {
      var t := LStrip(s);
      assert t == LStrip(s[1..]);
      assert SplitOnSpaceRuns(s) == [""] + SplitOnSpaceRuns(t);
      NonEmptyCons("", SplitOnSpaceRuns(t));
      FieldsAreNonEmptyPieces(t);
      FieldsOfLStrip(s);
    } else {
      assert LStrip(s) == s;
      assert Fields(s) == [w] + Fields(rest);
      if rest == [] {
        assert SplitOnSpaceRuns(s) == [w];
        NonEmptyCons(w, []);
      } else {
        var t := LStrip(rest);
        assert SplitOnSpaceRuns(s) == [w] + SplitOnSpaceRuns(t);
        NonEmptyCons(w, SplitOnSpaceRuns(t));
        FieldsAreNonEmptyPieces(t);
        FieldsOfLStrip(rest);
      }
    }
  }

  // ---------------------------------------------------------------------------
  // str.splitlines(): breaks at \n, \r and \r\n; no trailing empty line

  predicate IsLineBreak(c: char)
  {
    c == '\n' || c == '\r'
  }

  predicate NoLineBreak(s: string)
  {
    forall i :: 0 <= i < |s| ==> !IsLineBreak(s[i])
  }

  function LineText(s: string): (t: string)
    ensures |t| <= |s| && t == s[..|t|] && NoLineBreak(t)
    ensures |t| == |s| || IsLineBreak(s[|t|])
  {
    if s != [] && !IsLineBreak(s[0]) then [s[0]] + LineText(s[1..]) else []
  }

  function SplitLines(s: string): (lines: seq<string>)
    ensures forall i :: 0 <= i < |lines| ==> NoLineBreak(lines[i])
    ensures lines == [] <==> s == []
    decreases |s|
  {
    if s == [] then []
    else
      var line := LineText(s);
      var rest := s[|line|..];
      var next := if rest == [] then []
                  else if |rest| >= 2 && rest[0] == '\r' && rest[1] == '\n' then rest[2..]
                  else rest[1..];
      [line] + SplitLines(next)
  }

  /** Lines each terminated by "\n", as a file's contents. */
  function JoinLines(lines: seq<string>): string
  {
    if lines == [] then "" else lines[0] + "\n" + JoinLines(lines[1..])
  }

  lemma {:induction false} LineTextOfTerminated(line: string, rest: string)
    requires NoLineBreak(line)
    ensures LineText(line + "\n" + rest) == line
    decreases |line|
  {
    if line != [] {
      LineTextOfTerminated(line[1..], rest);
      assert (line + "\n" + rest)[1..] == line[1..] + "\n" + rest;
    }
  }

  /** splitlines() gives back the lines of a newline-terminated text. */
  lemma {:induction false} SplitLinesJoinLines(lines: seq<string>)
    requires forall i :: 0 <= i < |lines| ==> NoLineBreak(lines[i])
    ensures SplitLines(JoinLines(lines)) == lines
  {
    if lines != [] {
      var tail := JoinLines(lines[1..]);
      var s := lines[0] + "\n" + tail;
      LineTextOfTerminated(lines[0], tail);
      assert s[|lines[0]|..] == "\n" + tail;
      assert ("\n" + tail)[1..] == tail;
      SplitLinesJoinLines(lines[1..]);
    }
  }

  // ---------------------------------------------------------------------------
  // os.path.basename and the order of strings

  /** os.path.basename: the text after the last "/". */
  function Basename(p: string): (b: string)
    ensures |b| <= |p|
    ensures '/' !in b
  {
    if p == [] || p[|p| - 1] == '/' then [] else Basename(p[..|p| - 1]) + [p[|p| - 1]]
  }

  /** The base name is the tail of the path after its last "/", or the whole path when it has none. */
  lemma {:induction false} BasenameIsTail(p: string)
    ensures var b := Basename(p);
            && b == p[|p| - |b|..]
            && (|b| < |p| ==> p[|p| - |b| - 1] == '/')
  {
    if p != [] && p[|p| - 1] != '/' {
      var init := p[..|p| - 1];
      BasenameIsTail(init);
      var c := Basename(init);
      assert Basename(p) == c + [p[|p| - 1]];
      assert init[|init| - |c|..] + [p[|p| - 1]] == p[|p| - |c| - 1..];
      if |c| < |init| {
        assert init[|init| - |c| - 1] == p[|p| - |c| - 2];
      }
    }
  }

  /** Python's `a < b` on strings: lexicographic by character code. */
  predicate LexLt(a: string, b: string)
  {
    if a == [] then b != []
    else if b == [] then false
    else if a[0] != b[0] then a[0] < b[0]
    else LexLt(a[1..], b[1..])
  }

  lemma {:induction false} LexLtIrreflexive(a: string)
    ensures !LexLt(a, a)
  {
    if a != [] {
      LexLtIrreflexive(a[1..]);
    }
  }

  lemma {:induction false} LexLtTransitive(a: string, b: string, c: string)
    requires LexLt(a, b) && LexLt(b, c)
    ensures LexLt(a, c)
  {
    if a != [] && b != [] && c != [] && a[0] == b[0] && b[0] == c[0] {
      LexLtTransitive(a[1..], b[1..], c[1..]);
    }
  }

  lemma {:induction false} LexLtTotal(a: string, b: string)
    ensures a == b || LexLt(a, b) || LexLt(b, a)
  {
    if a != [] && b != [] && a[0] == b[0] {
      LexLtTotal(a[1..], b[1..]);
      if a[1..] == b[1..] {
        assert a == [a[0]] + a[1..] && b == [b[0]] + b[1..];
      }
    }
  }

  lemma LexLtAsymmetric(a: string, b: string)
    requires LexLt(a, b)
    ensures !LexLt(b, a)
  {
    if LexLt(b, a) {
      LexLtTransitive(a, b, a);
      LexLtIrreflexive(a);
    }
  }

  // ---------------------------------------------------------------------------
  // int(s) in base 10

  predicate IsDecimalLiteral(t: string)
  {
    var digits := if t != [] && (t[0] == '+' || t[0] == '-') then t[1..] else t;
    digits != [] && Numerals.AllDigits(digits, 10)
  }

  /** int(s): surrounding whitespace, an optional sign and at least one decimal digit; ValueError otherwise. */
  function ParseInt(s: string): (r: Result<int>)
    ensures r.Success? <==> IsDecimalLiteral(Strip(s))
  {
    var t := Strip(s);
    var negative := t != [] && t[0] == '-';
    var digits := if t != [] && (t[0] == '+' || t[0] == '-') then t[1..] else t;
    if digits != [] && Numerals.AllDigits(digits, 10) then
      var v: int := Numerals.Value(digits, 10);
      Success(if negative then -v else v)
    else
      Failure(ValueError(s))
  }

  /** str(n) for integers: an optional minus sign and the decimal digits. */
  function IntToString(n: int): string
  {
    if n < 0 then "-" + Numerals.ToDigits(-n, 10, false) else Numerals.ToDigits(n, 10, false)
  }

  lemma DigitsHaveNoSpace(d: string, base: nat)
    requires base <= 16 && Numerals.AllDigits(d, base)
    ensures NoSpace(d)
  {
    forall i | 0 <= i < |d| ensures !IsSpace(d[i]) {
      assert Numerals.DigitVal(d[i]) < 16;
    }
  }

  lemma StripNoSpace(s: string)
    requires NoSpace(s)
    ensures Strip(s) == s
  {
    assert LStrip(s) == s;
  }

  lemma ParseDigitString(d: string)
    requires d != [] && Numerals.AllDigits(d, 10)
    ensures ParseInt(d) == Success(Numerals.Value(d, 10) as int)
  {
    DigitsHaveNoSpace(d, 10);
    StripNoSpace(d);
    assert Numerals.IsDigitOf(d[0], 10);
  }

  lemma ParseNegativeDigitString(d: string)
    requires d != [] && Numerals.AllDigits(d, 10)
    ensures ParseInt("-" + d) == Success(-(Numerals.Value(d, 10) as int))
  {
    DigitsHaveNoSpace(d, 10);
    var s := "-" + d;
    assert s[1..] == d;
    assert NoSpace(s) by {
      forall i | 0 <= i < |s| ensures !IsSpace(s[i]) {
        if i > 0 { assert s[i] == d[i - 1]; }
      }
    }
    StripNoSpace(s);
  }

  /** int() reads back what str() writes. */
  lemma ParseIntToString(n: int)
    ensures ParseInt(IntToString(n)) == Success(n)
  {
    if n < 0 {
      Numerals.ToDigitsSpec(-n, 10, false);
      ParseNegativeDigitString(Numerals.ToDigits(-n, 10, false));
    } else {
      Numerals.ToDigitsSpec(n, 10, false);
      ParseDigitString(Numerals.ToDigits(n, 10, false));
    }
  }
}
