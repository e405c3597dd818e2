/**
 * The MAR listing of the update tools (class MarTool): `mar -t` prints a
 * "SIZE MODE NAME" header and one "size mode name" row per entry; the entry
 * names are the third fields of the rows, and a MAR is a FOTA update exactly
 * when it holds "update.zip". Running the mar tool is left out; its output is
 * the argument.
 */
module Mar {
  import PyStr
  import opened Wrappers

  /** The entry a line of the listing names: the third re.split(r"\s+") field of a line with three or more whose first is not "SIZE". */
  function EntryOfLine(line: string): Option<string>
  {
    var words := PyStr.SplitOnSpaceRuns(line);
    if |words| < 3 || words[0] == "SIZE" then None else Some(words[2])
  }

  /** The entries a sequence of lines names, in order, when entry says what each line names. */
  function EntriesBy(entry: string -> Option<string>, lines: seq<string>): seq<string>
  {
    if lines == [] then []
    else
      var rest := EntriesBy(entry, lines[..|lines| - 1]);
      match entry(lines[|lines| - 1])
      case Some(name) => rest + [name]
      case None => rest
  }

  /** The entries named by a listing's lines, in order. */
  function Entries(lines: seq<string>): seq<string>
  {
    EntriesBy(EntryOfLine, lines)
  }

  /** A name is an entry exactly when some line names it. */
  lemma {:induction false} EntriesAre(entry: string -> Option<string>, lines: seq<string>, name: string)
    ensures name in EntriesBy(entry, lines) <==> exists i :: 0 <= i < |lines| && entry(lines[i]) == Some(name)
  {
    if lines != [] {
      var init := lines[..|lines| - 1];
      EntriesAre(entry, init, name);
      assert forall i :: 0 <= i < |init| ==> init[i] == lines[i];
    }
  }

  /** list_entries on the output of `mar -t`. */
  method ListEntries(listing: string) returns (entries: seq<string>)
    ensures entries == Entries(PyStr.SplitLines(listing))
  {
    var lines := PyStr.SplitLines(listing);
    entries := [];
    var i := 0;
    while i < |lines|
      invariant 0 <= i <= |lines|
      invariant entries == Entries(lines[..i])
    {
      assert lines[..i + 1][..i] == lines[..i];
      var words := PyStr.SplitOnSpaceRuns(lines[i]);
      if |words| < 3 {
        i := i + 1;
        continue;
      }
      if words[0] == "SIZE" {
        i := i + 1;
        continue;
      }
      entries := entries + [words[2]];
      i := i + 1;
    }
    assert lines[..i] == lines;
  }

  /** is_fota_mar: some line of the listing names "update.zip". */
  method IsFotaMar(listing: string) returns (fota: bool)
    ensures fota <==> exists i :: 0 <= i < |PyStr.SplitLines(listing)| && EntryOfLine(PyStr.SplitLines(listing)[i]) == Some("update.zip")
  {
    var entries := ListEntries(listing);
    EntriesAre(EntryOfLine, PyStr.SplitLines(listing), "update.zip");
    fota := "update.zip" in entries;
  }

  /** is_gecko_mar: the negation of is_fota_mar. */
  method IsGeckoMar(listing: string) returns (gecko: bool)
    ensures gecko <==> forall i :: 0 <= i < |PyStr.SplitLines(listing)| ==> EntryOfLine(PyStr.SplitLines(listing)[i]) != Some("update.zip")
  {
    var fota := IsFotaMar(listing);
    gecko := !fota;
  }

  // ---------------------------------------------------------------------------
  // The listing the mar tool prints

  const ListingHeader := "SIZE\tMODE\tNAME"

  /** The row printed for one entry: its size, its mode and its name, tab-separated. */
  function Row(size: string, mode: string, name: string): string
  {
    size + "\t" + mode + "\t" + name
  }

  /** The output of `mar -t` for entries given as (size, mode, name). */
  function Listing(rows: seq<(string, string, string)>): string
  {
    PyStr.JoinLines([ListingHeader] + RowLines(rows))
  }

  function RowLines(rows: seq<(string, string, string)>): seq<string>
  {
    seq(|rows|, i requires 0 <= i < |rows| => Row(rows[i].0, rows[i].1, rows[i].2))
  }

  /** The names of the rows, in order. */
  function Names(rows: seq<(string, string, string)>): (names: seq<string>)
    ensures |names| == |rows| && forall i :: 0 <= i < |rows| ==> names[i] == rows[i].2
  {
    if rows == [] then [] else Names(rows[..|rows| - 1]) + [rows[|rows| - 1].2]
  }

  predicate WellFormedRow(row: (string, string, string))
  {
    && row.0 != [] && row.1 != [] && row.2 != []
    && PyStr.NoSpace(row.0) && PyStr.NoSpace(row.1) && PyStr.NoSpace(row.2)
    && row.0 != "SIZE"
  }

  /** The longest whitespace-free prefix of a word followed by whitespace (or nothing) is the word. */
  lemma {:induction false} TokenOfWord(w: string, rest: string)
    requires PyStr.NoSpace(w) && (rest == [] || PyStr.IsSpace(rest[0]))
    ensures PyStr.Token(w + rest) == w
    decreases |w|
  {
    if w != [] {
      assert (w + rest)[1..] == w[1..] + rest;
      TokenOfWord(w[1..], rest);
    } else {
      assert w + rest == rest;
    }
  }

  /** A word, one whitespace character and more text: the word is the first piece. */
  lemma RunsOfWordThen(w: string, c: char, rest: string)
    requires w != [] && PyStr.NoSpace(w) && PyStr.IsSpace(c) && (rest != [] && !PyStr.IsSpace(rest[0]))
    ensures PyStr.SplitOnSpaceRuns(w + [c] + rest) == [w] + PyStr.SplitOnSpaceRuns(rest)
  {
    var s := w + [c] + rest;
    TokenOfWord(w, [c] + rest);
    assert s == w + ([c] + rest);
    assert s[|w|..] == [c] + rest;
    assert PyStr.LStrip([c] + rest) == PyStr.LStrip(rest) == rest;
  }

  /** A single word is a single piece. */
  lemma RunsOfWord(w: string)
    requires w != [] && PyStr.NoSpace(w)
    ensures PyStr.SplitOnSpaceRuns(w) == [w]
  {
    TokenOfWord(w, []);
    assert w + [] == w;
  }

  /** A line of three whitespace-free words separated by tabs splits into those words, and has no line break. */
  lemma RowWords(a: string, b: string, c: string)
    requires a != [] && b != [] && c != [] && PyStr.NoSpace(a) && PyStr.NoSpace(b) && PyStr.NoSpace(c)
    ensures PyStr.SplitOnSpaceRuns(Row(a, b, c)) == [a, b, c]
    ensures PyStr.NoLineBreak(Row(a, b, c))
  {
    RunsOfWord(c);
    RunsOfWordThen(b, '\t', c);
    assert b + "\t" + c == b + ['\t'] + c;
    RunsOfWordThen(a, '\t', b + "\t" + c);
    assert Row(a, b, c) == a + ['\t'] + (b + ['\t'] + c);
    var r := Row(a, b, c);
    forall k | 0 <= k < |r| ensures !PyStr.IsLineBreak(r[k]) {
      if k < |a| {
        assert r[k] == a[k];
      } else if |a| < k < |a| + 1 + |b| {
        assert r[k] == b[k - |a| - 1];
      } else if k > |a| + 1 + |b| {
        assert r[k] == c[k - |a| - |b| - 2];
      }
    }
  }

  /** A well-formed row names its third field. */
  lemma RowEntry(row: (string, string, string))
    requires WellFormedRow(row)
    ensures EntryOfLine(Row(row.0, row.1, row.2)) == Some(row.2)
    ensures PyStr.NoLineBreak(Row(row.0, row.1, row.2))
  {
    RowWords(row.0, row.1, row.2);
  }

  /** The header names no entry. */
  lemma HeaderEntry()
    ensures EntryOfLine(ListingHeader) == None
    ensures PyStr.NoLineBreak(ListingHeader)
  {
    var a, b, c := "SIZE", "MODE", "NAME";
    assert PyStr.NoSpace(a) && PyStr.NoSpace(b) && PyStr.NoSpace(c);
    RowWords(a, b, c);
    assert ListingHeader == Row(a, b, c);
  }

  /** After a line naming nothing, lines that each name their row's third field name exactly those, in order. */
  lemma {:induction false} EntriesOfRows(entry: string -> Option<string>, header: string, rows: seq<(string, string, string)>)
    requires entry(header) == None
    requires forall i :: 0 <= i < |rows| ==> entry(Row(rows[i].0, rows[i].1, rows[i].2)) == Some(rows[i].2)
    ensures EntriesBy(entry, [header] + RowLines(rows)) == Names(rows)
  {
    var lines := [header] + RowLines(rows);
    if rows == [] {
      assert lines[..0] == [];
    } else {
      var init := rows[..|rows| - 1];
      var last := rows[|rows| - 1];
      EntriesOfRows(entry, header, init);
      assert lines[..|lines| - 1] == [header] + RowLines(init);
      assert lines[|lines| - 1] == Row(last.0, last.1, last.2);
    }
  }

  /** After a line without line breaks, the lines of well-formed rows are split apart again. */
  lemma LinesOfRows(header: string, rows: seq<(string, string, string)>)
    requires PyStr.NoLineBreak(header)
    requires forall i :: 0 <= i < |rows| ==> WellFormedRow(rows[i])
    ensures PyStr.SplitLines(PyStr.JoinLines([header] + RowLines(rows))) == [header] + RowLines(rows)
  {
    var lines := [header] + RowLines(rows);
    forall i | 0 <= i < |lines| ensures PyStr.NoLineBreak(lines[i]) {
      if i > 0 {
        RowEntry(rows[i - 1]);
      }
    }
    PyStr.SplitLinesJoinLines(lines);
  }

  /** `mar -t` of well-formed rows lists exactly their names, in order. */
  lemma ListingEntries(rows: seq<(string, string, string)>)
    requires forall i :: 0 <= i < |rows| ==> WellFormedRow(rows[i])
    ensures Entries(PyStr.SplitLines(Listing(rows))) == Names(rows)
  {
    HeaderEntry();
    LinesOfRows(ListingHeader, rows);
    forall i | 0 <= i < |rows| ensures EntryOfLine(Row(rows[i].0, rows[i].1, rows[i].2)) == Some(rows[i].2) {
      RowEntry(rows[i]);
    }
    EntriesOfRows(EntryOfLine, ListingHeader, rows);
  }

  /** The listing of well-formed rows is a FOTA update exactly when one of the names is "update.zip". */
  lemma ListingIsFota(rows: seq<(string, string, string)>)
    requires forall i :: 0 <= i < |rows| ==> WellFormedRow(rows[i])
    ensures var lines := PyStr.SplitLines(Listing(rows));
            (exists i :: 0 <= i < |lines| && EntryOfLine(lines[i]) == Some("update.zip")) <==> "update.zip" in Names(rows)
  {
    ListingEntries(rows);
    EntriesAre(EntryOfLine, PyStr.SplitLines(Listing(rows)), "update.zip");
  }
}
