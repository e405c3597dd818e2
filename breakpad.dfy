/**
 * The Breakpad path of the symbolicator (LookupAddressesInBreakpad and its
 * nested fixSymbol): an address becomes the line "[<lib> +0x<OFFSET>]", an
 * external resolver (fixSymbols of fix_stack_using_bpsyms) rewrites that
 * line, and the answer is tidied up: a trailing newline goes, a source path
 * shrinks to its file name, and " (in <lib>)" is appended.
 */
module Breakpad {
  import opened Wrappers
  import PyStr
  import Addresses
  import SymbolTable

  // ---------------------------------------------------------------------------
  // symbol_path_matcher = ^(.+) \[(.*)]$ used with re.match

  predicate NoNewline(s: string)
  {
    forall i :: 0 <= i < |s| ==> s[i] != '\n'
  }

  /** " [" starts at position j of s. */
  predicate OpenAt(s: string, j: int)
  {
    0 <= j && j + 1 < |s| && s[j] == ' ' && s[j + 1] == '['
  }

  predicate NoOpenBracket(s: string)
  {
    forall j :: 0 <= j < |s| ==> !OpenAt(s, j)
  }

  /** One trailing newline removed, as `$` lets a match end before a final "\n". */
  function DropNewline(s: string): (r: string)
    ensures r == s || (s == r + "\n")
    ensures |s| > 0 && s[|s| - 1] == '\n' ==> |r| == |s| - 1
  {
    if |s| > 0 && s[|s| - 1] == '\n' then s[..|s| - 1] else s
  }

  /** The greatest j in [1, hi] where " [" starts: the split point of the greedy (.+). */
  function LastOpen(s: string, hi: int): (q: Option<nat>)
    requires hi + 1 < |s|
    ensures q.Some? ==> 1 <= q.value <= hi && OpenAt(s, q.value)
                        && forall j :: q.value < j <= hi ==> !OpenAt(s, j)
    ensures q.None? ==> forall j :: 1 <= j <= hi ==> !OpenAt(s, j)
    decreases hi
  {
    if hi < 1 then None
    else if OpenAt(s, hi) then Some(hi)
    else LastOpen(s, hi - 1)
  }

  /**
   * symbol_path_matcher.match(s).group(1, 2), or None when it does not match.
   * `.` does not match "\n", so both groups are newline-free; group 1 is not
   * empty and, being greedy, ends at the last " [" before the closing "]".
   */
  function MatchSymbolPath(s: string): (m: Option<(string, string)>)
    ensures m.Some? ==>
              && DropNewline(s) == m.value.0 + " [" + m.value.1 + "]"
              && m.value.0 != [] && NoNewline(m.value.0) && NoNewline(m.value.1)
              && NoOpenBracket(m.value.1)
  {
    var core := DropNewline(s);
    if |core| >= 4 && core[|core| - 1] == ']' && NoNewline(core) then
      match LastOpen(core, |core| - 3)
      case Some(q) =>
        var a, b := core[..q], core[q + 2..|core| - 1];
        assert core == a + " [" + b + "]";
        assert NoOpenBracket(b) by {
          forall j | 0 <= j < |b| ensures !OpenAt(b, j) {
            assert OpenAt(b, j) ==> OpenAt(core, q + 2 + j);
          }
        }
        Some((a, b))
      case None => None
    else None
  }

  /**
   * Every "<symbol> [<path>]" answer, with or without a final newline, matches,
   * and the groups are the symbol and the path when the path holds no " [".
   */
  lemma MatchOfSourceForm(a: string, b: string, tail: string)
    requires a != [] && NoNewline(a) && NoNewline(b)
    requires tail == "" || tail == "\n"
    ensures MatchSymbolPath(a + " [" + b + "]" + tail).Some?
    ensures NoOpenBracket(b) ==> MatchSymbolPath(a + " [" + b + "]" + tail) == Some((a, b))
  {
    var core := a + " [" + b + "]";
    assert DropNewline(core + tail) == core;
    assert core[|core| - 1] == ']';
    assert NoNewline(core) by {
      forall i | 0 <= i < |core| ensures core[i] != '\n' {
        if i < |a| {
          assert core[i] == a[i];
        } else if |a| + 2 <= i < |a| + 2 + |b| {
          assert core[i] == b[i - |a| - 2];
        }
      }
    }
    assert OpenAt(core, |a|);
    var q := LastOpen(core, |core| - 3);
    assert q.Some?;
    if NoOpenBracket(b) {
      assert q.value == |a| by {
        if q.value != |a| {
          OpenInPath(a, b, q.value);
          assert false;
        }
      }
      assert core[..|a|] == a;
      assert core[|a| + 2..|core| - 1] == b;
    }
  }

  lemma OpenInPath(a: string, b: string, q: int)
    requires OpenAt(a + " [" + b + "]", q) && q > |a|
    ensures OpenAt(b, q - |a| - 2)
  {
    var core := a + " [" + b + "]";
    assert core[q] == b[q - |a| - 2];
    assert core[q + 1] == b[q - |a| - 1];
  }

  /** A string that does not end in "]" (after one newline) never matches. */
  lemma NoMatchWithoutClosingBracket(s: string)
    requires var core := DropNewline(s); core == [] || core[|core| - 1] != ']'
    ensures MatchSymbolPath(s).None?
  {
  }

  // ---------------------------------------------------------------------------
  // fixSymbol

  /** The query handed to fixSymbols: "[" + basename(host_name) + " +" + formatAddress(addr) + "]". */
  function BreakpadLine(hostName: string, addr: int): string
  {
    "[" + PyStr.Basename(hostName) + " +" + Addresses.FormatAddress(addr) + "]"
  }

  /** "<symbol> [<path>]" becomes "<symbol> @ basename(<path>)"; other answers stay as they are. */
  function ShortenSourcePath(symbol: string): string
  {
    match MatchSymbolPath(symbol)
    case Some((name, path)) => name + " @ " + PyStr.Basename(path)
    case None => symbol
  }

  /**
   * fixSymbol(address) for a library with the given fields; fixSymbols is the
   * external resolver. int(address, 0) can fail, and so can symbol[-1] on an
   * empty answer.
   */
  function FixSymbol(fixSymbols: (string, string) -> string, symbolsPath: string, hostName: string,
                     targetName: string, start: int, offset: int, address: string): (r: Result<string>)
    ensures Addresses.ParseAddress(address).Failure? ==> r.Failure?
    ensures Addresses.ParseAddress(address).Success? ==>
              var line := BreakpadLine(hostName, Addresses.FixupOffset(Addresses.ParseAddress(address).value, start, offset));
              var answer := fixSymbols(line, symbolsPath);
              && (answer == line ==> r == Success("??"))
              && (answer != line ==> (r.Success? <==> answer != []))
              && (r.Success? && answer != line ==>
                    PyStr.EndsWith(r.value, SymbolTable.InSuffix(targetName)))
  {
    var addr :- Addresses.FixupAddress(address, start, offset);
    var line := BreakpadLine(hostName, addr);
    var symbol := fixSymbols(line, symbolsPath);
    if symbol == line then Success("??")
    else if symbol == [] then Failure(IndexError)
    else Success(ShortenSourcePath(DropNewline(symbol)) + SymbolTable.InSuffix(targetName))
  }

  /** An answer with a source path ends up as "<symbol> @ <file> (in <lib>)". */
  lemma FixSymbolOfSourcePath(fixSymbols: (string, string) -> string, symbolsPath: string, hostName: string,
                              targetName: string, start: int, offset: int, address: string,
                              name: string, path: string, tail: string)
    requires Addresses.ParseAddress(address).Success?
    requires var line := BreakpadLine(hostName, Addresses.FixupOffset(Addresses.ParseAddress(address).value, start, offset));
             var answer := fixSymbols(line, symbolsPath);
             answer != line && answer == name + " [" + path + "]" + tail
    requires name != [] && NoNewline(name) && NoNewline(path) && NoOpenBracket(path)
    requires tail == "" || tail == "\n" || tail == "\n\n"
    ensures FixSymbol(fixSymbols, symbolsPath, hostName, targetName, start, offset, address)
            == Success(name + " @ " + PyStr.Basename(path) + SymbolTable.InSuffix(targetName))
  {
    FixSymbolOfAnswer(fixSymbols, symbolsPath, hostName, targetName, start, offset, address);
    ShortenOfSourceForm(name, path, tail);
  }

  /** An answer other than the query (and not empty) is shortened and suffixed. */
  lemma FixSymbolOfAnswer(fixSymbols: (string, string) -> string, symbolsPath: string, hostName: string,
                          targetName: string, start: int, offset: int, address: string)
    requires Addresses.ParseAddress(address).Success?
    requires var line := BreakpadLine(hostName, Addresses.FixupOffset(Addresses.ParseAddress(address).value, start, offset));
             var answer := fixSymbols(line, symbolsPath);
             answer != line && answer != []
    ensures var line := BreakpadLine(hostName, Addresses.FixupOffset(Addresses.ParseAddress(address).value, start, offset));
            FixSymbol(fixSymbols, symbolsPath, hostName, targetName, start, offset, address)
            == Success(ShortenSourcePath(DropNewline(fixSymbols(line, symbolsPath))) + SymbolTable.InSuffix(targetName))
  {
  }

  lemma ShortenOfSourceForm(name: string, path: string, tail: string)
    requires name != [] && NoNewline(name) && NoNewline(path) && NoOpenBracket(path)
    requires tail == "" || tail == "\n" || tail == "\n\n"
    ensures ShortenSourcePath(DropNewline(name + " [" + path + "]" + tail)) == name + " @ " + PyStr.Basename(path)
  {
    var answer := name + " [" + path + "]" + tail;
    var rest := if tail == "\n\n" then "\n" else "";
    assert DropNewline(answer) == name + " [" + path + "]" + rest;
    MatchOfSourceForm(name, path, rest);
  }

  /** When the resolver hands the query back unchanged the answer is a bare "??", without the library suffix. */
  lemma FixSymbolOfEcho(fixSymbols: (string, string) -> string, symbolsPath: string, hostName: string,
                        targetName: string, start: int, offset: int, address: string)
    requires Addresses.ParseAddress(address).Success?
    requires var line := BreakpadLine(hostName, Addresses.FixupOffset(Addresses.ParseAddress(address).value, start, offset));
             fixSymbols(line, symbolsPath) == line
    ensures FixSymbol(fixSymbols, symbolsPath, hostName, targetName, start, offset, address) == Success("??")
  {
  }

  /** An answer without a source path loses one trailing newline and gains the suffix. */
  lemma FixSymbolOfPlainAnswer(fixSymbols: (string, string) -> string, symbolsPath: string, hostName: string,
                               targetName: string, start: int, offset: int, address: string, text: string)
    requires Addresses.ParseAddress(address).Success?
    requires var line := BreakpadLine(hostName, Addresses.FixupOffset(Addresses.ParseAddress(address).value, start, offset));
             var answer := fixSymbols(line, symbolsPath);
             answer != line && (answer == text || answer == text + "\n")
    requires text != [] && text[|text| - 1] != ']' && text[|text| - 1] != '\n'
    ensures FixSymbol(fixSymbols, symbolsPath, hostName, targetName, start, offset, address)
            == Success(text + SymbolTable.InSuffix(targetName))
  {
    var line := BreakpadLine(hostName, Addresses.FixupOffset(Addresses.ParseAddress(address).value, start, offset));
    var answer := fixSymbols(line, symbolsPath);
    FixSymbolOfAnswer(fixSymbols, symbolsPath, hostName, targetName, start, offset, address);
    assert DropNewline(answer) == text;
    ShortenOfPlainText(text);
  }

  lemma ShortenOfPlainText(text: string)
    requires text != [] && text[|text| - 1] != ']' && text[|text| - 1] != '\n'
    ensures ShortenSourcePath(text) == text
  {
    assert DropNewline(text) == text;
    NoMatchWithoutClosingBracket(text);
  }
}
