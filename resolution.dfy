/**
 * What Library.AddressesToSymbols computes for a batch of address strings,
 * as functions of the library's fields and of the outside world: the
 * embedded table first, then "Unknown" when no host file was found, then
 * Breakpad when a symbols path is set, else addr2line with nm as fallback.
 */
module Resolution {
  import opened Wrappers
  import PyStr
  import Addresses
  import SymbolTable
  import Breakpad

  /** The filesystem as Locate probes it for a "/system" library. */
  datatype SystemProbe = SystemProbe(
    objdirIsDir: bool,    // os.path.isdir(gecko_objdir)
    objdirFind: string,   // output of find in the objdir, dist excluded
    symbolsIsDir: bool,   // os.path.isdir(<product_out>/symbols)
    symbolsFind: string,  // output of find there
    systemIsDir: bool,    // os.path.isdir(<product_out>/system)
    systemFind: string)   // output of find there

  /** The outside world of the symbolicator: environment, filesystem and external programs. */
  datatype Env = Env(
    toolsPrefix: Option<string>,              // get_tools_prefix()
    addr2line: seq<string> -> Option<string>, // check_output(args); None when the program fails
    nm: seq<string> -> Option<string>,        // nm-symbolicate.py, likewise
    fixSymbols: (string, string) -> string,   // fix_stack_using_bpsyms.fixSymbols(line, symbols_path)
    systemProbe: string -> SystemProbe,       // what Locate finds for a target name under /system
    pathExists: string -> bool)               // os.path.exists

  /** The fields of a Library that AddressesToSymbols reads. */
  datatype LibView = LibView(
    start: int, offset: int, targetName: string, hostName: Option<string>,
    symbolTable: Option<SymbolTable.Table>, symbolsPath: Option<string>)

  predicate ValidView(v: LibView)
  {
    v.symbolTable.Some? ==> SymbolTable.ValidTable(v.symbolTable.value)
  }

  /** Python truthiness of an optional string: present and not empty. */
  predicate Truthy(s: Option<string>)
  {
    s.Some? && s.value != ""
  }

  // ---------------------------------------------------------------------------
  // The addr2line path

  function Addr2lineArgs(prefix: Option<string>, hostName: string): seq<string>
  {
    [(if prefix.Some? then prefix.value else "arm-eabi-") + "addr2line", "-C", "-f", "-e", hostName]
  }

  function NmArgs(hostName: string): seq<string>
  {
    ["gecko/tools/profiler/nm-symbolicate.py", hostName]
  }

  /** int(address, 0) of every address, in order. */
  function ParseAll(addresses: seq<string>): (r: seq<Result<int>>)
    ensures |r| == |addresses|
  {
    if addresses == [] then []
    else
      var last := |addresses| - 1;
      ParseAll(addresses[..last]) + [Addresses.ParseAddress(addresses[last])]
  }

  lemma {:induction false} ParseAllAt(addresses: seq<string>, i: nat)
    requires i < |addresses|
    ensures ParseAll(addresses)[i] == Addresses.ParseAddress(addresses[i])
  {
    var last := |addresses| - 1;
    if i < last {
      ParseAllAt(addresses[..last], i);
    }
  }

  lemma ParseAllSnoc(addresses: seq<string>, i: nat)
    requires i < |addresses|
    ensures ParseAll(addresses[..i + 1]) == ParseAll(addresses[..i]) + [Addresses.ParseAddress(addresses[i])]
  {
    assert addresses[..i + 1][..i] == addresses[..i];
  }

  /** The keys appended to both command lines: "0x%08x" % max(0, (lib_address & ~1) - 1) per address. */
  function OffsetKeys(v: LibView, parsed: seq<Result<int>>): (keys: seq<string>)
    requires AllSucceed(parsed)
    ensures |keys| == |parsed|
  {
    if parsed == [] then []
    else
      var last := |parsed| - 1;
      assert AllSucceed(parsed[..last]);
      OffsetKeys(v, parsed[..last]) + [Addresses.KeyFor(Addresses.AdjustedOffset(parsed[last].value, v.start, v.offset))]
  }

  lemma {:induction false} OffsetKeysAt(v: LibView, parsed: seq<Result<int>>, i: nat)
    requires AllSucceed(parsed) && i < |parsed|
    ensures OffsetKeys(v, parsed)[i] == Addresses.KeyFor(Addresses.AdjustedOffset(parsed[i].value, v.start, v.offset))
  {
    var last := |parsed| - 1;
    if i < last {
      assert AllSucceed(parsed[..last]);
      OffsetKeysAt(v, parsed[..last], i);
    }
  }

  /** One more parsed address adds its key at the end. */
  lemma OffsetKeysStep(v: LibView, parsed: seq<Result<int>>, i: nat)
    requires i < |parsed| && AllSucceed(parsed[..i]) && parsed[i].Success?
    ensures AllSucceed(parsed[..i + 1])
    ensures OffsetKeys(v, parsed[..i + 1])
            == OffsetKeys(v, parsed[..i]) + [Addresses.KeyFor(Addresses.AdjustedOffset(parsed[i].value, v.start, v.offset))]
  {
    assert parsed[..i + 1][..i] == parsed[..i];
  }

  predicate Useless(line: string)
  {
    line == "??" || line == "??:0" || line == ""
  }

  /** has_good_line: some output line is neither "??", "??:0" nor empty. */
  predicate HasGoodLine(lines: seq<string>)
  {
    exists i :: 0 <= i < |lines| && !Useless(lines[i])
  }

  /** check_output(args).split("\n"); a program that fails is an error. */
  function RunTool(tool: seq<string> -> Option<string>, args: seq<string>): (r: Result<seq<string>>)
    requires args != []
    ensures r.Success? <==> tool(args).Some?
    ensures r.Success? ==> r.value == PyStr.Split(tool(args).value, '\n')
  {
    match tool(args)
    case Some(out) => Success(PyStr.Split(out, '\n'))
    case None => Failure(ToolFailed(args[0]))
  }

  /** addr2line's lines, or nm-symbolicate's when addr2line had nothing useful to say. */
  function ToolLines(env: Env, hostName: string, keys: seq<string>): Result<seq<string>>
  {
    var lines :- RunTool(env.addr2line, Addr2lineArgs(env.toolsPrefix, hostName) + keys);
    if HasGoodLine(lines) then Success(lines)
    else RunTool(env.nm, NmArgs(hostName) + keys)
  }

  /** syms[i] = syms_and_lines[i*2] + " (in <target>)" for every address, or an IndexError. */
  function EveryOtherLine(lines: seq<string>, n: nat, suffix: string): (r: Result<seq<string>>)
    ensures r.Success? <==> n == 0 || 2 * (n - 1) < |lines|
    ensures r.Success? ==> |r.value| == n && forall i :: 0 <= i < n ==> r.value[i] == lines[2 * i] + suffix
  {
    if n == 0 || 2 * (n - 1) < |lines| then Success(seq(n, i requires 0 <= i < n => lines[2 * i] + suffix))
    else Failure(IndexError)
  }

  // ---------------------------------------------------------------------------
  // The Breakpad path

  /** map(fixSymbol, addresses): every address in order, the first failure stopping the map. */
  function FixSymbols(env: Env, v: LibView, addresses: seq<string>): (r: Result<seq<string>>)
    requires Truthy(v.symbolsPath) && Truthy(v.hostName)
    ensures r.Success? ==> |r.value| == |addresses|
    decreases |addresses|
  {
    if addresses == [] then Success([])
    else
      var first :- Breakpad.FixSymbol(env.fixSymbols, v.symbolsPath.value, v.hostName.value,
                                      v.targetName, v.start, v.offset, addresses[0]);
      var rest :- FixSymbols(env, v, addresses[1..]);
      Success([first] + rest)
  }

  /** A successful map has fixSymbol(address) at every position. */
  lemma {:induction false} FixSymbolsAt(env: Env, v: LibView, addresses: seq<string>, i: nat)
    requires Truthy(v.symbolsPath) && Truthy(v.hostName) && i < |addresses|
    requires FixSymbols(env, v, addresses).Success?
    ensures Success(FixSymbols(env, v, addresses).value[i])
            == Breakpad.FixSymbol(env.fixSymbols, v.symbolsPath.value, v.hostName.value,
                                  v.targetName, v.start, v.offset, addresses[i])
  {
    if i > 0 {
      assert addresses[1..][i - 1] == addresses[i];
      FixSymbolsAt(env, v, addresses[1..], i - 1);
    }
  }

  /** The map fails exactly when some address's fixSymbol fails. */
  lemma {:induction false} FixSymbolsFails(env: Env, v: LibView, addresses: seq<string>, i: nat)
    requires Truthy(v.symbolsPath) && Truthy(v.hostName) && i < |addresses|
    requires Breakpad.FixSymbol(env.fixSymbols, v.symbolsPath.value, v.hostName.value,
                                v.targetName, v.start, v.offset, addresses[i]).Failure?
    ensures FixSymbols(env, v, addresses).Failure?
  {
    if i > 0 {
      assert addresses[1..][i - 1] == addresses[i];
      FixSymbolsFails(env, v, addresses[1..], i - 1);
    }
  }

  // ---------------------------------------------------------------------------
  // AddressesToSymbols once the library is located

  function UnknownSymbol(targetName: string): string
  {
    "Unknown" + SymbolTable.InSuffix(targetName)
  }

  /** The result of AddressesToSymbols(addresses) on a located library. */
  function Resolve(env: Env, v: LibView, addresses: seq<string>): (r: Result<seq<string>>)
    requires ValidView(v)
    ensures r.Success? ==> |r.value| == |addresses|
  {
    if v.symbolTable.Some? then
      Success(SymbolTable.LookupAddresses(v.symbolTable.value, addresses, v.targetName))
    else if !Truthy(v.hostName) then
      Success(seq(|addresses|, _ => UnknownSymbol(v.targetName)))
    else if Truthy(v.symbolsPath) then
      FixSymbols(env, v, addresses)
    else
      var parsed := ParseAll(addresses);
      match FirstFailure(parsed)
      case Some(i) => Failure(parsed[i].error)
      case None =>
      var lines :- ToolLines(env, v.hostName.value, OffsetKeys(v, parsed));
      EveryOtherLine(lines, |addresses|, SymbolTable.InSuffix(v.targetName))
  }

  /** The whole batch is answered by the embedded table, address by address. */
  lemma ResolveByTable(env: Env, v: LibView, addresses: seq<string>)
    requires ValidView(v) && v.symbolTable.Some?
    ensures Resolve(env, v, addresses).Success?
    ensures forall i :: 0 <= i < |addresses| ==>
              Resolve(env, v, addresses).value[i]
              == SymbolTable.LookupAddress(v.symbolTable.value, addresses[i], v.targetName)
  {
    forall i | 0 <= i < |addresses|
      ensures Resolve(env, v, addresses).value[i]
              == SymbolTable.LookupAddress(v.symbolTable.value, addresses[i], v.targetName)
    {
      SymbolTable.LookupAddressesAt(v.symbolTable.value, addresses, i, v.targetName);
    }
  }

  /** Without a host file every address is "Unknown (in <target>)". */
  lemma ResolveWithoutHost(env: Env, v: LibView, addresses: seq<string>)
    requires ValidView(v) && v.symbolTable.None? && !Truthy(v.hostName)
    ensures Resolve(env, v, addresses) == Success(seq(|addresses|, _ => UnknownSymbol(v.targetName)))
    ensures forall i :: 0 <= i < |addresses| ==>
              Resolve(env, v, addresses).value[i] == "Unknown (in " + v.targetName + ")"
  {
  }

  /**
   * On the addr2line path, entry i is line 2i of the output, and nm is asked
   * only when every addr2line line is "??", "??:0" or empty.
   */
  lemma ResolveByTools(env: Env, v: LibView, addresses: seq<string>)
    requires ValidView(v) && v.symbolTable.None? && Truthy(v.hostName) && !Truthy(v.symbolsPath)
    requires AllSucceed(ParseAll(addresses))
    requires env.addr2line(Addr2lineArgs(env.toolsPrefix, v.hostName.value) + OffsetKeys(v, ParseAll(addresses))).Some?
    ensures var keys := OffsetKeys(v, ParseAll(addresses));
            var first := PyStr.Split(env.addr2line(Addr2lineArgs(env.toolsPrefix, v.hostName.value) + keys).value, '\n');
            && (HasGoodLine(first) ==>
                  Resolve(env, v, addresses) == EveryOtherLine(first, |addresses|, SymbolTable.InSuffix(v.targetName)))
            && (!HasGoodLine(first) ==>
                  Resolve(env, v, addresses)
                  == (var fallback :- RunTool(env.nm, NmArgs(v.hostName.value) + keys);
                      EveryOtherLine(fallback, |addresses|, SymbolTable.InSuffix(v.targetName))))
  {
  }

  /** Every symbol the addr2line path produces names the library it was found in. */
  lemma ToolSymbolsAreSuffixed(env: Env, v: LibView, addresses: seq<string>)
    requires ValidView(v) && v.symbolTable.None? && Truthy(v.hostName) && !Truthy(v.symbolsPath)
    requires Resolve(env, v, addresses).Success?
    ensures forall i :: 0 <= i < |addresses| ==>
              PyStr.EndsWith(Resolve(env, v, addresses).value[i], SymbolTable.InSuffix(v.targetName))
  {
    var keys := OffsetKeys(v, ParseAll(addresses));
    var lines := ToolLines(env, v.hostName.value, keys).value;
    var r := Resolve(env, v, addresses).value;
    forall i | 0 <= i < |addresses|
      ensures PyStr.EndsWith(r[i], SymbolTable.InSuffix(v.targetName))
    {
      var suffix := SymbolTable.InSuffix(v.targetName);
      assert r[i] == lines[2 * i] + suffix;
      assert r[i][|r[i]| - |suffix|..] == suffix;
    }
  }
}
