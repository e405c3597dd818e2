/**
 * The Library class of the symbolicator: one library of the profile, the
 * addresses waiting to be symbolicated in it (the symbols dictionary), the
 * host file Locate finds for it, and the batch resolution that fills the
 * dictionary in windows of 256 addresses.
 */
module Lib {
  import opened Wrappers
  import PyStr
  import Addresses
  import SymbolTable
  import Resolution

  /** One entry of the profile's "libs" list. */
  datatype LibDescriptor = LibDescriptor(start: int, end: int, offset: int, name: string, breakpadId: string)

  /** What Locate leaves in target_name, host_name and symbol_table. */
  datatype Placement = Placement(targetName: string, hostName: Option<string>, symbolTable: Option<SymbolTable.Table>)

  /** FindLibInTree on the output of find: its one line without the newline, or None when find printed nothing. */
  function FindResult(output: string): (r: Option<string>)
    ensures r.None? <==> output == []
    ensures r.Some? ==> output == r.value || output == r.value + "\n"
  {
    if output == [] then None
    else if output[|output| - 1] == '\n' then Some(output[..|output| - 1])
    else Some(output)
  }

  /** The three searches of a "/system" library: the objdir, then <product_out>/symbols, then <product_out>/system. */
  function SearchSystem(p: Resolution.SystemProbe): (r: Result<Option<string>>)
    requires p.objdirIsDir
  {
    var found := FindResult(p.objdirFind);
    if Resolution.Truthy(found) then Success(found)
    else if !p.symbolsIsDir then Failure(Fatal("<product_out>/symbols isn't a directory"))
    else
      var found := FindResult(p.symbolsFind);
      if Resolution.Truthy(found) then Success(found)
      else if !p.systemIsDir then Failure(Fatal("<product_out>/system isn't a directory"))
      else Success(FindResult(p.systemFind))
  }

  /**
   * Locate: a "/system" library is searched for on the host, a "[vectors]"
   * library gets its embedded table, an absolute path that exists on the host
   * is used as it is; sys.exit(1) becomes a Fatal error.
   */
  function LocateOutcome(env: Resolution.Env, old_: Placement, symbolsPath: Option<string>): (r: Result<Placement>)
    ensures r.Success? && r.value.symbolTable != old_.symbolTable ==>
              r.value.symbolTable == SymbolTable.SpecialLib(old_.targetName)
              && old_.targetName == SymbolTable.VectorsName && r.value.hostName == old_.hostName
    ensures r.Success? && r.value.targetName != old_.targetName ==>
              && PyStr.StartsWith(old_.targetName, "/") && env.pathExists(old_.targetName)
              && r.value.targetName == PyStr.Basename(old_.targetName)
              && r.value.hostName == Some(old_.targetName)
    ensures r.Failure? ==> PyStr.StartsWith(old_.targetName, "/system")
  {
    var target := old_.targetName;
    if PyStr.StartsWith(target, "/system") then
      var p := env.systemProbe(target);
      if !p.objdirIsDir then
        if symbolsPath.None? then Failure(Fatal("objdir-gecko isn't a directory"))
        else Success(old_.(hostName := Some(PyStr.Basename(target))))
      else
        var found :- SearchSystem(p);
        Success(if Resolution.Truthy(found) then old_.(hostName := found) else old_)
    else if SymbolTable.SpecialLib(target).Some? then
      Success(old_.(symbolTable := SymbolTable.SpecialLib(target)))
    else if PyStr.StartsWith(target, "/") then
      if env.pathExists(target) then Success(Placement(PyStr.Basename(target), Some(target), old_.symbolTable))
      else Success(old_)
    else Success(old_)
  }

  /**
   * How resolving may change a library's placement: a located library keeps
   * it; an unlocated one either stays as it was or, located now, holds what
   * Locate found.
   */
  predicate LocatedFrom(env: Resolution.Env, symbolsPath: Option<string>,
                        wasLocated: bool, before: Placement, isLocated: bool, after: Placement)
  {
    if wasLocated then isLocated && after == before
    else if isLocated then LocateOutcome(env, before, symbolsPath) == Success(after)
    else after == before
  }

  /** Only "[vectors]" gets a table, and then its host name is left alone. */
  lemma LocateTableOnlyForVectors(env: Resolution.Env, target: string, host: Option<string>, symbolsPath: Option<string>)
    ensures var r := LocateOutcome(env, Placement(target, host, None), symbolsPath);
            r.Success? && r.value.symbolTable.Some? <==> target == SymbolTable.VectorsName
  {
    if target == SymbolTable.VectorsName {
      assert target[0] != "/system"[0];
    }
  }

  /** The keys of a dictionary in the arbitrary order CPython 2 iterates them. */
  method KeysOf<V>(m: map<string, V>) returns (keys: seq<string>)
    ensures forall k :: k in m <==> k in keys
    ensures forall a, b :: 0 <= a < b < |keys| ==> keys[a] != keys[b]
  {
    keys := [];
    var rest := m.Keys;
    while rest != {}
      invariant forall k :: k in m <==> k in rest || k in keys
      invariant forall k :: k in rest ==> k !in keys
      invariant forall a, b :: 0 <= a < b < |keys| ==> keys[a] != keys[b]
      decreases |rest|
    {
      var k :| k in rest;
      keys := keys + [k];
      rest := rest - {k};
    }
  }

  /** The window of 256 keys that position n of the key list is resolved in. */
  function Window(keys: seq<string>, n: nat): (w: seq<string>)
    requires n < |keys|
    ensures 0 < |w| <= 256 && n % 256 < |w| && n / 256 * 256 + |w| <= |keys|
    ensures w == keys[n / 256 * 256..n / 256 * 256 + |w|]
  {
    var lo := n / 256 * 256;
    keys[lo..if lo + 256 < |keys| then lo + 256 else |keys|]
  }

  class Library {
    const start: int
    const end: int
    const offset: int
    const id: string
    const symbolsPath: Option<string>
    var targetName: string
    var hostName: Option<string>
    var located: bool
    var symbolTable: Option<SymbolTable.Table>
    /** Address keys "0x%08x" and their symbols; None until resolved. */
    var symbols: map<string, Option<string>>

    predicate Valid()
      reads this`symbolTable
    {
      symbolTable.Some? ==> SymbolTable.ValidTable(symbolTable.value)
    }

    function View(): (v: Resolution.LibView)
      reads this`targetName, this`hostName, this`symbolTable
      ensures Valid() ==> Resolution.ValidView(v)
    {
      Resolution.LibView(start, offset, targetName, hostName, symbolTable, symbolsPath)
    }

    function Placed(): Placement
      reads this`targetName, this`hostName, this`symbolTable
    {
      Placement(targetName, hostName, symbolTable)
    }

    constructor (d: LibDescriptor, symbolsPath: Option<string>)
      ensures Valid()
      ensures start == d.start && end == d.end && offset == d.offset && id == d.breakpadId
      ensures targetName == d.name && this.symbolsPath == symbolsPath
      ensures hostName.None? && !located && symbolTable.None? && symbols == map[]
    {
      start, end, offset, id := d.start, d.end, d.offset, d.breakpadId;
      this.symbolsPath := symbolsPath;
      targetName := d.name;
      hostName := None;
      located := false;
      symbolTable := None;
      symbols := map[];
    }

    /** The half-open range [start, end). */
    predicate ContainsAddress(address: int)
    {
      start <= address < end
    }

    /** Records an address as pending; adding it again resets its symbol to None. */
    method AddUnresolvedAddress(address: nat)
      modifies this`symbols
      ensures symbols == old(symbols)[Addresses.KeyFor(address) := None]
    {
      symbols := symbols[Addresses.KeyFor(address) := None];
    }

    method Locate(env: Resolution.Env) returns (r: Result<()>)
      requires Valid()
      modifies this`targetName, this`hostName, this`symbolTable, this`located
      ensures Valid()
      ensures var outcome := LocateOutcome(env, old(Placed()), symbolsPath);
              && r.Success? == outcome.Success?
              && (outcome.Success? ==> located && Placed() == outcome.value)
              && (outcome.Failure? ==> r == Failure(outcome.error) && Placed() == old(Placed()) && located == old(located))
    {
      var outcome := LocateOutcome(env, Placed(), symbolsPath);
      if outcome.Failure? {
        return Failure(outcome.error);
      }
      targetName, hostName, symbolTable := outcome.value.targetName, outcome.value.hostName, outcome.value.symbolTable;
      located := true;
      r := Success(());
    }

    /** LookupAddressesInSymbolTable: one table lookup per address. */
    method LookupAddressesInSymbolTable(addresses: seq<string>) returns (syms: seq<string>)
      requires symbolTable.Some? && SymbolTable.ValidTable(symbolTable.value)
      ensures syms == SymbolTable.LookupAddresses(symbolTable.value, addresses, targetName)
    {
      syms := [];
      var i := 0;
      while i < |addresses|
        invariant 0 <= i <= |addresses|
        invariant syms == SymbolTable.LookupAddresses(symbolTable.value, addresses[..i], targetName)
      {
        SymbolTable.LookupAddressesSnoc(symbolTable.value, addresses, i, targetName);
        syms := syms + [SymbolTable.LookupAddress(symbolTable.value, addresses[i], targetName)];
        i := i + 1;
      }
      assert addresses[..i] == addresses;
    }

    /**
     * The addr2line path: one "0x%08x" offset per address on both command
     * lines, nm-symbolicate when addr2line's output is useless, then every
     * other output line.
     */
    method LookupAddressesWithTools(addresses: seq<string>, env: Resolution.Env) returns (r: Result<seq<string>>)
      requires Valid() && symbolTable.None? && Resolution.Truthy(hostName) && !Resolution.Truthy(symbolsPath)
      ensures r == Resolution.Resolve(env, View(), addresses)
    {
      var host := hostName.value;
      var prefix := if env.toolsPrefix.None? then "arm-eabi-" else env.toolsPrefix.value;
      var v := View();
      var suffix := SymbolTable.InSuffix(targetName);
      var keys := OffsetKeysOf(v, addresses);
      if keys.Failure? {
        return Failure(keys.error);
      }
      var args := [prefix + "addr2line", "-C", "-f", "-e", host] + keys.value;
      var nmArgs := ["gecko/tools/profiler/nm-symbolicate.py", host] + keys.value;
      assert args == Resolution.Addr2lineArgs(env.toolsPrefix, host) + keys.value;
      assert nmArgs == Resolution.NmArgs(host) + keys.value;
      ghost var tool := Resolution.ToolLines(env, host, keys.value);
      assert Resolution.Resolve(env, v, addresses) == (var lines :- tool; Resolution.EveryOtherLine(lines, |addresses|, suffix));
      var out := env.addr2line(args);
      if out.None? {
        return Failure(ToolFailed(args[0]));
      }
      var lines := PyStr.Split(out.value, '\n');
      var hasGoodLine := HasGoodLine(lines);
      if !hasGoodLine {
        var nmOut := env.nm(nmArgs);
        if nmOut.None? {
          return Failure(ToolFailed(nmArgs[0]));
        }
        lines := PyStr.Split(nmOut.value, '\n');
      }
      assert tool == Success(lines);
      r := EveryOtherLine(lines, |addresses|, suffix);
    }

    /** AddressesToSymbols: locates the library on first use, then resolves the whole batch. */
    method AddressesToSymbols(addresses: seq<string>, env: Resolution.Env) returns (r: Result<seq<string>>)
      requires Valid()
      modifies this`targetName, this`hostName, this`symbolTable, this`located
      ensures Valid() && symbols == old(symbols)
      ensures LocatedFrom(env, symbolsPath, old(located), old(Placed()), located, Placed())
      ensures old(located) ==> Placed() == old(Placed()) && located
      ensures !old(located) ==>
                var outcome := LocateOutcome(env, old(Placed()), symbolsPath);
                && (outcome.Failure? ==> r == Failure(outcome.error))
                && (outcome.Success? ==> located && Placed() == outcome.value)
      ensures located ==> r == Resolution.Resolve(env, View(), addresses)
    {
      if !located {
        var l := Locate(env);
        if l.Failure? {
          return Failure(l.error);
        }
      }
      if symbolTable.Some? {
        var syms := LookupAddressesInSymbolTable(addresses);
        return Success(syms);
      }
      if !Resolution.Truthy(hostName) {
        var unknown := "Unknown (in " + targetName + ")";
        assert unknown == Resolution.UnknownSymbol(targetName);
        return Success(seq(|addresses|, _ => unknown));
      }
      if Resolution.Truthy(symbolsPath) {
        return Resolution.FixSymbols(env, View(), addresses);
      }
      r := LookupAddressesWithTools(addresses, env);
    }

    /** AddressToSymbol: the batch of one. */
    method AddressToSymbol(address: string, env: Resolution.Env) returns (r: Result<string>)
      requires Valid()
      modifies this`targetName, this`hostName, this`symbolTable, this`located
      ensures Valid() && symbols == old(symbols)
      ensures LocatedFrom(env, symbolsPath, old(located), old(Placed()), located, Placed())
      ensures located ==> var batch := Resolution.Resolve(env, View(), [address]);
                          r == if batch.Success? then Success(batch.value[0]) else Failure(batch.error)
    {
      var syms := AddressesToSymbols([address], env);
      if syms.Failure? {
        return Failure(syms.error);
      }
      r := Success(syms.value[0]);
    }

    /** One window of ResolveSymbols: keys[i..i+256] resolved as a batch and written back. */
    method ResolveWindow(env: Resolution.Env, keys: seq<string>, i: nat) returns (r: Result<()>)
      requires Valid() && i % 256 == 0 && i < |keys|
      requires forall a, b :: 0 <= a < b < |keys| ==> keys[a] != keys[b]
      requires forall n :: 0 <= n < |keys| ==> keys[n] in symbols
      requires i > 0 ==> located
      requires forall n :: 0 <= n < |keys| && n < i ==> Written(env, View(), keys, symbols, n)
      modifies this
      ensures Valid() && symbols.Keys == old(symbols).Keys
      ensures LocatedFrom(env, symbolsPath, old(located), old(Placed()), located, Placed())
      ensures r.Success? ==> located
      ensures r.Success? ==> forall n :: 0 <= n < |keys| && n < i + 256 ==> Written(env, View(), keys, symbols, n)
      ensures r.Failure? ==> forall n :: 0 <= n < |keys| && n < i ==> Written(env, View(), keys, symbols, n)
    {
      var hi := if i + 256 < |keys| then i + 256 else |keys|;
      var slice := keys[i..hi];
      ghost var before, v0 := symbols, View();
      var syms := AddressesToSymbols(slice, env);
      if syms.Failure? {
        return Failure(syms.error);
      }
      ghost var v := View();
      assert i > 0 ==> v == v0;
      WriteBack(keys, i, syms.value);
      assert View() == v;
      WindowWritten(env, v, keys, symbols, i, syms.value);
      forall n | 0 <= n < i
        ensures Written(env, v, keys, symbols, n)
      {
        WrittenFrame(env, v, keys, before, symbols, n);
      }
      r := Success(());
    }

    /** syms[j] is written to keys[i + j], by position; nothing else changes. */
    method WriteBack(keys: seq<string>, i: nat, syms: seq<string>)
      requires i + |syms| <= |keys|
      requires forall a, b :: 0 <= a < b < |keys| ==> keys[a] != keys[b]
      requires forall n :: 0 <= n < |keys| ==> keys[n] in symbols
      modifies this`symbols
      ensures symbols.Keys == old(symbols).Keys
      ensures forall n :: 0 <= n < |keys| && (n < i || i + |syms| <= n) ==> symbols[keys[n]] == old(symbols)[keys[n]]
      ensures forall n :: i <= n < i + |syms| ==> symbols[keys[n]] == Some(syms[n - i])
    {
      var j := 0;
      while j < |syms|
        invariant 0 <= j <= |syms|
        invariant symbols.Keys == old(symbols).Keys
        invariant forall n :: 0 <= n < |keys| && (n < i || i + j <= n) ==> symbols[keys[n]] == old(symbols)[keys[n]]
        invariant forall n :: i <= n < i + j ==> symbols[keys[n]] == Some(syms[n - i])
      {
        symbols := symbols[keys[i + j] := Some(syms[j])];
        j := j + 1;
      }
    }

    /**
     * ResolveSymbols: the pending keys, in dictionary order, in windows of 256;
     * each window's symbols are written back to its keys by position. When a
     * window fails, the done keys of the windows before it are already written.
     */
    method ResolveSymbols(env: Resolution.Env) returns (r: Result<()>, ghost order: seq<string>, ghost done: nat)
      requires Valid()
      modifies this
      ensures Valid()
      ensures LocatedFrom(env, symbolsPath, old(located), old(Placed()), located, Placed())
      ensures symbols.Keys == old(symbols).Keys
      ensures r.Success? ==> forall k :: k in symbols ==> symbols[k].Some?
      ensures r.Success? ==>
                && (forall k :: k in old(symbols) <==> k in order)
                && (forall a, b :: 0 <= a < b < |order| ==> order[a] != order[b])
                && forall n :: 0 <= n < |order| ==> Written(env, View(), order, symbols, n)
      ensures r.Failure? ==>
                && (forall k :: k in old(symbols) <==> k in order)
                && done % 256 == 0 && done < |order|
                && forall n :: 0 <= n < done ==> Written(env, View(), order, symbols, n)
    {
      order, done := [], 0;
      if |symbols| == 0 {
        return Success(()), order, done;
      }
      var keys := KeysOf(symbols);
      order := keys;
      var i := 0;
      while i < |keys|
        invariant i % 256 == 0
        invariant Valid()
        invariant symbols.Keys == old(symbols).Keys
        invariant LocatedFrom(env, symbolsPath, old(located), old(Placed()), located, Placed())
        invariant i > 0 ==> located
        invariant forall n :: 0 <= n < |keys| && n < i ==> Written(env, View(), keys, symbols, n)
      {
        r := ResolveWindow(env, keys, i);
        if r.Failure? {
          return r, order, i;
        }
        NextWindow(i);
        i := i + 256;
      }
      forall k | k in symbols
        ensures symbols[k].Some?
      {
        var n :| 0 <= n < |keys| && keys[n] == k;
        assert Written(env, View(), keys, symbols, n);
      }
      r := Success(());
    }
  }

  /** Written at position n depends on nothing but the symbol of keys[n]. */
  lemma WrittenFrame(env: Resolution.Env, v: Resolution.LibView, keys: seq<string>,
                     s1: map<string, Option<string>>, s2: map<string, Option<string>>, n: nat)
    requires Resolution.ValidView(v) && n < |keys| && Written(env, v, keys, s1, n)
    requires keys[n] in s2 && s2[keys[n]] == s1[keys[n]]
    ensures Written(env, v, keys, s2, n)
  {
  }

  lemma NextWindow(i: nat)
    requires i % 256 == 0
    ensures (i + 256) % 256 == 0
  {
  }

  /** Positions i up to the end of the window starting at i hold that window's symbols. */
  lemma WindowWritten(env: Resolution.Env, v: Resolution.LibView, keys: seq<string>,
                      symbols: map<string, Option<string>>, i: nat, syms: seq<string>)
    requires Resolution.ValidView(v) && i % 256 == 0 && i < |keys|
    requires Resolution.Resolve(env, v, keys[i..if i + 256 < |keys| then i + 256 else |keys|]) == Success(syms)
    requires forall n :: i <= n < i + |syms| ==> keys[n] in symbols && symbols[keys[n]] == Some(syms[n - i])
    ensures forall n :: i <= n < |keys| && n < i + 256 ==> Written(env, v, keys, symbols, n)
  {
    forall n | i <= n < |keys| && n < i + 256
      ensures Written(env, v, keys, symbols, n)
    {
      SameWindow(i, n);
      WrittenAt(env, v, keys, symbols, i, syms, n);
    }
  }

  lemma WrittenAt(env: Resolution.Env, v: Resolution.LibView, keys: seq<string>,
                  symbols: map<string, Option<string>>, i: nat, syms: seq<string>, n: nat)
    requires Resolution.ValidView(v) && i <= n < |keys| && n < i + 256
    requires Window(keys, n) == keys[i..if i + 256 < |keys| then i + 256 else |keys|]
    requires n % 256 == n - i
    requires Resolution.Resolve(env, v, Window(keys, n)) == Success(syms)
    requires keys[n] in symbols && symbols[keys[n]] == Some(syms[n - i])
    ensures Written(env, v, keys, symbols, n)
  {
  }

  lemma SameWindow(i: nat, n: nat)
    requires i % 256 == 0 && i <= n < i + 256
    ensures n / 256 * 256 == i && n % 256 == n - i
  {
  }

  /** Position n of the key list holds the symbol its window of 256 resolved it to. */
  ghost predicate Written(env: Resolution.Env, v: Resolution.LibView, keys: seq<string>,
                          symbols: map<string, Option<string>>, n: nat)
    requires Resolution.ValidView(v) && n < |keys|
  {
    var batch := Resolution.Resolve(env, v, Window(keys, n));
    keys[n] in symbols && batch.Success? && symbols[keys[n]] == Some(batch.value[n % 256])
  }

  /** The has_good_line loop. */
  method HasGoodLine(lines: seq<string>) returns (hasGoodLine: bool)
    ensures hasGoodLine == Resolution.HasGoodLine(lines)
  {
    hasGoodLine := false;
    var j := 0;
    while j < |lines|
      invariant 0 <= j <= |lines|
      invariant hasGoodLine <==> exists k :: 0 <= k < j && !Resolution.Useless(lines[k])
    {
      if lines[j] != "??" && lines[j] != "??:0" && lines[j] != "" {
        hasGoodLine := true;
      }
      j := j + 1;
    }
  }

  /** The loop that keeps line 2i of the tool output for address i. */
  method EveryOtherLine(lines: seq<string>, n: nat, suffix: string) returns (r: Result<seq<string>>)
    ensures r == Resolution.EveryOtherLine(lines, n, suffix)
  {
    var syms := [];
    var k := 0;
    while k < n
      invariant 0 <= k <= n && |syms| == k
      invariant forall m :: 0 <= m < k ==> 2 * m < |lines| && syms[m] == lines[2 * m] + suffix
    {
      if 2 * k >= |lines| {
        return Failure(IndexError);
      }
      syms := syms + [lines[2 * k] + suffix];
      k := k + 1;
    }
    assert syms == seq(n, i requires 0 <= i < n => lines[2 * i] + suffix);
    r := Success(syms);
  }

  /**
   * The loop of LookupAddressesWithTools that turns every address into the
   * "0x%08x" key of its normalised offset, stopping at the first address
   * int(address, 0) rejects.
   */
  method OffsetKeysOf(v: Resolution.LibView, addresses: seq<string>) returns (r: Result<seq<string>>)
    ensures var parsed := Resolution.ParseAll(addresses);
            match FirstFailure(parsed)
            case Some(i) => r == Failure(parsed[i].error)
            case None => r == Success(Resolution.OffsetKeys(v, parsed))
  {
    var keys := [];
    ghost var parsed := Resolution.ParseAll(addresses);
    var i := 0;
    while i < |addresses|
      invariant 0 <= i <= |addresses|
      invariant AllSucceed(parsed[..i])
      invariant keys == Resolution.OffsetKeys(v, parsed[..i])
    {
      var address := Addresses.ParseAddress(addresses[i]);
      Resolution.ParseAllAt(addresses, i);
      if address.Failure? {
        FirstFailureAt(parsed, i);
        return Failure(address.error);
      }
      // max(0, ((address - start + offset) & ~1) - 1)
      var adjAddress := Addresses.AdjustedOffset(address.value, v.start, v.offset);
      Resolution.OffsetKeysStep(v, parsed, i);
      keys := keys + [Addresses.KeyFor(adjAddress)];
      i := i + 1;
    }
    assert parsed[..i] == parsed;
    r := Success(keys);
  }

  /** The first failure of a sequence whose prefix succeeded is where the prefix ends. */
  lemma {:induction false} FirstFailureAt<T>(rs: seq<Result<T>>, i: nat)
    requires i < |rs| && AllSucceed(rs[..i]) && rs[i].Failure?
    ensures FirstFailure(rs) == Some(i)
  {
    if i > 0 {
      assert rs[1..][..i - 1] == rs[1..i];
      assert AllSucceed(rs[1..][..i - 1]);
      FirstFailureAt(rs[1..], i - 1);
      assert rs[0] == rs[..i][0];
    }
  }
}
