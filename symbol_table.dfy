/**
 * The embedded symbol tables of pseudo-libraries that exist only in virtual
 * memory (gSpecialLibs), and the lookup of an address string in such a table:
 * bisect.bisect over the sorted keys, then the key just below, compared as
 * strings.
 */
module SymbolTable {
  import opened Wrappers
  import PyStr

  /** A symbol table and its keys in ascending string order (symbol_table, symbol_table_addresses). */
  datatype Table = Table(symbols: map<string, string>, keys: seq<string>)

  predicate StrictlySorted(keys: seq<string>)
  {
    forall i, j :: 0 <= i < j < |keys| ==> PyStr.LexLt(keys[i], keys[j])
  }

  /** keys is sorted(symbols.keys()) of a non-empty table. */
  predicate ValidTable(t: Table)
  {
    && t.keys != []
    && StrictlySorted(t.keys)
    && (forall i :: 0 <= i < |t.keys| ==> t.keys[i] in t.symbols)
    && (forall k :: k in t.symbols ==> k in t.keys)
  }

  const VectorsName: string := "[vectors]"

  /** The "[vectors]" page: helpers the ARM kernel maps into every process. */
  const VectorsSymbols: map<string, string> := map[
    "0xffff0f60" := "__kernel_cmpxchg64",
    "0xffff0fa0" := "__kernel_dmb",
    "0xffff0fc0" := "__kernel_cmpxchg",
    "0xffff0fe0" := "__kernel_get_tls",
    "0xffff0ffc" := "__kernel_helper_version"
  ]

  /** sorted(VectorsSymbols.keys()). */
  const VectorsKeys: seq<string> := ["0xffff0f60", "0xffff0fa0", "0xffff0fc0", "0xffff0fe0", "0xffff0ffc"]

  /** gSpecialLibs: the table of a library name, if it has one. */
  function SpecialLib(name: string): (t: Option<Table>)
    ensures t.Some? ==> ValidTable(t.value)
    ensures t.Some? <==> name == VectorsName
  {
    if name == VectorsName then
      VectorsTableValid();
      Some(Table(VectorsSymbols, VectorsKeys))
    else None
  }

  lemma VectorsTableValid()
    ensures ValidTable(Table(VectorsSymbols, VectorsKeys))
  {
    VectorsKeysSorted();
    VectorsKeysAreTableKeys();
  }

  lemma VectorsKeysAreTableKeys()
    ensures forall i :: 0 <= i < |VectorsKeys| ==> VectorsKeys[i] in VectorsSymbols
    ensures forall k :: k in VectorsSymbols ==> k in VectorsKeys
  {
  }

  lemma VectorsKeysSorted()
    ensures StrictlySorted(VectorsKeys)
  {
    var k := VectorsKeys;
    VectorsKeysAdjacent();
    forall i, j | 0 <= i < j < |k| ensures PyStr.LexLt(k[i], k[j]) {
      ChainLexLt(k, i, j);
    }
  }

  lemma VectorsKeysAdjacent()
    ensures forall n :: 0 <= n < |VectorsKeys| - 1 ==> PyStr.LexLt(VectorsKeys[n], VectorsKeys[n + 1])
  {
    VectorsPair0();
    VectorsPair1();
    VectorsPair2();
    VectorsPair3();
  }

  lemma VectorsPair0() ensures PyStr.LexLt(VectorsKeys[0], VectorsKeys[1]) {
    assert VectorsKeys[0] == "0xffff0f60";
  }

  lemma VectorsPair1() ensures PyStr.LexLt(VectorsKeys[1], VectorsKeys[2]) {
    assert VectorsKeys[1] == "0xffff0fa0";
  }

  lemma VectorsPair2() ensures PyStr.LexLt(VectorsKeys[2], VectorsKeys[3]) {
    assert VectorsKeys[2] == "0xffff0fc0";
  }

  lemma VectorsPair3() ensures PyStr.LexLt(VectorsKeys[3], VectorsKeys[4]) {
    assert VectorsKeys[3] == "0xffff0fe0";
  }

  lemma {:induction false} ChainLexLt(k: seq<string>, i: nat, j: nat)
    requires i < j < |k|
    requires forall n :: 0 <= n < |k| - 1 ==> PyStr.LexLt(k[n], k[n + 1])
    ensures PyStr.LexLt(k[i], k[j])
    decreases j - i
  {
    if i + 1 < j {
      ChainLexLt(k, i + 1, j);
      PyStr.LexLtTransitive(k[i], k[i + 1], k[j]);
    }
  }

  // ---------------------------------------------------------------------------
  // bisect.bisect over strings

  function BisectRange(keys: seq<string>, x: string, lo: nat, hi: nat): (i: nat)
    requires lo <= hi <= |keys|
    ensures lo <= i <= hi
    ensures StrictlySorted(keys)
            && (forall j :: 0 <= j < lo ==> !PyStr.LexLt(x, keys[j]))
            && (forall j :: hi <= j < |keys| ==> PyStr.LexLt(x, keys[j]))
            ==> (forall j :: 0 <= j < i ==> !PyStr.LexLt(x, keys[j]))
                && (forall j :: i <= j < |keys| ==> PyStr.LexLt(x, keys[j]))
    decreases hi - lo
  {
    if lo < hi then
      var mid := (lo + hi) / 2;
      if PyStr.LexLt(x, keys[mid]) then
        AboveFromMid(keys, x, mid);
        BisectRange(keys, x, lo, mid)
      else
        BelowUpToMid(keys, x, mid);
        BisectRange(keys, x, mid + 1, hi)
    else lo
  }

  lemma AboveFromMid(keys: seq<string>, x: string, mid: nat)
    requires mid < |keys| && PyStr.LexLt(x, keys[mid])
    ensures StrictlySorted(keys) ==> forall j :: mid <= j < |keys| ==> PyStr.LexLt(x, keys[j])
  {
    if StrictlySorted(keys) {
      forall j | mid < j < |keys| ensures PyStr.LexLt(x, keys[j]) {
        PyStr.LexLtTransitive(x, keys[mid], keys[j]);
      }
    }
  }

  lemma BelowUpToMid(keys: seq<string>, x: string, mid: nat)
    requires mid < |keys| && !PyStr.LexLt(x, keys[mid])
    ensures StrictlySorted(keys) ==> forall j :: 0 <= j <= mid ==> !PyStr.LexLt(x, keys[j])
  {
    if StrictlySorted(keys) {
      forall j | 0 <= j < mid ensures !PyStr.LexLt(x, keys[j]) {
        if PyStr.LexLt(x, keys[j]) {
          PyStr.LexLtTransitive(x, keys[j], keys[mid]);
        }
      }
    }
  }

  function Bisect(keys: seq<string>, x: string): (i: nat)
    ensures i <= |keys|
    ensures StrictlySorted(keys) ==>
              && (forall j :: 0 <= j < i ==> !PyStr.LexLt(x, keys[j]))
              && (forall j :: i <= j < |keys| ==> PyStr.LexLt(x, keys[j]))
  {
    BisectRange(keys, x, 0, |keys|)
  }

  // ---------------------------------------------------------------------------
  // The lookup

  /** Reference definition: the last position whose key is <= x, by a scan from the end. */
  function LastAtMost(keys: seq<string>, x: string): (r: Option<nat>)
    ensures r.Some? ==> r.value < |keys| && !PyStr.LexLt(x, keys[r.value])
                        && forall j :: r.value < j < |keys| ==> PyStr.LexLt(x, keys[j])
    ensures r.None? ==> forall j :: 0 <= j < |keys| ==> PyStr.LexLt(x, keys[j])
  {
    if keys == [] then None
    else if !PyStr.LexLt(x, keys[|keys| - 1]) then Some(|keys| - 1)
    else LastAtMost(keys[..|keys| - 1], x)
  }

  function InSuffix(targetName: string): string
  {
    " (in " + targetName + ")"
  }

  /**
   * LookupAddressInSymbolTable: the symbol of the greatest key not above the
   * address string, or "Unknown" below the smallest key, then " (in <name>)".
   */
  function LookupAddress(t: Table, address: string, targetName: string): (r: string)
    requires ValidTable(t)
    ensures r == (match LastAtMost(t.keys, address)
                  case Some(g) => t.symbols[t.keys[g]]
                  case None => "Unknown") + InSuffix(targetName)
  {
    var b := Bisect(t.keys, address);
    var i := if b > 0 then b - 1 else b;
    BisectFindsLastAtMost(t.keys, address);
    var sym := if !PyStr.LexLt(address, t.keys[i]) then t.symbols[t.keys[i]] else "Unknown";
    sym + InSuffix(targetName)
  }

  /** The key just below the bisection point is the last key <= x, if it is <= x at all. */
  lemma BisectFindsLastAtMost(keys: seq<string>, x: string)
    requires StrictlySorted(keys) && keys != []
    ensures var b := Bisect(keys, x);
            var i := if b > 0 then b - 1 else b;
            && i < |keys|
            && (!PyStr.LexLt(x, keys[i]) ==> LastAtMost(keys, x) == Some(i))
            && (PyStr.LexLt(x, keys[i]) ==> LastAtMost(keys, x) == None)
  {
    var b := Bisect(keys, x);
    if b > 0 {
      LastAtMostBetween(keys, x, b - 1);
    } else {
      LastAtMostBelowFirst(keys, x);
    }
  }

  /** For sorted keys the last key <= x is the greatest one. */
  lemma LastAtMostIsGreatest(keys: seq<string>, x: string, j: nat)
    requires StrictlySorted(keys) && j < |keys| && !PyStr.LexLt(x, keys[j])
    ensures LastAtMost(keys, x).Some?
    ensures var g := LastAtMost(keys, x).value; j == g || PyStr.LexLt(keys[j], keys[g])
  {
  }

  /** LookupAddressesInSymbolTable: one lookup per address, in order. */
  function LookupAddresses(t: Table, addresses: seq<string>, targetName: string): (r: seq<string>)
    requires ValidTable(t)
    ensures |r| == |addresses|
  {
    if addresses == [] then []
    else
      var last := |addresses| - 1;
      LookupAddresses(t, addresses[..last], targetName) + [LookupAddress(t, addresses[last], targetName)]
  }

  /** Entry i of the batch is the lookup of address i. */
  lemma {:induction false} LookupAddressesAt(t: Table, addresses: seq<string>, i: nat, targetName: string)
    requires ValidTable(t) && i < |addresses|
    ensures LookupAddresses(t, addresses, targetName)[i] == LookupAddress(t, addresses[i], targetName)
  {
    var last := |addresses| - 1;
    if i < last {
      LookupAddressesAt(t, addresses[..last], i, targetName);
    }
  }

  lemma LookupAddressesSnoc(t: Table, addresses: seq<string>, i: nat, targetName: string)
    requires ValidTable(t) && i < |addresses|
    ensures LookupAddresses(t, addresses[..i + 1], targetName)
            == LookupAddresses(t, addresses[..i], targetName) + [LookupAddress(t, addresses[i], targetName)]
  {
    assert addresses[..i + 1][..i] == addresses[..i];
  }

  /** On sorted keys, g is the last position <= x when x lies in [keys[g], keys[g + 1]). */
  lemma LastAtMostBetween(keys: seq<string>, x: string, g: nat)
    requires StrictlySorted(keys) && g < |keys| && !PyStr.LexLt(x, keys[g])
    requires g + 1 < |keys| ==> PyStr.LexLt(x, keys[g + 1])
    ensures LastAtMost(keys, x) == Some(g)
  {
    var r := LastAtMost(keys, x);
    if r.Some? && r.value > g + 1 {
      PyStr.LexLtTransitive(x, keys[g + 1], keys[r.value]);
    }
  }

  /** On sorted keys, nothing is <= x when x is below the first key. */
  lemma LastAtMostBelowFirst(keys: seq<string>, x: string)
    requires StrictlySorted(keys) && keys != [] && PyStr.LexLt(x, keys[0])
    ensures LastAtMost(keys, x) == None
  {
    var r := LastAtMost(keys, x);
    if r.Some? && r.value > 0 {
      PyStr.LexLtTransitive(x, keys[0], keys[r.value]);
    }
  }

  /** An address between the first two kernel helpers resolves to the first. */
  lemma VectorsExample()
    ensures ValidTable(Table(VectorsSymbols, VectorsKeys))
    ensures LookupAddress(Table(VectorsSymbols, VectorsKeys), "0xffff0f75", VectorsName)
            == "__kernel_cmpxchg64 (in [vectors])"
  {
    VectorsTableValid();
    VectorsExampleLast();
    VectorsExampleText();
  }

  lemma VectorsExampleLast()
    ensures LastAtMost(VectorsKeys, "0xffff0f75") == Some(0)
  {
    VectorsKeysSorted();
    VectorsExampleAboveFirst();
    VectorsExampleBelowSecond();
    LastAtMostBetween(VectorsKeys, "0xffff0f75", 0);
  }

  lemma VectorsExampleAboveFirst()
    ensures !PyStr.LexLt("0xffff0f75", VectorsKeys[0])
  {
    assert VectorsKeys[0] == "0xffff0f60";
  }

  lemma VectorsExampleBelowSecond()
    ensures PyStr.LexLt("0xffff0f75", VectorsKeys[1])
  {
    assert VectorsKeys[1] == "0xffff0fa0";
  }

  lemma VectorsExampleText()
    ensures VectorsSymbols[VectorsKeys[0]] + InSuffix(VectorsName) == "__kernel_cmpxchg64 (in [vectors])"
  {
  }

  /** Every address string below the smallest key resolves to "Unknown". */
  lemma VectorsBelowSmallest(x: string)
    requires PyStr.LexLt(x, VectorsKeys[0])
    ensures ValidTable(Table(VectorsSymbols, VectorsKeys))
    ensures LookupAddress(Table(VectorsSymbols, VectorsKeys), x, VectorsName) == "Unknown (in [vectors])"
  {
    VectorsTableValid();
    VectorsKeysSorted();
    LastAtMostBelowFirst(VectorsKeys, x);
    VectorsUnknownText();
  }

  lemma VectorsUnknownText()
    ensures "Unknown" + InSuffix(VectorsName) == "Unknown (in [vectors])"
  {
  }
}
