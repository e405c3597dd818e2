/**
 * The Libraries class of the symbolicator: the profile's libraries sorted by
 * start address, the binary search that finds the library of an address,
 * the one-entry cache in front of it, the scan that records every unresolved
 * address with its library, symbol resolution (locally, library by library,
 * or in one request to a symbol server) and the union of all symbol tables.
 */
module Registry {
  import opened Wrappers
  import PyStr
  import Addresses
  import Lib
  import Resolution
  import ProfileScan
  import Remote

  // ---------------------------------------------------------------------------
  // sorted(lib_dicts, key=lambda lib: lib["start"])

  /** d is placed before the first element that does not start lower. */
  function Insert(d: Lib.LibDescriptor, sorted: seq<Lib.LibDescriptor>): seq<Lib.LibDescriptor>
  {
    if sorted == [] || d.start <= sorted[0].start then [d] + sorted
    else [sorted[0]] + Insert(d, sorted[1..])
  }

  /** Python's sort by start: stable, so libraries with equal starts keep their order. */
  function SortByStart(ds: seq<Lib.LibDescriptor>): seq<Lib.LibDescriptor>
  {
    if ds == [] then [] else Insert(ds[0], SortByStart(ds[1..]))
  }

  predicate SortedByStart(ds: seq<Lib.LibDescriptor>)
  {
    forall i, j :: 0 <= i < j < |ds| ==> ds[i].start <= ds[j].start
  }

  /** The descriptors that start at v, in order. */
  function StartingAt(ds: seq<Lib.LibDescriptor>, v: int): seq<Lib.LibDescriptor>
  {
    if ds == [] then [] else (if ds[0].start == v then [ds[0]] else []) + StartingAt(ds[1..], v)
  }

  /** Inserting keeps every start at or above a bound that d and all of s respect. */
  lemma {:induction false} InsertAbove(d: Lib.LibDescriptor, s: seq<Lib.LibDescriptor>, lo: int)
    requires lo <= d.start && forall k :: 0 <= k < |s| ==> lo <= s[k].start
    ensures forall k :: 0 <= k < |Insert(d, s)| ==> lo <= Insert(d, s)[k].start
  {
    if s != [] && d.start > s[0].start {
      InsertAbove(d, s[1..], lo);
    }
  }

  /** Inserting into a sorted sequence keeps it sorted. */
  lemma {:induction false} InsertSorted(d: Lib.LibDescriptor, s: seq<Lib.LibDescriptor>)
    requires SortedByStart(s)
    ensures SortedByStart(Insert(d, s))
  {
    if s != [] && d.start > s[0].start {
      var t := Insert(d, s[1..]);
      InsertSorted(d, s[1..]);
      InsertAbove(d, s[1..], s[0].start);
      assert Insert(d, s) == [s[0]] + t;
      forall i, j | 0 <= i < j < |Insert(d, s)| ensures Insert(d, s)[i].start <= Insert(d, s)[j].start {
        if i > 0 {
          assert Insert(d, s)[i] == t[i - 1] && Insert(d, s)[j] == t[j - 1];
        } else {
          assert Insert(d, s)[j] == t[j - 1];
        }
      }
    }
  }

  /** Inserting adds d once and keeps everything else. */
  lemma {:induction false} InsertCounts(d: Lib.LibDescriptor, s: seq<Lib.LibDescriptor>)
    ensures multiset(Insert(d, s)) == multiset(s) + multiset{d}
  {
    if s != [] && d.start > s[0].start {
      InsertCounts(d, s[1..]);
      assert s == [s[0]] + s[1..];
    }
  }

  lemma {:induction false} InsertStable(d: Lib.LibDescriptor, s: seq<Lib.LibDescriptor>, v: int)
    ensures StartingAt(Insert(d, s), v) == (if d.start == v then [d] else []) + StartingAt(s, v)
  {
    if s != [] && d.start > s[0].start {
      InsertStable(d, s[1..], v);
      assert Insert(d, s)[1..] == Insert(d, s[1..]);
    }
  }

  /** The sort orders by start and keeps every descriptor, as many times as it occurs. */
  lemma {:induction false} SortByStartSorts(ds: seq<Lib.LibDescriptor>)
    ensures SortedByStart(SortByStart(ds))
    ensures multiset(SortByStart(ds)) == multiset(ds)
    ensures |SortByStart(ds)| == |ds|
  {
    if ds != [] {
      SortByStartSorts(ds[1..]);
      InsertSorted(ds[0], SortByStart(ds[1..]));
      InsertCounts(ds[0], SortByStart(ds[1..]));
      assert ds == [ds[0]] + ds[1..];
    }
  }

  /** The sort is stable: the descriptors with any one start keep their relative order. */
  lemma {:induction false} SortByStartStable(ds: seq<Lib.LibDescriptor>, v: int)
    ensures StartingAt(SortByStart(ds), v) == StartingAt(ds, v)
  {
    if ds != [] {
      SortByStartStable(ds[1..], v);
      InsertStable(ds[0], SortByStart(ds[1..]), v);
    }
  }

  // ---------------------------------------------------------------------------

  /** A freshly built Library for descriptor d: nothing located, nothing pending. */
  ghost predicate Describes(l: Lib.Library, d: Lib.LibDescriptor, symbolsPath: Option<string>)
    reads l
  {
    && l.start == d.start && l.end == d.end && l.offset == d.offset && l.id == d.breakpadId
    && l.targetName == d.name && l.symbolsPath == symbolsPath
    && l.hostName.None? && !l.located && l.symbolTable.None? && l.symbols == map[]
  }

  /** What the server request reads of library l while its symbols are m. */
  ghost predicate Snapshot(e: Remote.Entry, l: Lib.Library, m: map<string, Option<string>>)
    reads l`targetName
  {
    && e.targetName == l.targetName && e.id == l.id && e.start == l.start && e.offset == l.offset
    && (forall k :: k in m <==> k in e.keys)
    && (forall a, b :: 0 <= a < b < |e.keys| ==> e.keys[a] != e.keys[b])
  }

  /** Entry i of es is what the request reads of library i of ls, for every i < |es|. */
  ghost predicate Snapshots(es: seq<Remote.Entry>, ls: seq<Lib.Library>)
    reads ls`targetName, ls`symbols
  {
    && |es| <= |ls|
    && (es == [] || (Snapshots(es[..|es| - 1], ls) && Snapshot(es[|es| - 1], ls[|es| - 1], ls[|es| - 1].symbols)))
  }

  lemma {:induction false} SnapshotsAt(es: seq<Remote.Entry>, ls: seq<Lib.Library>, i: nat)
    requires Snapshots(es, ls) && i < |es|
    ensures Snapshot(es[i], ls[i], ls[i].symbols)
  {
    if i < |es| - 1 {
      SnapshotsAt(es[..|es| - 1], ls, i);
    }
  }

  /** The symbol tables of a list of libraries, in order. */
  function SymbolMaps(ls: seq<Lib.Library>): (ms: seq<map<string, Option<string>>>)
    reads ls`symbols
  {
    if ls == [] then [] else SymbolMaps(ls[..|ls| - 1]) + [ls[|ls| - 1].symbols]
  }

  /** dict.update over a list of dictionaries: a later dictionary wins. */
  function Union(ms: seq<map<string, Option<string>>>): map<string, Option<string>>
  {
    if ms == [] then map[] else Union(ms[..|ms| - 1]) + ms[|ms| - 1]
  }

  /** A key is in the union exactly when some table has it. */
  lemma {:induction false} UnionKeys(ms: seq<map<string, Option<string>>>, k: string)
    ensures k in Union(ms) <==> exists i :: 0 <= i < |ms| && k in ms[i]
  {
    if ms != [] {
      var init := ms[..|ms| - 1];
      UnionKeys(init, k);
      assert forall i :: 0 <= i < |init| ==> init[i] == ms[i];
    }
  }

  /** A key of the union takes its value from the last table that has it. */
  lemma {:induction false} UnionLastWins(ms: seq<map<string, Option<string>>>, k: string)
    requires k in Union(ms)
    ensures exists i :: 0 <= i < |ms| && k in ms[i] && Union(ms)[k] == ms[i][k]
                        && forall j :: i < j < |ms| ==> k !in ms[j]
  {
    var n := |ms| - 1;
    var init := ms[..n];
    if k in ms[n] {
      assert Union(ms)[k] == ms[n][k];
    } else {
      UnionLastWins(init, k);
      var i :| 0 <= i < |init| && k in init[i] && Union(init)[k] == init[i][k]
               && forall j :: i < j < |init| ==> k !in init[j];
      assert ms[i] == init[i];
      assert Union(ms)[k] == ms[i][k];
      forall j | i < j < |ms| ensures k !in ms[j] {
        if j < n {
          assert ms[j] == init[j];
        }
      }
    }
  }

  class Libraries {
    const libs: seq<Lib.Library>
    const libsStart: seq<int>
    const profile: ProfileScan.Profile
    const symbolsPath: Option<string>
    /** The library the previous Lookup returned. */
    var lastLib: Lib.Library?

    /** libs_start holds the starts of libs, distinct libraries in start order. */
    predicate Indexed()
    {
      && |libsStart| == |libs|
      && (forall i :: 0 <= i < |libs| ==> libsStart[i] == libs[i].start)
      && Addresses.Sorted(libsStart)
      && (forall i, j :: 0 <= i < j < |libs| ==> libs[i] != libs[j])
    }

    predicate Valid()
      reads this`lastLib, libs`symbolTable
    {
      && Indexed()
      && (lastLib == null || lastLib in libs)
      && forall i :: 0 <= i < |libs| ==> libs[i].Valid()
    }

    /** The libraries of a process do not overlap: each ends before the next one starts. */
    predicate NonOverlapping()
    {
      forall i, j :: 0 <= i < j < |libs| ==> libs[i].end <= libs[j].start
    }

    constructor (profile: ProfileScan.Profile, symbolsPath: Option<string>)
      ensures Valid() && lastLib == null
      ensures this.profile == profile && this.symbolsPath == symbolsPath
      ensures var ds := SortByStart(profile.libs);
              && |libs| == |ds|
              && forall i :: 0 <= i < |libs| ==> fresh(libs[i]) && Describes(libs[i], ds[i], symbolsPath)
    {
      var ds := SortByStart(profile.libs);
      SortByStartSorts(profile.libs);
      var created: seq<Lib.Library> := [];
      var i := 0;
      while i < |ds|
        invariant 0 <= i <= |ds| && |created| == i
        invariant forall j :: 0 <= j < i ==> fresh(created[j]) && Describes(created[j], ds[j], symbolsPath) && created[j].Valid()
        invariant forall j, k :: 0 <= j < k < i ==> created[j] != created[k]
      {
        var lib := new Lib.Library(ds[i], symbolsPath);
        created := created + [lib];
        i := i + 1;
      }
      libs := created;
      libsStart := seq(|created|, j requires 0 <= j < |created| => created[j].start);
      this.profile := profile;
      this.symbolsPath := symbolsPath;
      lastLib := null;
    }

    /** AddressToLib: bisect for the last library starting at or below the address, then check its end. */
    function AddressToLib(address: int): (lib: Lib.Library?)
      requires Indexed()
      ensures lib != null ==> lib in libs && lib.ContainsAddress(address)
    {
      var b := Addresses.BisectRight(libsStart, address);
      var i := if b > 0 then b - 1 else b;
      if i < |libsStart| && libs[i].ContainsAddress(address) then libs[i] else null
    }

    /** With libraries that do not overlap, the search finds the library holding the address, and None only when there is none. */
    lemma AddressToLibFinds(address: int)
      requires Indexed() && NonOverlapping()
      ensures forall i :: 0 <= i < |libs| && libs[i].ContainsAddress(address) ==> AddressToLib(address) == libs[i]
      ensures AddressToLib(address) == null <==> forall i :: 0 <= i < |libs| ==> !libs[i].ContainsAddress(address)
    {
      var b := Addresses.BisectRight(libsStart, address);
      forall k | 0 <= k < |libs| && libs[k].ContainsAddress(address)
        ensures AddressToLib(address) == libs[k]
      {
        assert k < b;
        if b - 1 > k {
          assert libs[k].end <= libs[b - 1].start;
        }
      }
    }

    /** The library a lookup with last cached returns. */
    function Cached(last: Lib.Library?, address: int): Lib.Library?
      requires Indexed()
    {
      if last != null && last.ContainsAddress(address) then last else AddressToLib(address)
    }

    /** The library each of a run of lookups returns, with last cached before the first. */
    function Owners(last: Lib.Library?, addresses: seq<nat>): (owners: seq<Lib.Library?>)
      requires Indexed()
      ensures |owners| == |addresses|
      decreases |addresses|
    {
      if addresses == [] then []
      else
        var lib := Cached(last, addresses[0]);
        [lib] + Owners(lib, addresses[1..])
    }

    /** The cache never returns a library that does not hold the address. */
    lemma {:induction false} OwnersHold(last: Lib.Library?, addresses: seq<nat>)
      requires Indexed() && (last == null || last in libs)
      ensures var owners := Owners(last, addresses);
              forall k :: 0 <= k < |addresses| && owners[k] != null ==> owners[k] in libs && owners[k].ContainsAddress(addresses[k])
      decreases |addresses|
    {
      if addresses != [] {
        var lib := Cached(last, addresses[0]);
        OwnersHold(lib, addresses[1..]);
        var owners := Owners(last, addresses);
        assert forall k :: 1 <= k < |addresses| ==> owners[k] == Owners(lib, addresses[1..])[k - 1] && addresses[k] == addresses[1..][k - 1];
      }
    }

    /** With libraries that do not overlap the cache is invisible: every lookup returns what the search returns. */
    lemma {:induction false} OwnersAreSearched(last: Lib.Library?, addresses: seq<nat>)
      requires Indexed() && NonOverlapping() && (last == null || last in libs)
      ensures var owners := Owners(last, addresses);
              forall k :: 0 <= k < |addresses| ==> owners[k] == AddressToLib(addresses[k])
      decreases |addresses|
    {
      if addresses != [] {
        AddressToLibFinds(addresses[0]);
        var lib := Cached(last, addresses[0]);
        OwnersAreSearched(lib, addresses[1..]);
        var owners := Owners(last, addresses);
        assert forall k :: 1 <= k < |addresses| ==> owners[k] == Owners(lib, addresses[1..])[k - 1] && addresses[k] == addresses[1..][k - 1];
      }
    }

    /** Lookup: the cached library when it holds the address, the search's answer otherwise. */
    method Lookup(address: int) returns (lib: Lib.Library?)
      requires Valid()
      modifies this`lastLib
      ensures Valid()
      ensures lib == lastLib && lib == Cached(old(lastLib), address)
      ensures lib != null ==> lib in libs && lib.ContainsAddress(address)
      ensures NonOverlapping() ==> lib == AddressToLib(address)
    {
      if !(lastLib != null && lastLib.ContainsAddress(address)) {
        lastLib := AddressToLib(address);
      }
      lib := lastLib;
      if NonOverlapping() {
        AddressToLibFinds(address);
      }
    }

    // -------------------------------------------------------------------------
    // SearchUnresolvedAddresses

    /** The symbols of lib after the first n addresses of a run of lookups are recorded with their libraries. */
    static function Pend(m: map<string, Option<string>>, addresses: seq<nat>, owners: seq<Lib.Library?>,
                         lib: Lib.Library, n: nat): map<string, Option<string>>
      requires n <= |addresses| && n <= |owners|
    {
      if n == 0 then m
      else
        var prev := Pend(m, addresses, owners, lib, n - 1);
        if owners[n - 1] == lib then prev[Addresses.KeyFor(addresses[n - 1]) := None] else prev
    }

    /** A library gains a pending key for each address it was found for, and nothing else changes. */
    static lemma {:induction false} PendSpec(m: map<string, Option<string>>, addresses: seq<nat>, owners: seq<Lib.Library?>,
                                             lib: Lib.Library, n: nat, key: string)
      requires n <= |addresses| && n <= |owners|
      ensures var r := Pend(m, addresses, owners, lib, n);
              var added := exists k :: 0 <= k < n && owners[k] == lib && Addresses.KeyFor(addresses[k]) == key;
              && (key in r <==> key in m || added)
              && (added ==> r[key] == None)
              && (!added && key in m ==> r[key] == m[key])
    {
      if n > 0 {
        PendSpec(m, addresses, owners, lib, n - 1, key);
      }
    }

    /** The generator SearchUnresolvedAddresses reads, drained: version 3 from meta.version 3 on, version 2 before. */
    method ScanProfile() returns (found: seq<nat>, err: Option<Error>)
      ensures (found, err) == ProfileScan.UnresolvedAddresses(profile)
    {
      err := None;
      if profile.version >= 3 {
        found := ProfileScan.ScanV3(ProfileScan.Strings(profile.threads));
      } else {
        found, err := ProfileScan.ScanV2(ProfileScan.Locations(profile.threads));
      }
    }

    /** One pass of the for loop: Lookup, then AddUnresolvedAddress on the library found, if any. */
    method RecordOne(address: nat) returns (lib: Lib.Library?)
      requires Valid()
      modifies this`lastLib, libs`symbols
      ensures Valid()
      ensures lib == Cached(old(lastLib), address) && lastLib == lib
      ensures forall j :: 0 <= j < |libs| ==>
                libs[j].symbols == if libs[j] == lib then old(libs[j].symbols)[Addresses.KeyFor(address) := None]
                                   else old(libs[j].symbols)
    {
      lib := Lookup(address);
      if lib != null {
        lib.AddUnresolvedAddress(address);
      }
    }

    /** The for loop of SearchUnresolvedAddresses: look each address up and record it with the library found. */
    method RecordAll(found: seq<nat>) returns (ghost owners: seq<Lib.Library?>)
      requires Valid()
      modifies this`lastLib, libs`symbols
      ensures Valid()
      ensures owners == Owners(old(lastLib), found)
      ensures forall j :: 0 <= j < |libs| ==>
                libs[j].symbols == Pend(old(libs[j].symbols), found, owners, libs[j], |found|)
    {
      owners := Owners(lastLib, found);
      var i := 0;
      while i < |found|
        invariant 0 <= i <= |found|
        invariant Valid()
        invariant Owners(lastLib, found[i..]) == owners[i..]
        invariant forall j :: 0 <= j < |libs| ==>
                    libs[j].symbols == Pend(old(libs[j].symbols), found, owners, libs[j], i)
      {
        assert found[i..][1..] == found[i + 1..] && owners[i..][1..] == owners[i + 1..];
        label before:
        var lib := RecordOne(found[i]);
        assert lib == owners[i];
        forall j | 0 <= j < |libs|
          ensures libs[j].symbols == Pend(old(libs[j].symbols), found, owners, libs[j], i + 1)
        {
          assert old@before(libs[j].symbols) == Pend(old(libs[j].symbols), found, owners, libs[j], i);
        }
        i := i + 1;
      }
    }

    /**
     * SearchUnresolvedAddresses: every address of the scan is looked up, and
     * the library found records it as pending. A version 2 scan that meets a
     * malformed location stops there, after recording the addresses before it.
     */
    method SearchUnresolvedAddresses() returns (r: Result<()>, ghost addresses: seq<nat>, ghost owners: seq<Lib.Library?>)
      requires Valid()
      modifies this`lastLib, libs`symbols
      ensures Valid()
      ensures var scan := ProfileScan.UnresolvedAddresses(profile);
              && addresses == scan.0
              && r == (if scan.1.Some? then Failure(scan.1.value) else Success(()))
      ensures owners == Owners(old(lastLib), addresses)
      ensures forall j :: 0 <= j < |libs| ==>
                libs[j].symbols == Pend(old(libs[j].symbols), addresses, owners, libs[j], |addresses|)
    {
      var found, err := ScanProfile();
      addresses := found;
      owners := RecordAll(found);
      if err.Some? {
        return Failure(err.value), addresses, owners;
      }
      r := Success(());
    }

    /**
     * With libraries that do not overlap, the scan leaves each library with a
     * pending key for exactly the scanned addresses it holds; an address no
     * library holds is dropped.
     */
    lemma SearchOutcome(old_: map<string, Option<string>>, addresses: seq<nat>, last: Lib.Library?, j: nat, key: string)
      requires Indexed() && NonOverlapping() && (last == null || last in libs) && j < |libs|
      ensures var r := Pend(old_, addresses, Owners(last, addresses), libs[j], |addresses|);
              var held := exists k :: 0 <= k < |addresses| && libs[j].ContainsAddress(addresses[k]) && Addresses.KeyFor(addresses[k]) == key;
              && (key in r <==> key in old_ || held)
              && (held ==> r[key] == None)
              && (!held && key in old_ ==> r[key] == old_[key])
    {
      var owners := Owners(last, addresses);
      OwnersAreSearched(last, addresses);
      PendSpec(old_, addresses, owners, libs[j], |addresses|, key);
      forall k | 0 <= k < |addresses|
        ensures owners[k] == libs[j] <==> libs[j].ContainsAddress(addresses[k])
      {
        AddressToLibFinds(addresses[k]);
      }
    }

    // -------------------------------------------------------------------------
    // ResolveSymbols

    /** A symbols path starting with "http" names a symbol server. */
    predicate UsesServer()
    {
      symbolsPath.Some? && PyStr.StartsWith(symbolsPath.value, "http")
    }

    /** The local branch: each library resolves its own pending keys, in order; the first failure stops the loop. */
    method ResolveLocally(env: Resolution.Env) returns (r: Result<()>, ghost orders: seq<seq<string>>, ghost done: nat)
      requires Valid()
      modifies libs
      ensures Valid() && |orders| <= |libs|
      ensures forall i :: 0 <= i < |libs| ==> Lib.LocatedFrom(env, libs[i].symbolsPath, old(libs[i].located), old(libs[i].Placed()), libs[i].located, libs[i].Placed())
      ensures forall i :: 0 <= i < |libs| ==> libs[i].symbols.Keys == old(libs[i].symbols).Keys
      ensures forall i :: |orders| <= i < |libs| ==> libs[i].symbols == old(libs[i].symbols)
      ensures r.Success? ==> |orders| == |libs|
      ensures forall i :: 0 <= i < |orders| && (r.Success? || i < |orders| - 1) ==>
                && (forall k :: k in libs[i].symbols ==> libs[i].symbols[k].Some?)
                && (forall k :: k in old(libs[i].symbols) <==> k in orders[i])
                && forall n :: 0 <= n < |orders[i]| ==> Lib.Written(env, libs[i].View(), orders[i], libs[i].symbols, n)
      ensures r.Failure? ==>
                && 0 < |orders| && var f := |orders| - 1;
                   && (forall k :: k in old(libs[f].symbols) <==> k in orders[f])
                   && done % 256 == 0 && done < |orders[f]|
                   && forall n :: 0 <= n < done ==> Lib.Written(env, libs[f].View(), orders[f], libs[f].symbols, n)
    {
      orders, done := [], 0;
      var i := 0;
      while i < |libs|
        invariant 0 <= i <= |libs| && |orders| == i
        invariant Valid()
        invariant forall j :: 0 <= j < |libs| ==> libs[j].symbols.Keys == old(libs[j].symbols).Keys
        invariant forall j :: i <= j < |libs| ==> libs[j].symbols == old(libs[j].symbols)
        invariant forall j :: 0 <= j < |libs| ==> Lib.LocatedFrom(env, libs[j].symbolsPath, old(libs[j].located), old(libs[j].Placed()), libs[j].located, libs[j].Placed())
        invariant forall j :: 0 <= j < i ==>
                    && (forall k :: k in libs[j].symbols ==> libs[j].symbols[k].Some?)
                    && (forall k :: k in old(libs[j].symbols) <==> k in orders[j])
                    && forall n :: 0 <= n < |orders[j]| ==> Lib.Written(env, libs[j].View(), orders[j], libs[j].symbols, n)
      {
        var lib := libs[i];
        var res, order, written := lib.ResolveSymbols(env);
        orders := orders + [order];
        if res.Failure? {
          return res, orders, written;
        }
        i := i + 1;
      }
      r := Success(());
    }

    /**
     * The loop that writes the answers back: by position, to the key each
     * frame came from. Where no two frames share a fixed-up address this is
     * what the source's routing through address_map writes.
     */
    method WriteBackAnswers(positions: seq<nat>, slots: seq<Remote.Slot>, syms: seq<string>)
      requires Indexed()
      requires forall p :: 0 <= p < |positions| ==> positions[p] < |libs|
      requires forall p, q :: 0 <= p < q < |positions| ==> positions[p] < positions[q]
      requires forall k :: 0 <= k < |slots| ==> slots[k].frame.lib < |positions|
      modifies libs`symbols
      ensures forall p :: 0 <= p < |positions| ==>
                libs[positions[p]].symbols
                == Remote.WriteBack(old(libs[positions[p]].symbols), slots, syms, p, Remote.Zipped(slots, syms))
      ensures Remote.DistinctAddresses(slots) ==>
                forall p :: 0 <= p < |positions| ==>
                  libs[positions[p]].symbols
                  == Remote.WriteBackAsWritten(old(libs[positions[p]].symbols), slots, syms, p, Remote.Zipped(slots, syms))
      ensures forall i :: 0 <= i < |libs| && i !in positions ==> libs[i].symbols == old(libs[i].symbols)
    {
      var n := Remote.Zipped(slots, syms);
      var k := 0;
      while k < n
        invariant 0 <= k <= n
        invariant forall p :: 0 <= p < |positions| ==>
                    libs[positions[p]].symbols == Remote.WriteBack(old(libs[positions[p]].symbols), slots, syms, p, k)
        invariant forall i :: 0 <= i < |libs| && i !in positions ==> libs[i].symbols == old(libs[i].symbols)
      {
        var lib := libs[positions[slots[k].frame.lib]];
        lib.symbols := lib.symbols[slots[k].key := Some(syms[k])];
        k := k + 1;
      }
      if Remote.DistinctAddresses(slots) {
        forall p | 0 <= p < |positions|
          ensures Remote.WriteBackAsWritten(old(libs[positions[p]].symbols), slots, syms, p, n)
                  == Remote.WriteBack(old(libs[positions[p]].symbols), slots, syms, p, n)
        {
          Remote.AsWrittenAgrees(old(libs[positions[p]].symbols), slots, syms, p, n);
        }
      }
    }

    /** The frames of one library: its keys in order, each fixed up; the first that does not parse stops. */
    static method EntrySlotsOf(e: Remote.Entry, index: nat) returns (r: Result<seq<Remote.Slot>>)
      ensures r == Remote.EntrySlots(e, index, |e.keys|)
    {
      var slots: seq<Remote.Slot> := [];
      var j := 0;
      while j < |e.keys|
        invariant 0 <= j <= |e.keys|
        invariant Remote.EntrySlots(e, index, j) == Success(slots)
      {
        var adj := Addresses.FixupAddress(e.keys[j], e.start, e.offset);
        if adj.Failure? {
          Remote.EntrySlotsStop(Addresses.FixupAddress, e, index, j, |e.keys|);
          return Failure(adj.error);
        }
        slots := slots + [Remote.Slot(Remote.Frame(index, adj.value), e.keys[j])];
        j := j + 1;
      }
      r := Success(slots);
    }

    /** What the request takes from one library: its names, its addresses and its keys in dictionary order. */
    static method EntryOf(lib: Lib.Library) returns (e: Remote.Entry)
      ensures Snapshot(e, lib, lib.symbols)
    {
      var keys := Lib.KeysOf(lib.symbols);
      e := Remote.Entry(lib.targetName, lib.id, lib.start, lib.offset, keys);
    }

    /**
     * One library of the request loop: a library that is not a fake binary
     * adds its frames, its memory-map entry and its position; the first of
     * its keys that does not parse stops the request.
     */
    static method AppendEntry(es: seq<Remote.Entry>, e: Remote.Entry, frames: seq<Remote.Slot>,
                              memoryMap: seq<(string, string)>, positions: seq<nat>)
      returns (r: Result<seq<Remote.Slot>>, memoryMap': seq<(string, string)>, positions': seq<nat>)
      requires Remote.SlotsOf(Remote.Participants(es)) == Success(frames)
      requires memoryMap == Remote.MemoryMap(Remote.Participants(es))
      requires positions == Remote.Positions(es)
      ensures r == Remote.SlotsOf(Remote.Participants(es + [e]))
      ensures memoryMap' == Remote.MemoryMap(Remote.Participants(es + [e]))
      ensures positions' == Remote.Positions(es + [e])
    {
      var ps := Remote.Participants(es);
      Remote.ParticipantsSnoc(es, e);
      Remote.PositionsSnoc(es, e);
      if !PyStr.StartsWith(e.targetName, "[") {
        assert Remote.Participates(e);
        var mine := EntrySlotsOf(e, |ps|);
        Remote.SlotsSnoc(ps, e, frames);
        Remote.MemoryMapSnoc(ps, e);
        memoryMap' := memoryMap + [Remote.MapEntry(e)];
        positions' := positions + [|es|];
        assert Remote.Participants(es + [e]) == ps + [e];
        if mine.Failure? {
          assert Remote.SlotsOf(ps + [e]) == mine;
          return mine, memoryMap', positions';
        }
        r := Success(frames + mine.value);
        assert Remote.SlotsOf(ps + [e]) == r;
      } else {
        assert !Remote.Participates(e);
        assert Remote.Participants(es + [e]) == ps;
        r, memoryMap', positions' := Success(frames), memoryMap, positions;
      }
    }

    /**
     * The request loop: the memory map, the participating libraries and the
     * frames, library by library over the libraries read so far; a key that
     * does not parse ends it.
     */
    method RemoteRequest() returns (slots: Result<seq<Remote.Slot>>, memoryMap: seq<(string, string)>,
                                    positions: seq<nat>, es: seq<Remote.Entry>)
      ensures Snapshots(es, libs)
      ensures slots == Remote.SlotsOf(Remote.Participants(es))
      ensures slots.Success? ==>
                && |es| == |libs|
                && memoryMap == Remote.MemoryMap(Remote.Participants(es))
                && positions == Remote.Positions(es)
    {
      es := [];
      memoryMap := [];
      positions := [];
      var frames: seq<Remote.Slot> := [];
      var i := 0;
      while i < |libs|
        invariant 0 <= i <= |libs| && |es| == i
        invariant Snapshots(es, libs)
        invariant Remote.SlotsOf(Remote.Participants(es)) == Success(frames)
        invariant memoryMap == Remote.MemoryMap(Remote.Participants(es))
        invariant positions == Remote.Positions(es)
      {
        var e := EntryOf(libs[i]);
        assert (es + [e])[..i] == es;
        assert Snapshots(es + [e], libs);
        var step;
        step, memoryMap, positions := AppendEntry(es, e, frames, memoryMap, positions);
        if step.Failure? {
          return step, memoryMap, positions, es + [e];
        }
        frames := step.value;
        es := es + [e];
        i := i + 1;
      }
      slots := Success(frames);
    }

    /**
     * The symbol-server branch: one request for every pending key of every
     * library that is not a fake binary; the answers are written back by
     * position. A key that does not parse, a status other than 200 or an
     * empty answer stops it before anything is written.
     */
    method ResolveRemotely(url: string, server: (string, Remote.Request) -> Remote.Response)
      returns (r: Result<()>, ghost es: seq<Remote.Entry>)
      requires Valid()
      modifies libs`symbols
      ensures Valid()
      ensures old(Snapshots(es, libs))
      ensures var ex := Remote.Exchange(es, url, server);
              && (ex.Failure? ==> r == Failure(ex.error) && forall i :: 0 <= i < |libs| ==> libs[i].symbols == old(libs[i].symbols))
              && (ex.Success? ==>
                    && r == Success(()) && |es| == |libs|
                    && var pos := Remote.Positions(es);
                       && (forall p :: 0 <= p < |pos| ==> pos[p] < |libs|)
                       && (forall p :: 0 <= p < |pos| ==>
                             libs[pos[p]].symbols
                             == Remote.WriteBack(old(libs[pos[p]].symbols), ex.value.0, ex.value.1, p,
                                                 Remote.Zipped(ex.value.0, ex.value.1)))
                       && (Remote.DistinctAddresses(ex.value.0) ==>
                             forall p :: 0 <= p < |pos| ==>
                               libs[pos[p]].symbols
                               == Remote.WriteBackAsWritten(old(libs[pos[p]].symbols), ex.value.0, ex.value.1, p,
                                                            Remote.Zipped(ex.value.0, ex.value.1)))
                       && forall i :: 0 <= i < |libs| && i !in pos ==> libs[i].symbols == old(libs[i].symbols))
    {
      var slots, memoryMap, positions, entries := RemoteRequest();
      es := entries;
      if slots.Failure? {
        return Failure(slots.error), es;
      }
      var ps := Remote.Participants(es);
      var response := server(url, Remote.Request([Remote.Frames(slots.value)], memoryMap, 3, ["B2G", "Firefox"]));
      assert Remote.Request([Remote.Frames(slots.value)], memoryMap, 3, ["B2G", "Firefox"]) == Remote.BuildRequest(ps, slots.value);
      var answer := Remote.Answer(response);
      if answer.Failure? {
        return Failure(answer.error), es;
      }
      Remote.PositionsShape(es);
      Remote.SlotsPoint(Addresses.FixupAddress, ps);
      WriteBackAnswers(positions, slots.value, answer.value);
      r := Success(());
    }

    /** ResolveSymbols: the symbol server when the symbols path is an http address, the libraries one by one otherwise. */
    method ResolveSymbols(env: Resolution.Env, server: (string, Remote.Request) -> Remote.Response)
      returns (r: Result<()>, ghost orders: seq<seq<string>>, ghost done: nat, ghost es: seq<Remote.Entry>)
      requires Valid()
      modifies libs
      ensures Valid()
      ensures forall i :: 0 <= i < |libs| ==> Lib.LocatedFrom(env, libs[i].symbolsPath, old(libs[i].located), old(libs[i].Placed()), libs[i].located, libs[i].Placed())
      ensures !UsesServer() ==>
                && |orders| <= |libs|
                && (forall i :: 0 <= i < |libs| ==> libs[i].symbols.Keys == old(libs[i].symbols).Keys)
                && (forall i :: |orders| <= i < |libs| ==> libs[i].symbols == old(libs[i].symbols))
                && (r.Success? ==> |orders| == |libs|)
                && forall i :: 0 <= i < |orders| && (r.Success? || i < |orders| - 1) ==>
                     && (forall k :: k in libs[i].symbols ==> libs[i].symbols[k].Some?)
                     && (forall k :: k in old(libs[i].symbols) <==> k in orders[i])
                     && forall n :: 0 <= n < |orders[i]| ==> Lib.Written(env, libs[i].View(), orders[i], libs[i].symbols, n)
      ensures !UsesServer() && r.Failure? ==>
                && 0 < |orders| && var f := |orders| - 1;
                   && (forall k :: k in old(libs[f].symbols) <==> k in orders[f])
                   && done % 256 == 0 && done < |orders[f]|
                   && forall n :: 0 <= n < done ==> Lib.Written(env, libs[f].View(), orders[f], libs[f].symbols, n)
      ensures UsesServer() ==>
                forall i :: 0 <= i < |libs| ==> libs[i].located == old(libs[i].located) && libs[i].Placed() == old(libs[i].Placed())
      ensures UsesServer() ==>
                && old(Snapshots(es, libs))
                && var ex := Remote.Exchange(es, symbolsPath.value, server);
                   && (ex.Failure? ==> r == Failure(ex.error) && forall i :: 0 <= i < |libs| ==> libs[i].symbols == old(libs[i].symbols))
                   && (ex.Success? ==>
                         && r == Success(()) && |es| == |libs|
                         && var pos := Remote.Positions(es);
                            && (forall p :: 0 <= p < |pos| ==> pos[p] < |libs|)
                            && (forall p :: 0 <= p < |pos| ==>
                                  libs[pos[p]].symbols
                                  == Remote.WriteBack(old(libs[pos[p]].symbols), ex.value.0, ex.value.1, p,
                                                      Remote.Zipped(ex.value.0, ex.value.1)))
                            && (Remote.DistinctAddresses(ex.value.0) ==>
                                  forall p :: 0 <= p < |pos| ==>
                                    libs[pos[p]].symbols
                                    == Remote.WriteBackAsWritten(old(libs[pos[p]].symbols), ex.value.0, ex.value.1, p,
                                                                 Remote.Zipped(ex.value.0, ex.value.1)))
                            && forall i :: 0 <= i < |libs| && i !in pos ==> libs[i].symbols == old(libs[i].symbols))
    {
      orders, done, es := [], 0, [];
      if !(symbolsPath.Some? && PyStr.StartsWith(symbolsPath.value, "http")) {
        r, orders, done := ResolveLocally(env);
      } else {
        r, es := ResolveRemotely(symbolsPath.value, server);
      }
    }

    // -------------------------------------------------------------------------

    /** SymbolicationTable: the union of every library's symbols, a later library winning. */
    method SymbolicationTable() returns (table: map<string, Option<string>>)
      ensures table == Union(SymbolMaps(libs))
    {
      table := map[];
      var i := 0;
      while i < |libs|
        invariant 0 <= i <= |libs|
        invariant table == Union(SymbolMaps(libs[..i]))
      {
        assert libs[..i + 1][..i] == libs[..i];
        table := table + libs[i].symbols;
        i := i + 1;
      }
      assert libs[..i] == libs;
    }
  }
}
