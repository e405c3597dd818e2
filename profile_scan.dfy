/**
 * The profile as SearchUnresolvedAddresses reads it, and its two scans for
 * unresolved addresses: the version 2 scan over the frame locations of every
 * sample, which skips a location equal to the one it yielded last and stops
 * at the first location int(location, 0) rejects, and the version 3 scan over
 * every thread's string table, which skips the strings it cannot parse.
 */
module ProfileScan {
  import opened Wrappers
  import Addresses
  import Lib

  /** A sample: the "location" of each of its frames. */
  datatype Sample = Sample(frames: seq<string>)

  /** A thread: its samples (version 2) and its string table (version 3). */
  datatype Thread = Thread(samples: seq<Sample>, stringTable: seq<string>)

  /** The parts of a profile the symbolicator reads: meta.version, the decoded "libs" list and the threads. */
  datatype Profile = Profile(version: int, libs: seq<Lib.LibDescriptor>, threads: seq<Thread>)

  /** Every frame location of a list of samples, sample by sample. */
  function SampleLocations(samples: seq<Sample>): seq<string>
  {
    if samples == [] then [] else samples[0].frames + SampleLocations(samples[1..])
  }

  /** Every frame location of the profile, thread by thread, in the order the version 2 scan visits them. */
  function Locations(threads: seq<Thread>): seq<string>
  {
    if threads == [] then [] else SampleLocations(threads[0].samples) + Locations(threads[1..])
  }

  /** Every string of every thread's string table, in the order the version 3 scan visits them. */
  function Strings(threads: seq<Thread>): seq<string>
  {
    if threads == [] then [] else threads[0].stringTable + Strings(threads[1..])
  }

  /** s[:2] == "0x": only a lower-case x counts. */
  predicate HexPrefixed(s: string)
  {
    |s| >= 2 && s[0] == '0' && s[1] == 'x'
  }

  // ---------------------------------------------------------------------------
  // Version 2

  /**
   * getUnresolvedAddressesV2 drained by the caller's for loop: the addresses
   * yielded, and the ValueError that ended the scan early, if any. last is
   * the location yielded last (last_location).
   */
  function ScanV2Spec(locs: seq<string>, last: Option<string>): (r: (seq<nat>, Option<Error>))
    decreases |locs|
  {
    if locs == [] then ([], None)
    else if HexPrefixed(locs[0]) && last != Some(locs[0]) then
      match Addresses.ParseAddress(locs[0])
      case Failure(e) => ([], Some(e))
      case Success(a) =>
        var rest := ScanV2Spec(locs[1..], Some(locs[0]));
        ([a] + rest.0, rest.1)
    else ScanV2Spec(locs[1..], last)
  }

  /** The "0x" locations of the scan with every location equal to the one before it dropped. */
  function Candidates(locs: seq<string>, last: Option<string>): (c: seq<string>)
    ensures forall i :: 0 <= i < |c| ==> HexPrefixed(c[i])
    decreases |locs|
  {
    if locs == [] then []
    else if HexPrefixed(locs[0]) && last != Some(locs[0]) then [locs[0]] + Candidates(locs[1..], Some(locs[0]))
    else Candidates(locs[1..], last)
  }

  /** int(s, 0) of every string in order, up to the first one that fails. */
  function ParseUntilFailure(ss: seq<string>): (seq<nat>, Option<Error>)
  {
    if ss == [] then ([], None)
    else match Addresses.ParseAddress(ss[0])
      case Failure(e) => ([], Some(e))
      case Success(a) =>
        var rest := ParseUntilFailure(ss[1..]);
        ([a] + rest.0, rest.1)
  }

  /** The version 2 scan parses the de-duplicated "0x" locations in order and stops at the first bad one. */
  lemma {:induction false} ScanV2IsParseOfCandidates(locs: seq<string>, last: Option<string>)
    ensures ScanV2Spec(locs, last) == ParseUntilFailure(Candidates(locs, last))
    decreases |locs|
  {
    if locs != [] {
      if HexPrefixed(locs[0]) && last != Some(locs[0]) {
        var c := Candidates(locs, last);
        assert c[1..] == Candidates(locs[1..], Some(locs[0]));
        ScanV2IsParseOfCandidates(locs[1..], Some(locs[0]));
      } else {
        ScanV2IsParseOfCandidates(locs[1..], last);
      }
    }
  }

  /** No candidate equals the one before it, nor the first the location yielded last. */
  lemma {:induction false} CandidatesHaveNoRepeats(locs: seq<string>, last: Option<string>)
    ensures var c := Candidates(locs, last);
            && (c != [] ==> last != Some(c[0]))
            && forall i :: 0 <= i < |c| - 1 ==> c[i] != c[i + 1]
    decreases |locs|
  {
    if locs != [] {
      if HexPrefixed(locs[0]) && last != Some(locs[0]) {
        CandidatesHaveNoRepeats(locs[1..], Some(locs[0]));
        var c := Candidates(locs, last);
        assert forall i :: 1 <= i < |c| ==> c[i] == c[1..][i - 1];
      } else {
        CandidatesHaveNoRepeats(locs[1..], last);
      }
    }
  }

  /** The getUnresolvedAddressesV2 loop, on the flattened frame locations. */
  method ScanV2(locs: seq<string>) returns (addresses: seq<nat>, err: Option<Error>)
    ensures (addresses, err) == ScanV2Spec(locs, None)
  {
    addresses := [];
    var lastLocation: Option<string> := None;
    var i := 0;
    assert locs[0..] == locs;
    while i < |locs|
      invariant 0 <= i <= |locs|
      invariant ScanV2Spec(locs, None).0 == addresses + ScanV2Spec(locs[i..], lastLocation).0
      invariant ScanV2Spec(locs, None).1 == ScanV2Spec(locs[i..], lastLocation).1
    {
      var location := locs[i];
      assert locs[i..][0] == location && locs[i..][1..] == locs[i + 1..];
      assert HexPrefixed(location) <==> |location| >= 2 && location[..2] == "0x";
      if |location| >= 2 && location[..2] == "0x" {
        if Some(location) != lastLocation {
          var address := Addresses.ParseAddress(location);
          if address.Failure? {
            assert ScanV2Spec(locs[i..], lastLocation) == ([], Some(address.error));
            assert addresses + [] == addresses;
            return addresses, Some(address.error);
          }
          addresses := addresses + [address.value];
          lastLocation := Some(location);
        }
      }
      i := i + 1;
    }
    assert addresses + [] == addresses;
    err := None;
  }

  // ---------------------------------------------------------------------------
  // Version 3

  /** getUnresolvedAddressesV3: int(s, 0) of every "0x" string that parses, in order. */
  function ScanV3Spec(strs: seq<string>): (r: seq<nat>)
  {
    if strs == [] then []
    else
      var rest := ScanV3Spec(strs[1..]);
      if HexPrefixed(strs[0]) && Addresses.ParseAddress(strs[0]).Success? then
        [Addresses.ParseAddress(strs[0]).value] + rest
      else rest
  }

  /** An address is yielded exactly when some "0x" string of the tables parses to it. */
  lemma {:induction false} ScanV3Complete(strs: seq<string>, a: nat)
    ensures a in ScanV3Spec(strs) <==>
            exists i :: 0 <= i < |strs| && HexPrefixed(strs[i]) && Addresses.ParseAddress(strs[i]) == Success(a)
  {
    if strs != [] {
      ScanV3Complete(strs[1..], a);
      if a in ScanV3Spec(strs[1..]) {
        var i :| 0 <= i < |strs[1..]| && HexPrefixed(strs[1..][i]) && Addresses.ParseAddress(strs[1..][i]) == Success(a);
        assert strs[i + 1] == strs[1..][i];
      }
      if exists i :: 0 <= i < |strs| && HexPrefixed(strs[i]) && Addresses.ParseAddress(strs[i]) == Success(a) {
        var i :| 0 <= i < |strs| && HexPrefixed(strs[i]) && Addresses.ParseAddress(strs[i]) == Success(a);
        if i > 0 {
          assert strs[1..][i - 1] == strs[i];
        }
      }
    }
  }

  /** The getUnresolvedAddressesV3 loop, on the concatenated string tables; a ValueError is skipped. */
  method ScanV3(strs: seq<string>) returns (addresses: seq<nat>)
    ensures addresses == ScanV3Spec(strs)
  {
    var found: seq<nat> := [];
    var i := 0;
    assert strs[0..] == strs;
    while i < |strs|
      invariant 0 <= i <= |strs|
      invariant ScanV3Spec(strs) == found + ScanV3Spec(strs[i..])
    {
      var s := strs[i];
      assert strs[i..][0] == s && strs[i..][1..] == strs[i + 1..];
      assert HexPrefixed(s) <==> |s| >= 2 && s[..2] == "0x";
      if |s| >= 2 && s[..2] == "0x" {
        var address := Addresses.ParseAddress(s);
        if address.Success? {
          found := found + [address.value];
        }
      }
      i := i + 1;
    }
    addresses := found;
  }

  // ---------------------------------------------------------------------------

  /**
   * The addresses SearchUnresolvedAddresses looks up, and the error that stops
   * it: the version 3 scan from meta.version 3 on, the version 2 scan before.
   */
  function UnresolvedAddresses(p: Profile): (seq<nat>, Option<Error>)
  {
    if p.version >= 3 then (ScanV3Spec(Strings(p.threads)), None) else ScanV2Spec(Locations(p.threads), None)
  }
}
