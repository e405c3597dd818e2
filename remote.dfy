/**
 * The symbol-server branch of Libraries.ResolveSymbols. Every library whose
 * target name does not start with "[" gets an entry (basename, breakpad id)
 * in the memory map, and each of its pending keys becomes a frame (position
 * of the library in the memory map, fixed-up address). The server answers
 * with one list of symbols per stack, which is zipped with the frames and
 * written back. The source routes each answer through a dictionary keyed by
 * the fixed-up address alone (WriteBackAsWritten); the model routes it to the
 * key the frame was made from (WriteBack). The two agree whenever no two
 * frames share a fixed-up address (AsWrittenAgrees).
 */
module Remote {
  import opened Wrappers
  import PyStr
  import Addresses

  /** A library as the remote branch reads it: its fields and its pending keys in dictionary order. */
  datatype Entry = Entry(targetName: string, id: string, start: int, offset: int, keys: seq<string>)

  /** One (index, adj_address) pair of stacks[0]. */
  datatype Frame = Frame(lib: nat, address: int)

  /** The JSON body posted to the server. */
  datatype Request = Request(stacks: seq<seq<Frame>>, memoryMap: seq<(string, string)>, version: int,
                             symbolSources: seq<string>)

  /** What urlopen returns: the HTTP status and the decoded JSON body. */
  datatype Response = Response(code: int, content: seq<seq<string>>)

  /** A frame together with the key it was made from. */
  datatype Slot = Slot(frame: Frame, key: string)

  /** Fake binaries such as "[vectors]" are not sent. */
  predicate Participates(e: Entry)
  {
    !PyStr.StartsWith(e.targetName, "[")
  }

  /** The entries that are sent, in order: the source's local libs list. */
  function Participants(es: seq<Entry>): seq<Entry>
  {
    if es == [] then []
    else Participants(es[..|es| - 1]) + (if Participates(es[|es| - 1]) then [es[|es| - 1]] else [])
  }

  /**
   * How a pending key becomes the address that is sent, given the library's
   * start and offset: fixupAddress in the model, any such function in the
   * lemmas that do not depend on what it computes.
   */
  type Fixup = (string, int, int) -> Result<int>

  /** The frames of the first n keys of e, sent as library number index; the first key fix rejects stops it. */
  function EntrySlotsBy(fix: Fixup, e: Entry, index: nat, n: nat): Result<seq<Slot>>
    requires n <= |e.keys|
  {
    if n == 0 then Success([])
    else
      var rest :- EntrySlotsBy(fix, e, index, n - 1);
      var adj :- fix(e.keys[n - 1], e.start, e.offset);
      Success(rest + [Slot(Frame(index, adj), e.keys[n - 1])])
  }

  /** The frames of every participant, library by library. */
  function SlotsBy(fix: Fixup, ps: seq<Entry>): Result<seq<Slot>>
  {
    if ps == [] then Success([])
    else
      var rest :- SlotsBy(fix, ps[..|ps| - 1]);
      var mine :- EntrySlotsBy(fix, ps[|ps| - 1], |ps| - 1, |ps[|ps| - 1].keys|);
      Success(rest + mine)
  }

  /** The frames of the first n keys of e, each normalised by fixupAddress. */
  function EntrySlots(e: Entry, index: nat, n: nat): Result<seq<Slot>>
    requires n <= |e.keys|
  {
    EntrySlotsBy(Addresses.FixupAddress, e, index, n)
  }

  /** The frames of the participants, each normalised by fixupAddress. */
  function SlotsOf(ps: seq<Entry>): Result<seq<Slot>>
  {
    SlotsBy(Addresses.FixupAddress, ps)
  }

  /** The memory-map entry of a library: the base name of its target and its id. */
  function MapEntry(e: Entry): (string, string)
  {
    (PyStr.Basename(e.targetName), e.id)
  }

  function MemoryMap(ps: seq<Entry>): seq<(string, string)>
  {
    seq(|ps|, i requires 0 <= i < |ps| => MapEntry(ps[i]))
  }

  function Frames(slots: seq<Slot>): seq<Frame>
  {
    seq(|slots|, k requires 0 <= k < |slots| => slots[k].frame)
  }

  /** symbolication_request: one stack holding every frame, version 3, the two symbol sources. */
  function BuildRequest(ps: seq<Entry>, slots: seq<Slot>): Request
  {
    Request([Frames(slots)], MemoryMap(ps), 3, ["B2G", "Firefox"])
  }

  /** The symbols of the first stack, or why there are none: a status other than 200, or an empty list. */
  function Answer(resp: Response): (r: Result<seq<string>>)
    ensures r.Success? <==> resp.code == 200 && resp.content != []
    ensures r.Success? ==> r.value == resp.content[0]
    ensures resp.code != 200 ==> r == Failure(BadRequest(resp.code))
  {
    if resp.code != 200 then Failure(BadRequest(resp.code))
    else if resp.content == [] then Failure(IndexError)
    else Success(resp.content[0])
  }

  /** The request sent to the server at url, the frames it holds and the symbols it answers with. */
  function Exchange(es: seq<Entry>, url: string, server: (string, Request) -> Response): Result<(seq<Slot>, seq<string>)>
  {
    var ps := Participants(es);
    var slots :- SlotsOf(ps);
    var syms :- Answer(server(url, BuildRequest(ps, slots)));
    Success((slots, syms))
  }

  /** zip stops at the shorter list. */
  function Zipped(slots: seq<Slot>, syms: seq<string>): nat
  {
    if |slots| < |syms| then |slots| else |syms|
  }

  /** The symbols of participant p once the first n answers are written, each to the key its frame came from. */
  function WriteBack(m: map<string, Option<string>>, slots: seq<Slot>, syms: seq<string>, p: nat, n: nat): map<string, Option<string>>
    requires n <= |slots| && n <= |syms|
  {
    if n == 0 then m
    else
      var prev := WriteBack(m, slots, syms, p, n - 1);
      if slots[n - 1].frame.lib == p then prev[slots[n - 1].key := Some(syms[n - 1])] else prev
  }

  // ---------------------------------------------------------------------------
  // The frames

  /** An entry yields frames exactly when fix accepts all its keys, and otherwise fails as fix does on one of them. */
  lemma {:induction false} EntrySlotsSucceed(fix: Fixup, e: Entry, index: nat, n: nat)
    requires n <= |e.keys|
    ensures EntrySlotsBy(fix, e, index, n).Success? <==> forall j :: 0 <= j < n ==> fix(e.keys[j], e.start, e.offset).Success?
    ensures EntrySlotsBy(fix, e, index, n).Failure? ==>
              exists j :: 0 <= j < n && fix(e.keys[j], e.start, e.offset) == Failure(EntrySlotsBy(fix, e, index, n).error)
  {
    if n > 0 {
      EntrySlotsSucceed(fix, e, index, n - 1);
    }
  }

  /** The frames of an entry are its keys in order, sent as library number index. */
  lemma {:induction false} EntrySlotsAt(fix: Fixup, e: Entry, index: nat, n: nat)
    requires n <= |e.keys| && EntrySlotsBy(fix, e, index, n).Success?
    ensures var s := EntrySlotsBy(fix, e, index, n).value;
            && |s| == n
            && forall j :: 0 <= j < n ==> s[j].frame.lib == index && s[j].key == e.keys[j]
  {
    if n > 0 {
      EntrySlotsAt(fix, e, index, n - 1);
    }
  }

  /** Each frame of an entry carries the normalised address of its key. */
  lemma {:induction false} EntrySlotsAddress(fix: Fixup, e: Entry, index: nat, n: nat)
    requires n <= |e.keys| && EntrySlotsBy(fix, e, index, n).Success?
    ensures var s := EntrySlotsBy(fix, e, index, n).value;
            forall j :: 0 <= j < |s| ==> fix(s[j].key, e.start, e.offset) == Success(s[j].frame.address)
  {
    if n > 0 {
      EntrySlotsAddress(fix, e, index, n - 1);
    }
  }

  /** The first key fix rejects is the error of the entry's frames. */
  lemma {:induction false} EntrySlotsStop(fix: Fixup, e: Entry, index: nat, j: nat, n: nat)
    requires j < n <= |e.keys| && EntrySlotsBy(fix, e, index, j).Success?
    requires fix(e.keys[j], e.start, e.offset).Failure?
    ensures EntrySlotsBy(fix, e, index, n) == Failure(fix(e.keys[j], e.start, e.offset).error)
  {
    if n > j + 1 {
      EntrySlotsStop(fix, e, index, j, n - 1);
    }
  }

  /** The frames of a non-empty list of participants: those of all but the last, then the last one's. */
  lemma SlotsSplit(fix: Fixup, ps: seq<Entry>)
    requires ps != [] && SlotsBy(fix, ps).Success?
    ensures var init, last := ps[..|ps| - 1], ps[|ps| - 1];
            && SlotsBy(fix, init).Success? && EntrySlotsBy(fix, last, |ps| - 1, |last.keys|).Success?
            && SlotsBy(fix, ps).value == SlotsBy(fix, init).value + EntrySlotsBy(fix, last, |ps| - 1, |last.keys|).value
  {
  }

  /** The request can be built exactly when fix accepts every pending key of every participant, and otherwise fails as fix does on one of them. */
  lemma {:induction false} SlotsSucceed(fix: Fixup, ps: seq<Entry>)
    ensures SlotsBy(fix, ps).Success? <==>
            forall p, j :: 0 <= p < |ps| && 0 <= j < |ps[p].keys| ==> fix(ps[p].keys[j], ps[p].start, ps[p].offset).Success?
    ensures SlotsBy(fix, ps).Failure? ==>
              exists p, j :: 0 <= p < |ps| && 0 <= j < |ps[p].keys| &&
                             fix(ps[p].keys[j], ps[p].start, ps[p].offset) == Failure(SlotsBy(fix, ps).error)
  {
    if ps != [] {
      var init, last := ps[..|ps| - 1], ps[|ps| - 1];
      SlotsSucceed(fix, init);
      EntrySlotsSucceed(fix, last, |ps| - 1, |last.keys|);
      if !SlotsBy(fix, init).Success? {
        var p, j :| 0 <= p < |init| && 0 <= j < |init[p].keys| &&
                    fix(init[p].keys[j], init[p].start, init[p].offset) == Failure(SlotsBy(fix, init).error);
        assert init[p] == ps[p];
      } else if !EntrySlotsBy(fix, last, |ps| - 1, |last.keys|).Success? {
        var j :| 0 <= j < |last.keys| && fix(last.keys[j], last.start, last.offset) == Failure(EntrySlotsBy(fix, last, |ps| - 1, |last.keys|).error);
        assert ps[|ps| - 1] == last;
      } else {
        forall p, j | 0 <= p < |ps| && 0 <= j < |ps[p].keys|
          ensures fix(ps[p].keys[j], ps[p].start, ps[p].offset).Success?
        {
          if p < |init| {
            assert init[p] == ps[p];
          }
        }
      }
    }
  }

  /** Every frame names a participant and one of its keys. */
  lemma {:induction false} SlotsPoint(fix: Fixup, ps: seq<Entry>)
    requires SlotsBy(fix, ps).Success?
    ensures var s := SlotsBy(fix, ps).value;
            forall k :: 0 <= k < |s| ==> s[k].frame.lib < |ps| && s[k].key in ps[s[k].frame.lib].keys
  {
    if ps != [] {
      var init, last := ps[..|ps| - 1], ps[|ps| - 1];
      SlotsSplit(fix, ps);
      SlotsPoint(fix, init);
      EntrySlotsAt(fix, last, |ps| - 1, |last.keys|);
      var rest, mine := SlotsBy(fix, init).value, EntrySlotsBy(fix, last, |ps| - 1, |last.keys|).value;
      var s := SlotsBy(fix, ps).value;
      forall k | 0 <= k < |s|
        ensures s[k].frame.lib < |ps| && s[k].key in ps[s[k].frame.lib].keys
      {
        if k < |rest| {
          assert s[k] == rest[k] && init[rest[k].frame.lib] == ps[rest[k].frame.lib];
        } else {
          assert s[k] == mine[k - |rest|];
        }
      }
    }
  }

  /** Every frame carries the normalised address of its key, as its own library's start and offset give it. */
  lemma {:induction false} SlotsAddress(fix: Fixup, ps: seq<Entry>)
    requires SlotsBy(fix, ps).Success?
    ensures var s := SlotsBy(fix, ps).value;
            forall k :: 0 <= k < |s| ==>
              s[k].frame.lib < |ps| &&
              fix(s[k].key, ps[s[k].frame.lib].start, ps[s[k].frame.lib].offset) == Success(s[k].frame.address)
  {
    if ps != [] {
      var init, last := ps[..|ps| - 1], ps[|ps| - 1];
      SlotsSplit(fix, ps);
      SlotsAddress(fix, init);
      EntrySlotsAt(fix, last, |ps| - 1, |last.keys|);
      EntrySlotsAddress(fix, last, |ps| - 1, |last.keys|);
      var rest, mine := SlotsBy(fix, init).value, EntrySlotsBy(fix, last, |ps| - 1, |last.keys|).value;
      var s := SlotsBy(fix, ps).value;
      forall k | 0 <= k < |s|
        ensures s[k].frame.lib < |ps| &&
                fix(s[k].key, ps[s[k].frame.lib].start, ps[s[k].frame.lib].offset) == Success(s[k].frame.address)
      {
        if k < |rest| {
          assert s[k] == rest[k] && init[rest[k].frame.lib] == ps[rest[k].frame.lib];
        } else {
          assert s[k] == mine[k - |rest|];
        }
      }
    }
  }

  /** Every pending key of every participant has a frame: frame k. */
  lemma {:induction false} SlotsCover(fix: Fixup, ps: seq<Entry>, p: nat, j: nat) returns (k: nat)
    requires SlotsBy(fix, ps).Success? && p < |ps| && j < |ps[p].keys|
    ensures k < |SlotsBy(fix, ps).value| && SlotsBy(fix, ps).value[k].frame.lib == p && SlotsBy(fix, ps).value[k].key == ps[p].keys[j]
  {
    var init, last := ps[..|ps| - 1], ps[|ps| - 1];
    SlotsSplit(fix, ps);
    var s, rest, mine := SlotsBy(fix, ps).value, SlotsBy(fix, init).value, EntrySlotsBy(fix, last, |ps| - 1, |last.keys|).value;
    if p < |init| {
      assert init[p] == ps[p];
      k := SlotsCover(fix, init, p, j);
      assert s[k] == rest[k];
    } else {
      EntrySlotsAt(fix, last, |ps| - 1, |last.keys|);
      k := |rest| + j;
      assert s[k] == mine[j];
    }
  }

  /** Two frames of the same library come from different keys when its keys are distinct. */
  lemma {:induction false} SlotsDistinct(fix: Fixup, ps: seq<Entry>)
    requires forall p, a, b :: 0 <= p < |ps| && 0 <= a < b < |ps[p].keys| ==> ps[p].keys[a] != ps[p].keys[b]
    requires SlotsBy(fix, ps).Success?
    ensures var s := SlotsBy(fix, ps).value;
            forall k1, k2 :: 0 <= k1 < k2 < |s| && s[k1].frame.lib == s[k2].frame.lib ==> s[k1].key != s[k2].key
  {
    if ps != [] {
      var init, last := ps[..|ps| - 1], ps[|ps| - 1];
      assert forall p :: 0 <= p < |init| ==> init[p] == ps[p];
      SlotsSplit(fix, ps);
      SlotsDistinct(fix, init);
      SlotsPoint(fix, init);
      EntrySlotsAt(fix, last, |ps| - 1, |last.keys|);
      var rest, mine := SlotsBy(fix, init).value, EntrySlotsBy(fix, last, |ps| - 1, |last.keys|).value;
      var s := SlotsBy(fix, ps).value;
      forall k1, k2 | 0 <= k1 < k2 < |s|
        ensures s[k1].frame.lib == s[k2].frame.lib ==> s[k1].key != s[k2].key
      {
        if k2 < |rest| {
          assert s[k1] == rest[k1] && s[k2] == rest[k2];
        } else if k1 < |rest| {
          assert s[k1] == rest[k1] && s[k2] == mine[k2 - |rest|];
          assert s[k1].frame.lib != s[k2].frame.lib;
        } else {
          assert s[k1] == mine[k1 - |rest|] && s[k2] == mine[k2 - |rest|];
          assert last.keys[k1 - |rest|] != last.keys[k2 - |rest|];
        }
      }
    }
  }

  /** The memory map has one entry per participant, and every frame names one of them. */
  lemma RequestShape(ps: seq<Entry>)
    requires SlotsOf(ps).Success?
    ensures var s := SlotsOf(ps).value; var req := BuildRequest(ps, s);
            && |req.stacks| == 1 && |req.stacks[0]| == |s|
            && |req.memoryMap| == |ps|
            && forall k :: 0 <= k < |s| ==>
                 var f := req.stacks[0][k];
                 f.lib < |req.memoryMap| && req.memoryMap[f.lib] == (PyStr.Basename(ps[f.lib].targetName), ps[f.lib].id)
  {
    SlotsPoint(Addresses.FixupAddress, ps);
  }

  /** The participants are exactly the entries whose target name does not start with "[". */
  lemma {:induction false} ParticipantsAre(es: seq<Entry>, e: Entry)
    ensures e in Participants(es) <==> e in es && Participates(e)
  {
    if es != [] {
      ParticipantsAre(es[..|es| - 1], e);
      assert es == es[..|es| - 1] + [es[|es| - 1]];
    }
  }

  /** Where each participant sits in the list of all entries. */
  function Positions(es: seq<Entry>): seq<nat>
  {
    if es == [] then []
    else Positions(es[..|es| - 1]) + (if Participates(es[|es| - 1]) then [|es| - 1] else [])
  }

  /** One more entry: a participant is appended to the participants. */
  lemma ParticipantsSnoc(es: seq<Entry>, e: Entry)
    ensures Participants(es + [e]) == Participants(es) + (if Participates(e) then [e] else [])
  {
    assert (es + [e])[..|es|] == es;
  }

  /** One more entry: the position of a participant is appended to the positions. */
  lemma PositionsSnoc(es: seq<Entry>, e: Entry)
    ensures Positions(es + [e]) == Positions(es) + (if Participates(e) then [|es|] else [])
  {
    assert (es + [e])[..|es|] == es;
  }

  /** One more participant: its name and id are appended to the memory map. */
  lemma MemoryMapSnoc(ps: seq<Entry>, e: Entry)
    ensures MemoryMap(ps + [e]) == MemoryMap(ps) + [MapEntry(e)]
  {
    var l, r := MemoryMap(ps + [e]), MemoryMap(ps) + [MapEntry(e)];
    assert |l| == |r|;
    forall i | 0 <= i < |l| ensures l[i] == r[i] {
      if i < |ps| {
        assert (ps + [e])[i] == ps[i];
      }
    }
  }

  /** The frames of one more participant follow those of the others, and its first bad key is the error. */
  lemma SlotsSnoc(ps: seq<Entry>, e: Entry, frames: seq<Slot>)
    requires SlotsOf(ps) == Success(frames)
    ensures EntrySlots(e, |ps|, |e.keys|).Success? ==>
              SlotsOf(ps + [e]) == Success(frames + EntrySlots(e, |ps|, |e.keys|).value)
    ensures EntrySlots(e, |ps|, |e.keys|).Failure? ==>
              SlotsOf(ps + [e]) == Failure(EntrySlots(e, |ps|, |e.keys|).error)
  {
    assert (ps + [e])[..|ps|] == ps;
  }

  /** Participant p is entry Positions(es)[p]; the positions increase, and only participating entries have one. */
  lemma {:induction false} PositionsShape(es: seq<Entry>)
    ensures var pos := Positions(es);
            && |pos| == |Participants(es)|
            && (forall p :: 0 <= p < |pos| ==> pos[p] < |es| && Participates(es[pos[p]]) && Participants(es)[p] == es[pos[p]])
            && (forall p, q :: 0 <= p < q < |pos| ==> pos[p] < pos[q])
            && (forall i :: 0 <= i < |es| && Participates(es[i]) ==> i in pos)
  {
    if es != [] {
      var init := es[..|es| - 1];
      PositionsShape(init);
      assert forall i :: 0 <= i < |init| ==> init[i] == es[i];
    }
  }

  // ---------------------------------------------------------------------------
  // Writing the answers back

  /** Writing back adds no key to a participant whose frames all come from its own keys. */
  lemma {:induction false} WriteBackKeepsKeys(m: map<string, Option<string>>, slots: seq<Slot>, syms: seq<string>, p: nat, n: nat)
    requires n <= |slots| && n <= |syms|
    requires forall k :: 0 <= k < n && slots[k].frame.lib == p ==> slots[k].key in m
    ensures WriteBack(m, slots, syms, p, n).Keys == m.Keys
  {
    if n > 0 {
      WriteBackKeepsKeys(m, slots, syms, p, n - 1);
    }
  }

  /** The answer for frame k ends up under the key frame k came from. */
  lemma {:induction false} WriteBackOfSlot(m: map<string, Option<string>>, slots: seq<Slot>, syms: seq<string>, p: nat, n: nat, k: nat)
    requires n <= |slots| && n <= |syms| && k < n && slots[k].frame.lib == p
    requires forall k2 :: 0 <= k2 < n && k2 != k && slots[k2].frame.lib == p ==> slots[k2].key != slots[k].key
    ensures var r := WriteBack(m, slots, syms, p, n); slots[k].key in r && r[slots[k].key] == Some(syms[k])
  {
    if n - 1 != k {
      WriteBackOfSlot(m, slots, syms, p, n - 1, k);
    }
  }

  /** A key no answered frame of p came from keeps its value. */
  lemma {:induction false} WriteBackElsewhere(m: map<string, Option<string>>, slots: seq<Slot>, syms: seq<string>, p: nat, n: nat, key: string)
    requires n <= |slots| && n <= |syms|
    requires forall k :: 0 <= k < n && slots[k].frame.lib == p ==> slots[k].key != key
    ensures var r := WriteBack(m, slots, syms, p, n); (key in r <==> key in m) && (key in m ==> r[key] == m[key])
  {
    if n > 0 {
      WriteBackElsewhere(m, slots, syms, p, n - 1, key);
    }
  }

  /**
   * When the server answers every frame, every pending key of every
   * participant gets its own answer, and no key is added.
   */
  lemma ResolvedRemotely(ps: seq<Entry>, syms: seq<string>, p: nat, m: map<string, Option<string>>)
    requires forall q, a, b :: 0 <= q < |ps| && 0 <= a < b < |ps[q].keys| ==> ps[q].keys[a] != ps[q].keys[b]
    requires SlotsOf(ps).Success? && |syms| >= |SlotsOf(ps).value|
    requires p < |ps| && forall key :: key in m <==> key in ps[p].keys
    ensures var s := SlotsOf(ps).value; var r := WriteBack(m, s, syms, p, |s|);
            && r.Keys == m.Keys
            && (forall key :: key in r ==> r[key].Some?)
            && forall k :: 0 <= k < |s| && s[k].frame.lib == p ==> s[k].key in r && r[s[k].key] == Some(syms[k])
  {
    var s := SlotsOf(ps).value;
    SlotsPoint(Addresses.FixupAddress, ps);
    SlotsDistinct(Addresses.FixupAddress, ps);
    WriteBackKeepsKeys(m, s, syms, p, |s|);
    forall k | 0 <= k < |s| && s[k].frame.lib == p
      ensures s[k].key in WriteBack(m, s, syms, p, |s|) && WriteBack(m, s, syms, p, |s|)[s[k].key] == Some(syms[k])
    {
      WriteBackOfSlot(m, s, syms, p, |s|, k);
    }
    forall key | key in m
      ensures WriteBack(m, s, syms, p, |s|)[key].Some?
    {
      var j :| 0 <= j < |ps[p].keys| && ps[p].keys[j] == key;
      var k := SlotsCover(Addresses.FixupAddress, ps, p, j);
      WriteBackOfSlot(m, s, syms, p, |s|, k);
    }
  }

  // ---------------------------------------------------------------------------
  // As written: address_map[adj_address] = address, one dictionary for all libraries

  /** address_map after the request loop: every fixed-up address maps to the last key that produced it. */
  function AddressMap(slots: seq<Slot>, n: nat): (amap: map<int, string>)
    requires n <= |slots|
    ensures forall k :: 0 <= k < n ==> slots[k].frame.address in amap
  {
    if n == 0 then map[] else AddressMap(slots, n - 1)[slots[n - 1].frame.address := slots[n - 1].key]
  }

  /** lib.symbols[address_map[address[1]]] = sym, for participant p, over the first n answers. */
  function WriteBackAsWritten(m: map<string, Option<string>>, slots: seq<Slot>, syms: seq<string>, p: nat, n: nat): map<string, Option<string>>
    requires n <= |slots| && n <= |syms|
  {
    if n == 0 then m
    else
      var prev := WriteBackAsWritten(m, slots, syms, p, n - 1);
      if slots[n - 1].frame.lib == p then prev[AddressMap(slots, |slots|)[slots[n - 1].frame.address] := Some(syms[n - 1])]
      else prev
  }

  /** No two frames of the request carry the same fixed-up address. */
  predicate DistinctAddresses(slots: seq<Slot>)
  {
    forall k1, k2 :: 0 <= k1 < k2 < |slots| ==> slots[k1].frame.address != slots[k2].frame.address
  }

  /** address_map sends a frame's address back to its own key when no later frame carries that address. */
  lemma {:induction false} AddressMapOfSlot(slots: seq<Slot>, n: nat, k: nat)
    requires k < n <= |slots|
    requires forall k2 :: k < k2 < n ==> slots[k2].frame.address != slots[k].frame.address
    ensures AddressMap(slots, n)[slots[k].frame.address] == slots[k].key
  {
    if n - 1 != k {
      AddressMapOfSlot(slots, n - 1, k);
    }
  }

  /**
   * Where no two frames share a fixed-up address, the source's routing
   * through address_map writes exactly what routing by frame writes.
   */
  lemma {:induction false} AsWrittenAgrees(m: map<string, Option<string>>, slots: seq<Slot>, syms: seq<string>, p: nat, n: nat)
    requires n <= |slots| && n <= |syms|
    requires DistinctAddresses(slots)
    ensures WriteBackAsWritten(m, slots, syms, p, n) == WriteBack(m, slots, syms, p, n)
  {
    if n > 0 {
      AsWrittenAgrees(m, slots, syms, p, n - 1);
      if slots[n - 1].frame.lib == p {
        AddressMapOfSlot(slots, |slots|, n - 1);
      }
    }
  }

  /**
   * Two participants whose keys fix up to the same address: the first one's
   * answer is stored under the second one's key, its own key stays
   * unresolved, and routing by frame resolves it.
   */
  lemma AsWrittenMisroutesSharedAddress(fix: Fixup, e1: Entry, e2: Entry, adj: int)
    requires |e1.keys| == 1 && |e2.keys| == 1 && e1.keys[0] != e2.keys[0]
    requires fix(e1.keys[0], e1.start, e1.offset) == Success(adj)
    requires fix(e2.keys[0], e2.start, e2.offset) == Success(adj)
    ensures var a, b := e1.keys[0], e2.keys[0];
            var m := map[a := None];
            && SlotsBy(fix, [e1, e2]) == Success([Slot(Frame(0, adj), a), Slot(Frame(1, adj), b)])
            && var s := SlotsBy(fix, [e1, e2]).value;
               && var wrong := WriteBackAsWritten(m, s, ["f", "g"], 0, 2);
                  && b in wrong && wrong[b] == Some("f")
                  && a in wrong && wrong[a] == None
                  && WriteBack(m, s, ["f", "g"], 0, 2) == map[a := Some("f")]
  {
    var a, b := e1.keys[0], e2.keys[0];
    var ps := [e1, e2];
    assert ps[..1] == [e1] && [e1][..0] == [];
    assert EntrySlotsBy(fix, e1, 0, 0) == Success([]) && EntrySlotsBy(fix, e2, 1, 0) == Success([]);
    assert [] + [Slot(Frame(0, adj), a)] == [Slot(Frame(0, adj), a)];
    assert [] + [Slot(Frame(1, adj), b)] == [Slot(Frame(1, adj), b)];
    assert EntrySlotsBy(fix, e1, 0, 1) == Success([Slot(Frame(0, adj), a)]);
    assert EntrySlotsBy(fix, e2, 1, 1) == Success([Slot(Frame(1, adj), b)]);
    assert SlotsBy(fix, []) == Success([]);
    assert SlotsBy(fix, [e1]) == Success([Slot(Frame(0, adj), a)]);
    var s := [Slot(Frame(0, adj), a), Slot(Frame(1, adj), b)];
    assert [Slot(Frame(0, adj), a)] + [Slot(Frame(1, adj), b)] == s;
    assert SlotsBy(fix, ps) == Success(s);
    assert AddressMap(s, 0) == map[];
    assert AddressMap(s, 1) == map[adj := a];
    assert AddressMap(s, 2) == map[adj := b];
    var m := map[a := None];
    assert WriteBackAsWritten(m, s, ["f", "g"], 0, 0) == m;
    assert WriteBackAsWritten(m, s, ["f", "g"], 0, 1) == m[b := Some("f")];
    assert WriteBackAsWritten(m, s, ["f", "g"], 0, 2) == m[b := Some("f")];
    assert WriteBack(m, s, ["f", "g"], 0, 0) == m;
    assert WriteBack(m, s, ["f", "g"], 0, 1) == map[a := Some("f")];
  }

  /**
   * Two keys of one participant that fix up to the same address: both
   * answers go to the second key and the first stays unresolved, where
   * routing by frame resolves both.
   */
  lemma AsWrittenMisroutesOneLibrary(fix: Fixup, e: Entry, adj: int)
    requires |e.keys| == 2 && e.keys[0] != e.keys[1]
    requires fix(e.keys[0], e.start, e.offset) == Success(adj)
    requires fix(e.keys[1], e.start, e.offset) == Success(adj)
    ensures var a, b := e.keys[0], e.keys[1];
            var m := map[a := None, b := None];
            && SlotsBy(fix, [e]) == Success([Slot(Frame(0, adj), a), Slot(Frame(0, adj), b)])
            && var s := SlotsBy(fix, [e]).value;
               && WriteBackAsWritten(m, s, ["f", "g"], 0, 2) == map[a := None, b := Some("g")]
               && WriteBack(m, s, ["f", "g"], 0, 2) == map[a := Some("f"), b := Some("g")]
  {
    var a, b := e.keys[0], e.keys[1];
    assert [e][..0] == [];
    assert EntrySlotsBy(fix, e, 0, 0) == Success([]);
    assert [] + [Slot(Frame(0, adj), a)] == [Slot(Frame(0, adj), a)];
    assert EntrySlotsBy(fix, e, 0, 1) == Success([Slot(Frame(0, adj), a)]);
    var s := [Slot(Frame(0, adj), a), Slot(Frame(0, adj), b)];
    assert [Slot(Frame(0, adj), a)] + [Slot(Frame(0, adj), b)] == s;
    assert EntrySlotsBy(fix, e, 0, 2) == Success(s);
    assert SlotsBy(fix, []) == Success([]);
    assert [] + s == s;
    assert SlotsBy(fix, [e]) == Success(s);
    assert AddressMap(s, 1) == map[adj := a];
    assert AddressMap(s, 2) == map[adj := b];
    var m := map[a := None, b := None];
    assert WriteBackAsWritten(m, s, ["f", "g"], 0, 0) == m;
    assert WriteBackAsWritten(m, s, ["f", "g"], 0, 1) == m[b := Some("f")];
    assert WriteBackAsWritten(m, s, ["f", "g"], 0, 2) == m[b := Some("g")];
    assert WriteBack(m, s, ["f", "g"], 0, 1) == m[a := Some("f")];
  }

  /**
   * On address keys: neighbouring addresses x and x + 1 pending in one
   * library, where x - start + offset is even (0x1010 and 0x1011 at 0x1000,
   * both fixed up to 0xf).
   */
  lemma AsWrittenMisroutesNeighbours(x: nat, start: int, offset: int)
    requires (x - start + offset) % 2 == 0
    ensures var a, b := Addresses.KeyFor(x), Addresses.KeyFor(x + 1);
            var e := Entry("/system/lib/liba.so", "A", start, offset, [a, b]);
            var m := map[a := None, b := None];
            && SlotsOf([e]).Success? && |SlotsOf([e]).value| == 2
            && WriteBackAsWritten(m, SlotsOf([e]).value, ["f", "g"], 0, 2) == map[a := None, b := Some("g")]
  {
    var a, b := Addresses.KeyFor(x), Addresses.KeyFor(x + 1);
    var e := Entry("/system/lib/liba.so", "A", start, offset, [a, b]);
    Addresses.FixupOfKey(x, start, offset);
    Addresses.FixupOfKey(x + 1, start, offset);
    assert Addresses.FixupOffset(x + 1, start, offset) == Addresses.FixupOffset(x, start, offset);
    assert a != b by {
      if a == b {
        Addresses.KeyForInjective(x, x + 1);
      }
    }
    AsWrittenMisroutesOneLibrary(Addresses.FixupAddress, e, Addresses.FixupOffset(x, start, offset));
  }

  /**
   * On address keys: x1 pending in a library loaded at start1 and x2 in one
   * loaded at start2 with the same offset, at the same distance from their
   * starts (0x1010 at 0x1000 and 0x2010 at 0x2000, both fixed up to 0xf).
   */
  lemma AsWrittenMisroutesSharedOffsets(x1: nat, start1: int, x2: nat, start2: int, offset: int)
    requires x1 != x2 && x1 - start1 == x2 - start2
    ensures var a, b := Addresses.KeyFor(x1), Addresses.KeyFor(x2);
            var e1 := Entry("/system/lib/liba.so", "A", start1, offset, [a]);
            var e2 := Entry("/system/lib/libb.so", "B", start2, offset, [b]);
            var m := map[a := None];
            && SlotsOf([e1, e2]).Success? && |SlotsOf([e1, e2]).value| == 2
            && var wrong := WriteBackAsWritten(m, SlotsOf([e1, e2]).value, ["f", "g"], 0, 2);
               b in wrong && a in wrong && wrong[a] == None
  {
    var a, b := Addresses.KeyFor(x1), Addresses.KeyFor(x2);
    var e1 := Entry("/system/lib/liba.so", "A", start1, offset, [a]);
    var e2 := Entry("/system/lib/libb.so", "B", start2, offset, [b]);
    Addresses.FixupOfKey(x1, start1, offset);
    Addresses.FixupOfKey(x2, start2, offset);
    assert a != b by {
      if a == b {
        Addresses.KeyForInjective(x1, x2);
      }
    }
    AsWrittenMisroutesSharedAddress(Addresses.FixupAddress, e1, e2, Addresses.FixupOffset(x1, start1, offset));
  }
}
