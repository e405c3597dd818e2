/**
 * The recovery.fstab reader of the update tools (class RecoveryFSTab): the
 * layout version is guessed from the field counts of the lines, and the
 * reader of that layout turns every line into a partition keyed by its mount
 * point. Version 1 lines are "mountpoint fs device [device2 | options]",
 * version 2 lines are "device mountpoint fs mountflags fsoptions".
 */
module RecoveryFstab {
  import opened Wrappers
  import PyStr

  /** A Partition object as the readers leave it. */
  datatype Partition = Partition(fsType: string, mountPoint: string, device: string, fsSize: int,
                                 device2: Option<string>, length: int)

  /** The fields of a stripped line, or None for a blank or "#" line, which every pass skips. */
  function Pieces(line: string): Option<seq<string>>
  {
    var t := PyStr.Strip(line);
    if t == [] || PyStr.StartsWith(t, "#") then None else Some(PyStr.Fields(t))
  }

  /** The ValueError both readers raise on a line with the wrong number of fields. */
  function Malformed(line: string): Error
  {
    ValueError("malformed recovery.fstab line: \"" + PyStr.Strip(line) + "\"")
  }

  // ---------------------------------------------------------------------------
  // Version detection

  /** The version a line asks for: 1 for three or four fields, 2 for five, 0 (no change) otherwise. */
  function LineVersion(line: string): int
  {
    match Pieces(line)
    case None => 0
    case Some(p) => if 3 <= |p| <= 4 then 1 else if |p| == 5 then 2 else 0
  }

  /** The _version left by the constructor's loop after the given lines. */
  function DetectVersion(lines: seq<string>): int
  {
    if lines == [] then 0
    else if LineVersion(lines[|lines| - 1]) != 0 then LineVersion(lines[|lines| - 1])
    else DetectVersion(lines[..|lines| - 1])
  }

  /** The version is 0, 1 or 2, and it stays 0 exactly when no line has three to five fields. */
  lemma {:induction false} VersionIsZeroUnlessSet(lines: seq<string>)
    ensures 0 <= DetectVersion(lines) <= 2
    ensures DetectVersion(lines) == 0 <==> forall i :: 0 <= i < |lines| ==> LineVersion(lines[i]) == 0
  {
    if lines != [] {
      var init := lines[..|lines| - 1];
      VersionIsZeroUnlessSet(init);
      assert forall i :: 0 <= i < |init| ==> LineVersion(init[i]) == LineVersion(lines[i]);
    }
  }

  /** The last line with three to five fields decides the version. */
  lemma {:induction false} LastLineDecides(lines: seq<string>)
    ensures DetectVersion(lines) != 0 ==>
              exists i :: 0 <= i < |lines| && LineVersion(lines[i]) == DetectVersion(lines)
                          && forall j :: i < j < |lines| ==> LineVersion(lines[j]) == 0
  {
    if lines != [] {
      var n := |lines| - 1;
      var init := lines[..n];
      if LineVersion(lines[n]) != 0 {
        assert LineVersion(lines[n]) == DetectVersion(lines);
      } else if DetectVersion(init) != 0 {
        LastLineDecides(init);
        var i :| 0 <= i < |init| && LineVersion(init[i]) == DetectVersion(init)
                 && forall j :: i < j < |init| ==> LineVersion(init[j]) == 0;
        assert LineVersion(lines[i]) == DetectVersion(lines);
        forall j | i < j < |lines| ensures LineVersion(lines[j]) == 0 {
          if j < n {
            assert LineVersion(init[j]) == 0;
          }
        }
      }
    }
  }

  // ---------------------------------------------------------------------------
  // The options field

  predicate IsLengthOption(option: string)
  {
    PyStr.StartsWith(option, "length=")
  }

  /** The length a list of options sets, starting from 0: int() of each "length=" value in turn. */
  function Lengths(options: seq<string>): Result<int>
  {
    if options == [] then Success(0)
    else
      var n :- Lengths(options[..|options| - 1]);
      var o := options[|options| - 1];
      if IsLengthOption(o) then PyStr.ParseInt(o[7..]) else Success(n)
  }

  /**
   * The options fail exactly when some "length=" value is not an integer;
   * otherwise the last "length=" option decides, and without one the length is 0.
   */
  lemma {:induction false} LengthsSpec(options: seq<string>)
    ensures Lengths(options).Failure? <==>
              exists i :: 0 <= i < |options| && IsLengthOption(options[i]) && PyStr.ParseInt(options[i][7..]).Failure?
    ensures Lengths(options).Success? && (forall i :: 0 <= i < |options| ==> !IsLengthOption(options[i])) ==>
              Lengths(options).value == 0
    ensures Lengths(options).Success? ==>
              forall i :: 0 <= i < |options| && IsLengthOption(options[i])
                          && (forall j :: i < j < |options| ==> !IsLengthOption(options[j])) ==>
                PyStr.ParseInt(options[i][7..]) == Lengths(options)
  {
    if options != [] {
      var init := options[..|options| - 1];
      LengthsSpec(init);
      assert forall i :: 0 <= i < |init| ==> init[i] == options[i];
    }
  }

  /** A failure among the first k options is the failure of all of them. */
  lemma {:induction false} LengthsStop(options: seq<string>, k: nat)
    requires k <= |options| && Lengths(options[..k]).Failure?
    ensures Lengths(options) == Lengths(options[..k])
  {
    if k < |options| {
      var init := options[..|options| - 1];
      assert init[..k] == options[..k];
      LengthsStop(init, k);
    } else {
      assert options[..k] == options;
    }
  }

  /** The options loop shared by both readers; unknown options are passed over. */
  method ReadLength(options: seq<string>) returns (r: Result<int>)
    ensures r == Lengths(options)
  {
    var length := 0;
    var i := 0;
    while i < |options|
      invariant 0 <= i <= |options|
      invariant Lengths(options[..i]) == Success(length)
    {
      var o := options[i];
      assert options[..i + 1][..i] == options[..i];
      if PyStr.StartsWith(o, "length=") {
        var n := PyStr.ParseInt(o[7..]);
        if n.Failure? {
          LengthsStop(options, i + 1);
          return n;
        }
        length := n.value;
      }
      i := i + 1;
    }
    assert options[..i] == options;
    r := Success(length);
  }

  // ---------------------------------------------------------------------------
  // One line of each layout

  /** A version 1 partition from three or four fields. */
  function PartitionV1(pieces: seq<string>): Result<Partition>
    requires 3 <= |pieces| <= 4
  {
    var device2 := if |pieces| == 4 && PyStr.StartsWith(pieces[3], "/") then Some(pieces[3]) else None;
    var options := if |pieces| == 4 && !PyStr.StartsWith(pieces[3], "/") then Some(pieces[3]) else None;
    var length :- if options.Some? && options.value != [] then Lengths(PyStr.Split(options.value, ',')) else Success(0);
    Success(Partition(pieces[1], pieces[0], pieces[2], 0, device2, length))
  }

  /**
   * read_v1 on one line: a skipped line gives None, a line without three or
   * four fields a ValueError; otherwise the fields are mount point, file
   * system and device, and a fourth field is the second device when it
   * starts with "/" and the options otherwise.
   */
  function LineV1(line: string): (r: Result<Option<Partition>>)
    ensures Pieces(line).None? ==> r == Success(None)
    ensures Pieces(line).Some? && !(3 <= |Pieces(line).value| <= 4) ==> r == Failure(Malformed(line))
    ensures r.Success? && r.value.Some? ==>
              var p, q := Pieces(line).value, r.value.value;
              && 3 <= |p| <= 4
              && q.mountPoint == p[0] && q.fsType == p[1] && q.device == p[2] && q.fsSize == 0
              && (q.device2.Some? <==> |p| == 4 && PyStr.StartsWith(p[3], "/"))
              && (q.device2.Some? ==> q.device2 == Some(p[3]))
              && (|p| == 3 || q.device2.Some? ==> q.length == 0)
              && (|p| == 4 && !PyStr.StartsWith(p[3], "/") ==> Lengths(PyStr.Split(p[3], ',')) == Success(q.length))
    ensures Pieces(line).Some? && 3 <= |Pieces(line).value| <= 4 ==>
              (r.Failure? <==> var p := Pieces(line).value;
                               |p| == 4 && !PyStr.StartsWith(p[3], "/") && Lengths(PyStr.Split(p[3], ',')).Failure?)
  {
    match Pieces(line)
    case None => Success(None)
    case Some(p) =>
      if !(3 <= |p| <= 4) then Failure(Malformed(line))
      else
        var q :- PartitionV1(p);
        Success(Some(q))
  }

  /**
   * read_v2 on one line: a skipped line or a line whose options contain
   * "voldmanaged=" gives None, a line without exactly five fields a
   * ValueError; otherwise the fields are device, mount point and file system,
   * and there is no second device.
   */
  function LineV2(line: string): (r: Result<Option<Partition>>)
    ensures Pieces(line).None? ==> r == Success(None)
    ensures Pieces(line).Some? && |Pieces(line).value| != 5 ==> r == Failure(Malformed(line))
    ensures Pieces(line).Some? && |Pieces(line).value| == 5 && PyStr.Contains(Pieces(line).value[4], "voldmanaged=") ==>
              r == Success(None)
    ensures r.Success? && r.value.Some? ==>
              var p, q := Pieces(line).value, r.value.value;
              && |p| == 5 && !PyStr.Contains(p[4], "voldmanaged=")
              && q.device == p[0] && q.mountPoint == p[1] && q.fsType == p[2] && q.fsSize == 0
              && q.device2 == None && Lengths(PyStr.Split(p[4], ',')) == Success(q.length)
    ensures Pieces(line).Some? && |Pieces(line).value| == 5 && !PyStr.Contains(Pieces(line).value[4], "voldmanaged=") ==>
              (r.Failure? <==> Lengths(PyStr.Split(Pieces(line).value[4], ',')).Failure?)
  {
    match Pieces(line)
    case None => Success(None)
    case Some(p) =>
      if |p| != 5 then Failure(Malformed(line))
      else if PyStr.Contains(p[4], "voldmanaged=") then Success(None)
      else
        var n :- Lengths(PyStr.Split(p[4], ','));
        Success(Some(Partition(p[2], p[1], p[0], 0, None, n)))
  }

  // ---------------------------------------------------------------------------
  // The dictionary a reader builds

  /** Line `line` gives partition `p` to the dictionary. */
  predicate Yields(parse: string -> Result<Option<Partition>>, line: string, p: Partition)
  {
    parse(line) == Success(Some(p))
  }

  /** The dictionary d a reader fills line by line, keyed by mount point; the first bad line raises. */
  function Collect(lines: seq<string>, parse: string -> Result<Option<Partition>>): Result<map<string, Partition>>
  {
    if lines == [] then Success(map[])
    else
      var d :- Collect(lines[..|lines| - 1], parse);
      var q :- parse(lines[|lines| - 1]);
      if q.None? then Success(d) else Success(d[q.value.mountPoint := q.value])
  }

  /** A reader fails exactly when one of its lines does, with the error of the first such line. */
  lemma {:induction false} CollectFails(lines: seq<string>, parse: string -> Result<Option<Partition>>)
    ensures Collect(lines, parse).Failure? <==> exists i :: 0 <= i < |lines| && parse(lines[i]).Failure?
    ensures Collect(lines, parse).Failure? ==>
              exists i :: 0 <= i < |lines| && parse(lines[i]) == Failure(Collect(lines, parse).error)
                          && forall j :: 0 <= j < i ==> parse(lines[j]).Success?
  {
    if lines != [] {
      var init := lines[..|lines| - 1];
      CollectFails(init, parse);
      assert forall i :: 0 <= i < |init| ==> init[i] == lines[i];
    }
  }

  /** The keys are the mount points of the partitions the lines yield. */
  lemma {:induction false} CollectKeys(lines: seq<string>, parse: string -> Result<Option<Partition>>, m: string)
    requires Collect(lines, parse).Success?
    ensures m in Collect(lines, parse).value <==>
              exists i, p :: 0 <= i < |lines| && Yields(parse, lines[i], p) && p.mountPoint == m
  {
    if lines != [] {
      var init := lines[..|lines| - 1];
      CollectKeys(init, parse, m);
      assert forall i :: 0 <= i < |init| ==> init[i] == lines[i];
      if exists i, p :: 0 <= i < |lines| && Yields(parse, lines[i], p) && p.mountPoint == m {
        var i, p :| 0 <= i < |lines| && Yields(parse, lines[i], p) && p.mountPoint == m;
        if i < |init| {
          assert Yields(parse, init[i], p);
        }
      }
    }
  }

  /** Each mount point holds the partition of the last line that names it: a later duplicate overrides an earlier one. */
  lemma {:induction false} CollectLastWins(lines: seq<string>, parse: string -> Result<Option<Partition>>, m: string)
    requires Collect(lines, parse).Success? && m in Collect(lines, parse).value
    ensures var p := Collect(lines, parse).value[m];
            && p.mountPoint == m
            && exists i :: 0 <= i < |lines| && Yields(parse, lines[i], p)
                           && forall j, q :: i < j < |lines| && Yields(parse, lines[j], q) ==> q.mountPoint != m
  {
    var init := lines[..|lines| - 1];
    var last := lines[|lines| - 1];
    assert forall i :: 0 <= i < |init| ==> init[i] == lines[i];
    var d := Collect(lines, parse).value;
    var q := parse(last).value;
    var d0 := Collect(init, parse).value;
    assert d == if q.None? then d0 else d0[q.value.mountPoint := q.value];
    if q.Some? && q.value.mountPoint == m {
      assert Yields(parse, lines[|lines| - 1], d[m]);
    } else {
      CollectLastWins(init, parse, m);
      var i :| 0 <= i < |init| && Yields(parse, init[i], d[m])
               && forall j, q :: i < j < |init| && Yields(parse, init[j], q) ==> q.mountPoint != m;
      assert Yields(parse, lines[i], d[m]);
      forall j, q' | i < j < |lines| && Yields(parse, lines[j], q') ensures q'.mountPoint != m {
        if j < |init| {
          assert Yields(parse, init[j], q');
        }
      }
    }
  }

  /** A bad line after a good prefix is the outcome of the whole reader. */
  lemma {:induction false} CollectStop(lines: seq<string>, k: nat, parse: string -> Result<Option<Partition>>)
    requires k < |lines| && Collect(lines[..k], parse).Success? && parse(lines[k]).Failure?
    ensures Collect(lines, parse) == Failure(parse(lines[k]).error)
    decreases |lines| - k
  {
    if k + 1 < |lines| {
      var init := lines[..|lines| - 1];
      assert init[..k] == lines[..k] && init[k] == lines[k];
      CollectStop(init, k, parse);
    } else {
      assert lines[..k] == lines[..|lines| - 1];
    }
  }

  /** One more line extends the dictionary of the lines before it. */
  lemma CollectStep(lines: seq<string>, k: nat, parse: string -> Result<Option<Partition>>)
    requires k < |lines| && Collect(lines[..k], parse).Success? && parse(lines[k]).Success?
    ensures var d, q := Collect(lines[..k], parse).value, parse(lines[k]).value;
            Collect(lines[..k + 1], parse) == Success(if q.None? then d else d[q.value.mountPoint := q.value])
  {
    assert lines[..k + 1][..k] == lines[..k];
  }

  // ---------------------------------------------------------------------------

  class RecoveryFSTab {
    /** The lines of the file, as readlines() returns them. */
    const content: seq<string>
    const version: int

    /** Reading the file is left out: its lines are the argument. */
    constructor (lines: seq<string>)
      ensures content == lines
      ensures version == DetectVersion(lines)
    {
      content := lines;
      var v := 0;
      var i := 0;
      while i < |lines|
        invariant 0 <= i <= |lines|
        invariant v == DetectVersion(lines[..i])
      {
        assert lines[..i + 1][..i] == lines[..i];
        var line := PyStr.Strip(lines[i]);
        if line != [] && !PyStr.StartsWith(line, "#") {
          var pieces := PyStr.Fields(line);
          if 3 <= |pieces| <= 4 {
            v := 1;
          }
          if |pieces| == 5 {
            v := 2;
          }
        }
        i := i + 1;
      }
      assert lines[..i] == lines;
      version := v;
    }

    /** read_v1: the version 1 dictionary of the file, or the error of its first bad line. */
    method ReadV1() returns (r: Result<map<string, Partition>>)
      ensures r == Collect(content, LineV1)
    {
      var d: map<string, Partition> := map[];
      var k := 0;
      while k < |content|
        invariant 0 <= k <= |content|
        invariant Collect(content[..k], LineV1) == Success(d)
      {
        var line := PyStr.Strip(content[k]);
        if line == [] || PyStr.StartsWith(line, "#") {
          CollectStep(content, k, LineV1);
          k := k + 1;
          continue;
        }
        var pieces := PyStr.Fields(line);
        if !(3 <= |pieces| <= 4) {
          CollectStop(content, k, LineV1);
          return Failure(Malformed(content[k]));
        }
        var device2: Option<string> := None;
        var options: Option<string> := None;
        if |pieces| >= 4 {
          if PyStr.StartsWith(pieces[3], "/") {
            device2 := Some(pieces[3]);
          } else {
            options := Some(pieces[3]);
          }
        }
        var length := 0;
        if options.Some? && options.value != [] {
          var n := ReadLength(PyStr.Split(options.value, ','));
          if n.Failure? {
            CollectStop(content, k, LineV1);
            return Failure(n.error);
          }
          length := n.value;
        }
        var p := Partition(pieces[1], pieces[0], pieces[2], 0, device2, length);
        CollectStep(content, k, LineV1);
        d := d[p.mountPoint := p];
        k := k + 1;
      }
      assert content[..k] == content;
      r := Success(d);
    }

    /** read_v2: the version 2 dictionary of the file, or the error of its first bad line. */
    method ReadV2() returns (r: Result<map<string, Partition>>)
      ensures r == Collect(content, LineV2)
    {
      var d: map<string, Partition> := map[];
      var k := 0;
      while k < |content|
        invariant 0 <= k <= |content|
        invariant Collect(content[..k], LineV2) == Success(d)
      {
        var line := PyStr.Strip(content[k]);
        if line == [] || PyStr.StartsWith(line, "#") {
          CollectStep(content, k, LineV2);
          k := k + 1;
          continue;
        }
        var pieces := PyStr.Fields(line);
        if |pieces| != 5 {
          CollectStop(content, k, LineV2);
          return Failure(Malformed(content[k]));
        }
        var options := pieces[4];
        if PyStr.Contains(options, "voldmanaged=") {
          CollectStep(content, k, LineV2);
          k := k + 1;
          continue;
        }
        var n := ReadLength(PyStr.Split(options, ','));
        if n.Failure? {
          CollectStop(content, k, LineV2);
          return Failure(n.error);
        }
        var p := Partition(pieces[2], pieces[1], pieces[0], 0, None, n.value);
        CollectStep(content, k, LineV2);
        d := d[p.mountPoint := p];
        k := k + 1;
      }
      assert content[..k] == content;
      r := Success(d);
    }

    /** read: the reader of the detected layout, or None when no line had three to five fields. */
    method Read() returns (r: Option<Result<map<string, Partition>>>)
      ensures version == 1 ==> r == Some(Collect(content, LineV1))
      ensures version == 2 ==> r == Some(Collect(content, LineV2))
      ensures version != 1 && version != 2 ==> r == None
    {
      if version == 1 {
        var d := ReadV1();
        return Some(d);
      }
      if version == 2 {
        var d := ReadV2();
        return Some(d);
      }
      r := None;
    }
  }
}
