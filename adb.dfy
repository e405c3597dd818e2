/**
 * The two pieces of adb output the update tools parse (class AdbTool): the
 * listing of `adb devices`, from which the serials of the devices that are
 * online are taken, and /proc/<pid>/cmdline, whose arguments are separated
 * and terminated by NUL characters. Running adb itself is left out; its
 * output is the argument.
 */
module Adb {
  import opened Wrappers
  import PyStr

  /** The header line of `adb devices`. */
  const DevicesHeader := "List of devices attached"

  /** Line `line` of `adb devices` says that the device with serial d is online. */
  predicate ListsOnline(line: string, d: string)
  {
    !PyStr.StartsWith(line, DevicesHeader) && PyStr.Split(line, '\t') == [d, "device"]
  }

  /**
   * get_online_devices on the output of `adb devices`: exactly the serials of
   * the "serial<TAB>device" lines; the header, lines with another number of
   * tab-separated fields and devices in another state are passed over.
   */
  method OnlineDevices(output: string) returns (online: set<string>)
    ensures forall d :: d in online <==>
              exists i :: 0 <= i < |PyStr.Split(output, '\n')| && ListsOnline(PyStr.Split(output, '\n')[i], d)
  {
    var lines := PyStr.Split(output, '\n');
    online := {};
    var i := 0;
    while i < |lines|
      invariant 0 <= i <= |lines|
      invariant forall d :: d in online <==> exists k :: 0 <= k < i && ListsOnline(lines[k], d)
    {
      var line := lines[i];
      if PyStr.StartsWith(line, DevicesHeader) {
        i := i + 1;
        continue;
      }
      var tokens := PyStr.Split(line, '\t');
      if |tokens| != 2 {
        i := i + 1;
        continue;
      }
      var device := tokens[0];
      var state := tokens[1];
      if state == "device" {
        online := online + {device};
      }
      i := i + 1;
    }
  }

  /** The row adb prints for a device: its serial and its state, separated by a tab. */
  function Row(serial: string, state: string): string
  {
    serial + "\t" + state
  }

  function Rows(devices: seq<(string, string)>): seq<string>
  {
    seq(|devices|, i requires 0 <= i < |devices| => Row(devices[i].0, devices[i].1))
  }

  /** The output of `adb devices` for the given (serial, state) pairs: the header, a row per device and an empty line. */
  function DevicesListing(devices: seq<(string, string)>): string
  {
    PyStr.Join([DevicesHeader] + Rows(devices) + [""], '\n')
  }

  /** A piece without the separator splits into itself. */
  lemma SplitWhole(a: string, sep: char)
    requires sep !in a
    ensures PyStr.Split(a, sep) == [a]
  {
    PyStr.SplitJoin([a], sep);
  }

  /** A row of whitespace-free fields splits into its serial and state, and is never taken for the header. */
  lemma RowShape(serial: string, state: string)
    requires PyStr.NoSpace(serial) && PyStr.NoSpace(state)
    ensures PyStr.Split(Row(serial, state), '\t') == [serial, state]
    ensures !PyStr.StartsWith(Row(serial, state), DevicesHeader)
    ensures '\n' !in Row(serial, state)
  {
    var r := Row(serial, state);
    assert forall k :: 0 <= k < |r| ==> r[k] != ' ' && r[k] != '\n' by {
      forall k | 0 <= k < |r| ensures r[k] != ' ' && r[k] != '\n' {
        if k < |serial| {
          assert r[k] == serial[k];
        } else if k > |serial| {
          assert r[k] == state[k - |serial| - 1];
        }
      }
    }
    assert '\t' !in serial && '\t' !in state by {
      assert forall k :: 0 <= k < |serial| ==> serial[k] != '\t';
      assert forall k :: 0 <= k < |state| ==> state[k] != '\t';
    }
    PyStr.SplitJoin([serial, state], '\t');
    assert PyStr.Join([serial, state], '\t') == r;
    assert DevicesHeader[4] == ' ';
  }

  lemma RowsShape(devices: seq<(string, string)>)
    requires forall i :: 0 <= i < |devices| ==> PyStr.NoSpace(devices[i].0) && PyStr.NoSpace(devices[i].1)
    ensures var rows := Rows(devices);
            forall i :: 0 <= i < |rows| ==>
              && '\n' !in rows[i] && PyStr.Split(rows[i], '\t') == [devices[i].0, devices[i].1]
              && !PyStr.StartsWith(rows[i], DevicesHeader)
  {
    forall i | 0 <= i < |devices| {
      RowShape(devices[i].0, devices[i].1);
    }
  }

  /** The lines of a listing are the header, the rows and the empty line. */
  lemma ListingLines(devices: seq<(string, string)>)
    requires forall i :: 0 <= i < |devices| ==> PyStr.NoSpace(devices[i].0) && PyStr.NoSpace(devices[i].1)
    ensures PyStr.Split(DevicesListing(devices), '\n') == [DevicesHeader] + Rows(devices) + [""]
  {
    var rows := Rows(devices);
    var parts := [DevicesHeader] + rows + [""];
    RowsShape(devices);
    assert forall i :: 0 <= i < |parts| ==> '\n' !in parts[i] by {
      forall i | 0 <= i < |parts| ensures '\n' !in parts[i] {
        if 0 < i <= |rows| {
          assert parts[i] == rows[i - 1];
        }
      }
    }
    PyStr.SplitJoin(parts, '\n');
  }

  /** For a listing of devices with whitespace-free serials and states, exactly those in state "device" are online. */
  lemma ListingOnline(devices: seq<(string, string)>, d: string)
    requires forall i :: 0 <= i < |devices| ==> PyStr.NoSpace(devices[i].0) && PyStr.NoSpace(devices[i].1)
    ensures var lines := PyStr.Split(DevicesListing(devices), '\n');
            (exists i :: 0 <= i < |lines| && ListsOnline(lines[i], d)) <==>
            exists i :: 0 <= i < |devices| && devices[i] == (d, "device")
  {
    ListingLines(devices);
    OnlineRows(devices, PyStr.Split(DevicesListing(devices), '\n'), d);
  }

  lemma OnlineRows(devices: seq<(string, string)>, lines: seq<string>, d: string)
    requires forall i :: 0 <= i < |devices| ==> PyStr.NoSpace(devices[i].0) && PyStr.NoSpace(devices[i].1)
    requires lines == [DevicesHeader] + Rows(devices) + [""]
    ensures (exists i :: 0 <= i < |lines| && ListsOnline(lines[i], d)) <==>
            exists i :: 0 <= i < |devices| && devices[i] == (d, "device")
  {
    RowsShape(devices);
    assert PyStr.StartsWith(lines[0], DevicesHeader);
    SplitWhole("", '\t');
    assert !ListsOnline(lines[|lines| - 1], d);
    if exists i :: 0 <= i < |lines| && ListsOnline(lines[i], d) {
      var i :| 0 <= i < |lines| && ListsOnline(lines[i], d);
      assert lines[i] == Rows(devices)[i - 1];
      assert devices[i - 1] == (d, "device");
    }
    if exists i :: 0 <= i < |devices| && devices[i] == (d, "device") {
      var i :| 0 <= i < |devices| && devices[i] == (d, "device");
      assert lines[i + 1] == Rows(devices)[i];
      assert ListsOnline(lines[i + 1], d);
    }
  }

  // ---------------------------------------------------------------------------
  // /proc/<pid>/cmdline

  /**
   * get_cmdline: UpdateException when /proc/<pid>/cmdline does not exist;
   * otherwise the file's NUL-separated pieces without the last one, which
   * follows the final NUL.
   */
  function Cmdline(pid: string, fileExists: bool, contents: string): (r: Result<seq<string>>)
    ensures !fileExists <==> r == Failure(UpdateError("Command line file for PID " + pid + " not found"))
    ensures r.Success? ==> |r.value| == |PyStr.Split(contents, '\0')| - 1
  {
    if !fileExists then Failure(UpdateError("Command line file for PID " + pid + " not found"))
    else
      var parts := PyStr.Split(contents, '\0');
      Success(parts[..|parts| - 1])
  }

  /** The kernel's layout of a command line: every argument followed by a NUL. */
  function NulTerminated(args: seq<string>): string
  {
    if args == [] then "" else args[0] + "\0" + NulTerminated(args[1..])
  }

  lemma {:induction false} NulTerminatedIsJoin(args: seq<string>)
    ensures NulTerminated(args) == PyStr.Join(args + [""], '\0')
  {
    if args != [] {
      NulTerminatedIsJoin(args[1..]);
      assert (args + [""])[1..] == args[1..] + [""];
    }
  }

  /** get_cmdline gives back the arguments of a command line, none of which holds a NUL. */
  lemma CmdlineOfArguments(pid: string, args: seq<string>)
    requires forall i :: 0 <= i < |args| ==> '\0' !in args[i]
    ensures Cmdline(pid, true, NulTerminated(args)) == Success(args)
  {
    NulTerminatedIsJoin(args);
    var parts := args + [""];
    assert forall i :: 0 <= i < |parts| ==> '\0' !in parts[i] by {
      forall i | 0 <= i < |parts| ensures '\0' !in parts[i] {
        if i < |args| {
          assert parts[i] == args[i];
        }
      }
    }
    PyStr.SplitJoin(parts, '\0');
    assert parts[..|parts| - 1] == args;
  }
}
