/**
 * The pure parts of calibre's UDisks2 helper: finding a device node's mount
 * point in the mount table and undoing the table's escapes, the mount
 * options, the device name a node path resolves to, and the choice of
 * volumes of a removable USB drive from the objects UDisks2 manages.
 */
module Udisks {
  import opened Wrappers
  import opened Strings
  import opened OrderedDicts
  import PosixPath

  /** `DBusError` stands for the error reply `send` raises. */
  datatype Failure = IndexError | KeyError | TypeError | UnicodeDecodeError | DBusError

  // ---------------------------------------------------------------- mount table escapes

  /** The octal escapes the kernel writes in the mount table for space, tab, newline and backslash. */
  const EscSpace: seq<byte> := [92, 48, 52, 48]      // \040
  const EscTab: seq<byte> := [92, 48, 49, 49]        // \011
  const EscNewline: seq<byte> := [92, 48, 49, 50]    // \012
  const EscBackslash: seq<byte> := [92, 49, 51, 52]  // \134
  /** The escape `de_mangle` looks for in place of a backslash's. */
  const EscBackslashAsWritten: seq<byte> := [92, 48, 49, 51, 52]  // \0134

  /** How the kernel writes one byte of a mount point into the mount table. */
  function MangleByte(c: byte): seq<byte> {
    if c == 32 then EscSpace
    else if c == 9 then EscTab
    else if c == 10 then EscNewline
    else if c == 92 then EscBackslash
    else [c]
  }

  /** A mount point as it appears in the mount table. */
  function Mangle(b: seq<byte>): seq<byte> {
    if b == [] then [] else MangleByte(b[0]) + Mangle(b[1..])
  }

  /** The four replacements of `de_mangle`, in order, with the fourth as it is written. */
  function UnmangleAsWritten(raw: seq<byte>): (r: seq<byte>)
    ensures |r| <= |raw|
    ensures 92 !in raw ==> r == raw
  {
    Undone(raw, EscBackslashAsWritten);
    ReplaceAll(ReplaceAll(ReplaceAll(ReplaceAll(raw, EscSpace, [32]), EscTab, [9]), EscNewline, [10]), EscBackslashAsWritten, [92])
  }

  /**
   * The four replacements, the last one with the given escape for a
   * backslash, never lengthen the text and leave text without a backslash
   * as it is.
   */
  lemma Undone(raw: seq<byte>, escBackslash: seq<byte>)
    requires |escBackslash| >= 1 && escBackslash[0] == 92
    ensures var r := ReplaceAll(ReplaceAll(ReplaceAll(ReplaceAll(raw, EscSpace, [32]), EscTab, [9]), EscNewline, [10]), escBackslash, [92]);
            |r| <= |raw| && (92 !in raw ==> r == raw)
  {
    var r1 := ReplaceAll(raw, EscSpace, [32]);
    var r2 := ReplaceAll(r1, EscTab, [9]);
    var r3 := ReplaceAll(r2, EscNewline, [10]);
    ReplaceAllShorter(raw, EscSpace, [32]);
    ReplaceAllShorter(r1, EscTab, [9]);
    ReplaceAllShorter(r2, EscNewline, [10]);
    ReplaceAllShorter(r3, escBackslash, [92]);
    ReplaceAllFree(raw, EscSpace, [32]);
    ReplaceAllFree(r1, EscTab, [9]);
    ReplaceAllFree(r2, EscNewline, [10]);
    ReplaceAllFree(r3, escBackslash, [92]);
  }

  /** `de_mangle` as written: the replacements, then UTF-8 decoding. */
  function DeMangleAsWritten(raw: seq<byte>): Option<string> {
    Utf8Decode(UnmangleAsWritten(raw))
  }

  /** The four replacements with the kernel's escape for a backslash. */
  function Unmangle(raw: seq<byte>): (r: seq<byte>)
    ensures |r| <= |raw|
    ensures 92 !in raw ==> r == raw
  {
    Undone(raw, EscBackslash);
    ReplaceAll(ReplaceAll(ReplaceAll(ReplaceAll(raw, EscSpace, [32]), EscTab, [9]), EscNewline, [10]), EscBackslash, [92])
  }

  /** `de_mangle`: escapes undone, then UTF-8 decoding (`None` when that raises). */
  function DeMangle(raw: seq<byte>): Option<string> {
    Utf8Decode(Unmangle(raw))
  }

  /** A backslash in a mount point survives `de_mangle` as written as the four characters of its escape. */
  lemma DeMangleAsWrittenKeepsEscape()
    ensures Mangle([92]) == EscBackslash
    ensures UnmangleAsWritten(Mangle([92])) == EscBackslash
    ensures Unmangle(Mangle([92])) == [92]
  {
    assert Mangle([92]) == EscBackslash + [];
    var e := EscBackslash;
    assert e[..4] == e;
    ReplaceAllUnchanged(e, EscSpace, [32]);
    ReplaceAllUnchanged(e, EscTab, [9]);
    ReplaceAllUnchanged(e, EscNewline, [10]);
    ReplaceAllUnchanged(e, EscBackslashAsWritten, [92]);
    assert StartsWith(e, EscBackslash) && e[4..] == [];
  }

  /** The form of byte `c` once the escapes of the bytes in `done` have been undone. */
  function Partly(c: byte, done: set<byte>): seq<byte> {
    if c in done then [c] else MangleByte(c)
  }

  /** Two different escapes of the kernel's never start alike. */
  lemma EscapesDiffer(c: byte, b: byte)
    requires c in {32, 9, 10, 92} && b in {32, 9, 10, 92} && c != b
    ensures !StartsWith(MangleByte(c), MangleByte(b))
  {
    var u, e := MangleByte(c), MangleByte(b);
    assert u[..4] == u;
    assert u[1] != e[1] || u[2] != e[2] || u[3] != e[3];
  }

  /** One replacement pass of `de_mangle` undoes the escape of `b` in a byte's form and leaves the rest to the tail. */
  lemma UnmanglePass(c: byte, r: seq<byte>, done: set<byte>, b: byte)
    requires b in {32, 9, 10, 92} && b !in done && 92 !in done
    ensures ReplaceAll(Partly(c, done) + r, MangleByte(b), [b]) == Partly(c, done + {b}) + ReplaceAll(r, MangleByte(b), [b])
  {
    var u, e := Partly(c, done), MangleByte(b);
    ReplaceAllAppend(u, r, e, [b]);
    if c == b {
      assert StartsWith(u, e) && u[4..] == [];
    } else if c in done || c !in {32, 9, 10, 92} {
      assert u == [c];
    } else {
      EscapesDiffer(c, b);
      ReplaceAllUnchanged(u, e, [b]);
    }
  }

  /** One escaped byte comes back, whatever follows it. */
  lemma UnmangleCons(c: byte, r: seq<byte>)
    ensures Unmangle(MangleByte(c) + r) == [c] + Unmangle(r)
  {
    var r1 := ReplaceAll(r, EscSpace, [32]);
    var r2 := ReplaceAll(r1, EscTab, [9]);
    var r3 := ReplaceAll(r2, EscNewline, [10]);
    var d1, d2, d3: set<byte> := {32}, {32, 9}, {32, 9, 10};
    var s0 := MangleByte(c) + r;
    var s1 := ReplaceAll(s0, EscSpace, [32]);
    var s2 := ReplaceAll(s1, EscTab, [9]);
    var s3 := ReplaceAll(s2, EscNewline, [10]);
    assert Partly(c, {}) == MangleByte(c);
    UnmanglePass(c, r, {}, 32);
    assert {} + {32} == d1;
    assert s1 == Partly(c, d1) + r1;
    UnmanglePass(c, r1, d1, 9);
    assert d1 + {9} == d2;
    assert s2 == Partly(c, d2) + r2;
    UnmanglePass(c, r2, d2, 10);
    assert d2 + {10} == d3;
    assert s3 == Partly(c, d3) + r3;
    UnmanglePass(c, r3, d3, 92);
    assert Partly(c, d3 + {92}) == [c];
  }

  /** Undoing the escapes gives back every mount point the kernel wrote. */
  lemma {:induction false} UnmangleMangle(b: seq<byte>)
    ensures Unmangle(Mangle(b)) == b
    decreases |b|
  {
    if b == [] {
    } else {
      UnmangleCons(b[0], Mangle(b[1..]));
      UnmangleMangle(b[1..]);
      assert [b[0]] + b[1..] == b;
    }
  }

  // ---------------------------------------------------------------- node_mountpoint

  /** The mount table, each line split into its fields. */
  type MountTable = seq<seq<seq<byte>>>

  /** The mount point of the first line whose device field is the node (`None` when there is none). */
  function MountpointOf(mounts: MountTable, node: seq<byte>): Result<Option<string>, Failure> {
    if mounts == [] then Ok(None)
    else if |mounts[0]| == 0 then Err(IndexError)
    else if mounts[0][0] == node then
      if |mounts[0]| < 2 then Err(IndexError)
      else match DeMangle(mounts[0][1]) case None => Err(UnicodeDecodeError) case Some(s) => Ok(Some(s))
    else MountpointOf(mounts[1..], node)
  }

  /** `node_mountpoint`, reading the mount table line by line. */
  method NodeMountpoint(mounts: MountTable, node: seq<byte>) returns (r: Result<Option<string>, Failure>)
    ensures r == MountpointOf(mounts, node)
  {
    var i := 0;
    while i < |mounts|
      invariant 0 <= i <= |mounts| && MountpointOf(mounts[i..], node) == MountpointOf(mounts, node)
    {
      var line := mounts[i];
      assert mounts[i..][0] == line && mounts[i..][1..] == mounts[i + 1..];
      if |line| == 0 {
        return Err(IndexError);
      }
      if line[0] == node {
        if |line| < 2 {
          return Err(IndexError);
        }
        var mp := DeMangle(line[1]);
        if mp.None? {
          return Err(UnicodeDecodeError);
        }
        return Ok(Some(mp.value));
      }
      i := i + 1;
    }
    return Ok(None);
  }

  /** The first line naming the node decides, whatever later lines say. */
  lemma {:induction false} MountpointFirst(mounts: MountTable, node: seq<byte>, i: nat)
    requires i < |mounts| && |mounts[i]| >= 2 && mounts[i][0] == node
    requires forall j :: 0 <= j < i ==> |mounts[j]| >= 1 && mounts[j][0] != node
    ensures MountpointOf(mounts, node) ==
              match DeMangle(mounts[i][1]) case None => Err(UnicodeDecodeError) case Some(s) => Ok(Some(s))
    decreases i
  {
    if i > 0 {
      assert mounts[1..][i - 1] == mounts[i];
      MountpointFirst(mounts[1..], node, i - 1);
    }
  }

  /** Without a line for the node there is no mount point. */
  lemma {:induction false} MountpointNone(mounts: MountTable, node: seq<byte>)
    requires forall j :: 0 <= j < |mounts| ==> |mounts[j]| >= 1 && mounts[j][0] != node
    ensures MountpointOf(mounts, node) == Ok(None)
    decreases |mounts|
  {
    if mounts != [] {
      MountpointNone(mounts[1..], node);
    }
  }

  /** An ASCII mount point written into the table by the kernel is found as it is. */
  lemma MountpointRoundTrip(node: seq<byte>, path: seq<byte>, rest: MountTable)
    requires IsAscii(path)
    ensures MountpointOf([[node, Mangle(path)]] + rest, node) == Ok(Some(AsciiChars(path)))
  {
    UnmangleMangle(path);
    Utf8DecodeAscii(path);
    MountpointFirst([[node, Mangle(path)]] + rest, node, 0);
  }

  // ---------------------------------------------------------------- mount options and messages

  /** `basic_mount_options` for the effective user and group ids. */
  function BasicMountOptions(uid: nat, gid: nat): (r: seq<string>)
    ensures |r| == 6 && r[..4] == ["rw", "noexec", "nosuid", "nodev"]
  {
    ["rw", "noexec", "nosuid", "nodev", "uid=" + NatToString(uid), "gid=" + NatToString(gid)]
  }

  /** The options travel as one comma-separated string from which the list comes back. */
  lemma MountOptionsRoundTrip(uid: nat, gid: nat)
    ensures Split(Join(BasicMountOptions(uid, gid), ","), ',') == BasicMountOptions(uid, gid)
  {
    var opts := BasicMountOptions(uid, gid);
    forall k | 0 <= k < |opts|
      ensures ',' !in opts[k]
    {
      if k == 4 || k == 5 {
        var d := NatToString(if k == 4 then uid else gid);
        assert AllDigits(d);
        assert opts[k] == (if k == 4 then "uid=" else "gid=") + d;
      }
    }
    SplitJoin(opts, ',');
  }

  /** A D-Bus variant argument. */
  datatype Variant = VString(s: string) | VBool(b: bool)

  /** `filesystem_operation_message`'s keyword arguments: the caller's, with user interaction turned off. */
  function FilesystemOperationArgs(kw: map<string, Variant>): (r: map<string, Variant>)
    ensures r.Keys == kw.Keys + {"auth.no_user_interaction"} && r["auth.no_user_interaction"] == VBool(true)
    ensures forall k :: k in kw && k != "auth.no_user_interaction" ==> r[k] == kw[k]
  {
    kw["auth.no_user_interaction" := VBool(true)]
  }

  /** `mount`'s arguments: the basic options joined with commas, and no user interaction. */
  function MountArgs(uid: nat, gid: nat): (r: map<string, Variant>)
    ensures r.Keys == {"options", "auth.no_user_interaction"}
    ensures r["options"] == VString(Join(BasicMountOptions(uid, gid), ","))
    ensures r["auth.no_user_interaction"] == VBool(true)
  {
    FilesystemOperationArgs(map["options" := VString(Join(BasicMountOptions(uid, gid), ","))])
  }

  /** `unmount`'s arguments: forced, and no user interaction. */
  function UnmountArgs(): (r: map<string, Variant>)
    ensures r.Keys == {"force", "auth.no_user_interaction"}
    ensures r["force"] == VBool(true) && r["auth.no_user_interaction"] == VBool(true)
  {
    FilesystemOperationArgs(map["force" := VBool(true)])
  }

  /**
   * `mount`'s answer: the mount point UDisks2 replies with; when the call
   * fails, the node's mount point in the mount table (it may already be
   * mounted), and the call's own error when the node is not mounted.
   */
  function MountOutcome(reply: Result<string, Failure>, mounts: MountTable, node: seq<byte>): (r: Result<string, Failure>)
    ensures reply.Ok? ==> r == reply
    ensures reply.Err? && r.Ok? ==> MountpointOf(mounts, node) == Ok(Some(r.value))
    ensures reply.Err? && MountpointOf(mounts, node) == Ok(None) ==> r == reply
  {
    match reply
    case Ok(mp) => Ok(mp)
    case Err(e) =>
      match MountpointOf(mounts, node)
      case Err(e2) => Err(e2)
      case Ok(None) => Err(e)
      case Ok(Some(mp)) => Ok(mp)
  }

  /** A failed mount of a node the kernel already lists answers with its mount point. */
  lemma MountAlreadyMounted(e: Failure, node: seq<byte>, path: seq<byte>, rest: MountTable)
    requires IsAscii(path)
    ensures MountOutcome(Err(e), [[node, Mangle(path)]] + rest, node) == Ok(AsciiChars(path))
  {
    MountpointRoundTrip(node, path, rest);
  }

  /** A failed mount of a node the table does not list raises the call's own error. */
  lemma MountNotMounted(e: Failure, mounts: MountTable, node: seq<byte>)
    requires forall j :: 0 <= j < |mounts| ==> |mounts[j]| >= 1 && mounts[j][0] != node
    ensures MountOutcome(Err(e), mounts, node) == Err(e)
  {
    MountpointNone(mounts, node);
  }

  // ---------------------------------------------------------------- device nodes

  /** `get_device_node_path`'s treatment of the `Device` property: every NUL byte removed, then UTF-8 decoding. */
  function DeviceNodePath(raw: seq<byte>): (r: Option<string>)
    ensures r.Some? ==> '\0' !in r.value
  {
    Utf8DecodeNoNul(RemoveAll(raw, {0}));
    Utf8Decode(RemoveAll(raw, {0}))
  }

  /** Removing the NULs keeps every other byte: a path without NULs is decoded as it is. */
  lemma DeviceNodePathAscii(raw: seq<byte>)
    requires IsAscii(raw) && 0 !in raw
    ensures DeviceNodePath(raw) == Some(AsciiChars(raw))
  {
    RemoveNothing(raw, {0});
    Utf8DecodeAscii(raw);
  }

  lemma {:induction false} RemoveNothing(s: seq<byte>, drop: set<byte>)
    requires forall x :: x in s ==> x !in drop
    ensures RemoveAll(s, drop) == s
    decreases |s|
  {
    if s != [] {
      assert s[0] in s;
      assert forall x :: x in s[1..] ==> x in s;
      RemoveNothing(s[1..], drop);
      assert [s[0]] + s[1..] == s;
    }
  }

  /**
   * `device`: the last component of the resolved node path is tried first,
   * then the block devices UDisks2 lists (those whose node path could be
   * read), in order. `nodePathOf` stands for `get_device_node_path` on a
   * device name, `None` when it raises.
   */
  function DeviceName(resolved: string, nodePathOf: string -> Option<string>, blockDevices: seq<(string, string)>)
    : (r: Result<string, Failure>)
    ensures r.Err? ==> r.error == KeyError
    ensures r.Ok? ==> nodePathOf(r.value) == Some(resolved) ||
                      exists i :: 0 <= i < |blockDevices| && blockDevices[i] == (r.value, resolved)
  {
    var parts := Split(resolved, '/');
    var devname := parts[|parts| - 1];
    if nodePathOf(devname) == Some(resolved) then Ok(devname)
    else FirstWithPath(blockDevices, resolved)
  }

  function FirstWithPath(devices: seq<(string, string)>, path: string): (r: Result<string, Failure>)
    ensures r.Ok? ==> exists i :: 0 <= i < |devices| && devices[i] == (r.value, path)
    ensures r.Err? ==> r.error == KeyError && forall i :: 0 <= i < |devices| ==> devices[i].1 != path
  {
    if devices == [] then Err(KeyError)
    else if devices[0].1 == path then Ok(devices[0].0)
    else
      var r := FirstWithPath(devices[1..], path);
      assert forall i :: 1 <= i < |devices| ==> devices[i] == devices[1..][i - 1];
      r
  }

  /** The name found is one whose node path is the resolved path; `KeyError` means no device has it. */
  lemma DeviceNameSound(resolved: string, nodePathOf: string -> Option<string>, blockDevices: seq<(string, string)>)
    ensures var r := DeviceName(resolved, nodePathOf, blockDevices);
            && (r.Ok? ==> nodePathOf(r.value) == Some(resolved) || (r.value, resolved) in blockDevices)
            && (r.Err? ==> r.error == KeyError && forall i :: 0 <= i < |blockDevices| ==> blockDevices[i].1 != resolved)
  {
    var r := DeviceName(resolved, nodePathOf, blockDevices);
    if r.Ok? && nodePathOf(r.value) != Some(resolved) {
      var i :| 0 <= i < |blockDevices| && blockDevices[i] == (r.value, resolved);
    }
  }

  /** A node path whose last component names it directly is answered without looking further. */
  lemma DeviceNameDirect(dir: string, name: string, nodePathOf: string -> Option<string>, blockDevices: seq<(string, string)>)
    requires '/' !in name && nodePathOf(name) == Some(dir + "/" + name)
    ensures DeviceName(dir + "/" + name, nodePathOf, blockDevices) == Ok(name)
  {
    var p := dir + "/" + name;
    var parts := Split(p, '/');
    JoinSplit(p, '/');
    SplitPiecesFree(p, '/');
    LastPiece(p, name);
  }

  /** The last piece of a split is what follows the last separator. */
  lemma {:induction false} LastPiece(p: string, name: string)
    requires '/' !in name && EndsWith(p, "/" + name)
    ensures Split(p, '/')[|Split(p, '/')| - 1] == name
    decreases |p|
  {
    if |p| == |name| + 1 {
      assert p == "/" + name;
      assert p[1..] == name;
      SplitNoSep(name, '/');
    } else {
      var q := p[1..];
      assert q[|q| - |name| - 1..] == p[|p| - |name| - 1..];
      LastPiece(q, name);
      SplitHasTwo(q, |q| - |name| - 1);
    }
  }

  /** A sequence holding the separator splits into at least two pieces. */
  lemma {:induction false} SplitHasTwo(s: string, i: nat)
    requires i < |s| && s[i] == '/'
    ensures |Split(s, '/')| >= 2
    decreases i
  {
    if i > 0 {
      SplitHasTwo(s[1..], i - 1);
    }
  }

  // ---------------------------------------------------------------- volumes by serial

  /** The `Drive` interface's properties (`None` when missing). */
  datatype DriveProps = DriveProps(connectionBus: Option<string>, removable: Option<bool>, serial: Option<string>)

  /** The `Block` interface's properties (`None` when missing). */
  datatype BlockProps = BlockProps(drive: Option<string>, device: Option<seq<byte>>)

  /** A managed object: the interfaces it has, among those looked at. */
  datatype ManagedObject = ManagedObject(block: Option<BlockProps>, drive: Option<DriveProps>)

  datatype Volume = Volume(block: string, device: string)

  /** The object path test: `os.path.join(PATH, '/block_devices')` is `/block_devices` itself, the second part being absolute. */
  const UDisksPath: string := "/org/freedesktop/UDisks2"

  lemma JoinedTests()
    ensures PosixPath.Join2(UDisksPath, "/block_devices") == "/block_devices"
    ensures PosixPath.Join2(UDisksPath, "/drives") == "/drives"
  {
    assert StartsWith("/block_devices", "/") && StartsWith("/drives", "/");
  }

  /** A drive selected when no property is missing: a removable USB drive with the serial. */
  predicate Selected(d: Option<DriveProps>, serial: string) {
    d.Some? && d.value.connectionBus == Some("usb") && d.value.removable == Some(true) && d.value.serial == Some(serial)
  }

  /** Whether a drive is a removable USB drive with the serial, raising where a property is missing. */
  function DriveMatches(d: Option<DriveProps>, serial: string): (r: Result<bool, Failure>)
    ensures r == Ok(true) <==> Selected(d, serial)
  {
    if d.None? || d.value.connectionBus.None? then Err(TypeError)
    else if d.value.connectionBus.value != "usb" then Ok(false)
    else if d.value.removable.None? then Err(TypeError)
    else if !d.value.removable.value then Ok(false)
    else if d.value.serial.None? then Err(TypeError)
    else Ok(d.value.serial.value == serial)
  }

  /** The first loop: the block objects and the selected drives, in the order of the objects. */
  function Scan(objs: ODict<string, ManagedObject>, serial: string): Result<(seq<(string, Option<BlockProps>)>, seq<string>), Failure> {
    if objs == [] then Ok(([], []))
    else match Scan(objs[..|objs| - 1], serial)
      case Err(e) => Err(e)
      case Ok(acc) =>
        var (k, v) := objs[|objs| - 1];
        var blocks := if Contains(k, PosixPath.Join2(UDisksPath, "/block_devices")) then acc.0 + [(k, v.block)] else acc.0;
        if Contains(k, PosixPath.Join2(UDisksPath, "/drives")) then
          match DriveMatches(v.drive, serial)
          case Err(e) => Err(e)
          case Ok(sel) => Ok((blocks, if sel then acc.1 + [k] else acc.1))
        else Ok((blocks, acc.1))
  }

  /** The volume of one block object, when it belongs to one of the drives. */
  function BlockVolume(k: string, b: Option<BlockProps>, drives: seq<string>): Result<Option<Volume>, Failure> {
    if b.None? || b.value.drive.None? then Err(KeyError)
    else if b.value.drive.value !in drives then Ok(None)
    else if b.value.device.None? then Err(KeyError)
    else if !IsAscii(b.value.device.value) then Err(UnicodeDecodeError)
    else Ok(Some(Volume(k, StripSet(AsciiChars(b.value.device.value), {'\0'}))))
  }

  /** The second loop: the volumes of the blocks on the drives, in order. */
  function Volumes(blocks: seq<(string, Option<BlockProps>)>, drives: seq<string>): Result<seq<Volume>, Failure> {
    if blocks == [] then Ok([])
    else match Volumes(blocks[..|blocks| - 1], drives)
      case Err(e) => Err(e)
      case Ok(vols) =>
        match BlockVolume(blocks[|blocks| - 1].0, blocks[|blocks| - 1].1, drives)
        case Err(e) => Err(e)
        case Ok(v) => Ok(if v.Some? then vols + [v.value] else vols)
  }

  /** `find_device_vols_by_serial` over the objects `GetManagedObjects` returned. */
  method FindDeviceVolsBySerial(objs: ODict<string, ManagedObject>, serial: string) returns (r: Result<seq<Volume>, Failure>)
    ensures r == match Scan(objs, serial) case Err(e) => Err(e) case Ok(s) => Volumes(s.0, s.1)
  {
    var drives: seq<string> := [];
    var blocks: seq<(string, Option<BlockProps>)> := [];
    for i := 0 to |objs|
      invariant Scan(objs[..i], serial) == Ok((blocks, drives))
    {
      var (k, v) := objs[i];
      ghost var pre := objs[..i + 1];
      assert pre[..|pre| - 1] == objs[..i] && pre[|pre| - 1] == objs[i];
      if Contains(k, PosixPath.Join2(UDisksPath, "/block_devices")) {
        blocks := blocks + [(k, v.block)];
      }
      if Contains(k, PosixPath.Join2(UDisksPath, "/drives")) {
        var sel := DriveMatches(v.drive, serial);
        if sel.Err? {
          ScanStops(objs, i + 1, serial);
          return Err(sel.error);
        }
        if sel.value {
          drives := drives + [k];
        }
      }
    }
    assert objs[..|objs|] == objs;
    var vols: seq<Volume> := [];
    for i := 0 to |blocks|
      invariant Volumes(blocks[..i], drives) == Ok(vols)
    {
      ghost var pre := blocks[..i + 1];
      assert pre[..|pre| - 1] == blocks[..i] && pre[|pre| - 1] == blocks[i];
      var v := BlockVolume(blocks[i].0, blocks[i].1, drives);
      if v.Err? {
        VolumesStop(blocks, drives, i + 1);
        return Err(v.error);
      }
      if v.value.Some? {
        vols := vols + [v.value.value];
      }
    }
    assert blocks[..|blocks|] == blocks;
    return Ok(vols);
  }

  /** An error in the first `n` objects is the scan's error. */
  lemma {:induction false} ScanStops(objs: ODict<string, ManagedObject>, n: nat, serial: string)
    requires n <= |objs| && Scan(objs[..n], serial).Err?
    ensures Scan(objs, serial) == Scan(objs[..n], serial)
    decreases |objs| - n
  {
    if n < |objs| {
      var pre := objs[..|objs| - 1];
      assert pre[..n] == objs[..n];
      ScanStops(pre, n, serial);
    } else {
      assert objs[..n] == objs;
    }
  }

  /** An error in the first `n` blocks is the second loop's error. */
  lemma {:induction false} VolumesStop(blocks: seq<(string, Option<BlockProps>)>, drives: seq<string>, n: nat)
    requires n <= |blocks| && Volumes(blocks[..n], drives).Err?
    ensures Volumes(blocks, drives) == Volumes(blocks[..n], drives)
    decreases |blocks| - n
  {
    if n < |blocks| {
      var pre := blocks[..|blocks| - 1];
      assert pre[..n] == blocks[..n];
      VolumesStop(pre, drives, n);
    } else {
      assert blocks[..n] == blocks;
    }
  }

  /** A drive is chosen exactly when its object path names a drive and it is a removable USB drive with the serial. */
  lemma {:induction false} ScanDrives(objs: ODict<string, ManagedObject>, serial: string, k: string)
    requires Scan(objs, serial).Ok?
    ensures k in Scan(objs, serial).value.1 <==>
              exists i :: 0 <= i < |objs| && objs[i].0 == k && Contains(k, "/drives") && Selected(objs[i].1.drive, serial)
    decreases |objs|
  {
    JoinedTests();
    if objs != [] {
      var pre := objs[..|objs| - 1];
      ScanDrives(pre, serial, k);
      assert forall i :: 0 <= i < |pre| ==> objs[i] == pre[i];
      if exists i :: 0 <= i < |objs| && objs[i].0 == k && Contains(k, "/drives") && Selected(objs[i].1.drive, serial) {
        var i :| 0 <= i < |objs| && objs[i].0 == k && Contains(k, "/drives") && Selected(objs[i].1.drive, serial);
        if i < |pre| {
          assert pre[i].0 == k;
        }
      }
    }
  }

  /** Every volume is a block on one of the chosen drives, and its device has no NUL at either end. */
  lemma {:induction false} VolumesSound(blocks: seq<(string, Option<BlockProps>)>, drives: seq<string>, v: Volume)
    requires Volumes(blocks, drives).Ok? && v in Volumes(blocks, drives).value
    ensures exists i :: 0 <= i < |blocks| && blocks[i].0 == v.block && blocks[i].1.Some? &&
                        blocks[i].1.value.drive.Some? && blocks[i].1.value.drive.value in drives
    ensures v.device == [] || (v.device[0] != '\0' && v.device[|v.device| - 1] != '\0')
    decreases |blocks|
  {
    var pre := blocks[..|blocks| - 1];
    var vols := Volumes(pre, drives).value;
    var last := BlockVolume(blocks[|blocks| - 1].0, blocks[|blocks| - 1].1, drives);
    if v in vols {
      VolumesSound(pre, drives, v);
      var i :| 0 <= i < |pre| && pre[i].0 == v.block && pre[i].1.Some? &&
                pre[i].1.value.drive.Some? && pre[i].1.value.drive.value in drives;
      assert blocks[i] == pre[i];
    } else {
      assert last.value == Some(v);
      assert blocks[|blocks| - 1].0 == v.block;
    }
  }

  /** Every block on a chosen drive gives a volume. */
  lemma {:induction false} VolumesComplete(blocks: seq<(string, Option<BlockProps>)>, drives: seq<string>, i: nat)
    requires Volumes(blocks, drives).Ok? && i < |blocks|
    requires blocks[i].1.Some? && blocks[i].1.value.drive.Some? && blocks[i].1.value.drive.value in drives
    ensures exists v :: v in Volumes(blocks, drives).value && v.block == blocks[i].0
    decreases |blocks|
  {
    var pre := blocks[..|blocks| - 1];
    if i < |pre| {
      assert pre[i] == blocks[i];
      VolumesComplete(pre, drives, i);
      var v :| v in Volumes(pre, drives).value && v.block == pre[i].0;
      assert v in Volumes(blocks, drives).value;
    } else {
      var v := BlockVolume(blocks[i].0, blocks[i].1, drives).value.value;
      assert v in Volumes(blocks, drives).value;
    }
  }
}
