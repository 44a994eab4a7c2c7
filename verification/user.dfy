/**
  The user namespace mappings the parent writes for its child: the UID map,
  `deny` to `setgroups`, then the GID map (`map_uid_gid`, `update_map`,
  `proc_setgroups_write`).  Files are named by path; `open` and `write`
  answer through a parameter, and the result is the trace of calls made.
 */
module User {
  import opened Common
  import Decimal

  const ENOENT: nat := 2

  /** The mapping written to both maps: container ids 0..65535 are host ids 100000..165535. */
  const ID_MAPPING: string := "0 100000 65536"

  /** `/proc/<pid>/<file>`, the pid printed with `%ld`. */
  function ProcPath(pid: int, file: string): string {
    "/proc/" + Decimal.FromInt(pid) + "/" + file
  }

  /** Different children have different `/proc` files. */
  lemma ProcPathInjective(pid1: int, pid2: int, file: string)
    requires ProcPath(pid1, file) == ProcPath(pid2, file)
    ensures pid1 == pid2
  {
    var d1, d2 := Decimal.FromInt(pid1), Decimal.FromInt(pid2);
    var p := ProcPath(pid1, file);
    assert p == "/proc/" + d1 + ("/" + file);
    assert p == "/proc/" + d2 + ("/" + file);
    assert |d1| == |d2|;
    assert d1 == p[6..6 + |d1|];
    assert d2 == p[6..6 + |d2|];
    Decimal.LeadingIntFromInt(pid1);
    Decimal.LeadingIntFromInt(pid2);
  }

  /** A child's UID and GID map files are different files. */
  lemma MapPathsDiffer(pid: int)
    ensures ProcPath(pid, "uid_map") != ProcPath(pid, "gid_map")
  {
    var d := Decimal.FromInt(pid);
    var u, g := ProcPath(pid, "uid_map"), ProcPath(pid, "gid_map");
    assert u[|d| + 7] == 'u';
    assert g[|d| + 7] == 'g';
  }

  /**
    The first loop of `update_map`: every comma of the mapping becomes a
    newline, so a comma-separated list of ranges becomes one range per line.
   */
  function CommasToNewlines(s: string): (r: string)
    ensures |r| == |s|
    ensures forall i | 0 <= i < |s| :: r[i] == (if s[i] == ',' then '\n' else s[i])
    ensures ',' !in r
  {
    if s == [] then []
    else [if s[0] == ',' then '\n' else s[0]] + CommasToNewlines(s[1..])
  }

  /** Rewriting the mapping a second time changes nothing. */
  lemma CommasToNewlinesIdempotent(s: string)
    ensures CommasToNewlines(CommasToNewlines(s)) == CommasToNewlines(s)
  {
    var r := CommasToNewlines(s);
    assert forall i | 0 <= i < |r| :: r[i] != ',' by {
      forall i | 0 <= i < |r| ensures r[i] != ',' { assert r[i] in r; }
    }
  }

  /** A mapping without commas is written as it is; the one `map_uid_gid` writes has none. */
  lemma MappingUnchanged()
    ensures CommasToNewlines(ID_MAPPING) == ID_MAPPING
  {
    assert forall i | 0 <= i < |ID_MAPPING| :: ID_MAPPING[i] != ',';
    WithoutCommasUnchanged(ID_MAPPING);
  }

  /** A text without commas is left as it is. */
  lemma WithoutCommasUnchanged(s: string)
    requires ',' !in s
    ensures CommasToNewlines(s) == s
  {
    var r := CommasToNewlines(s);
    forall i | 0 <= i < |s|
      ensures r[i] == s[i]
    {
      assert s[i] in s;
    }
  }

  /** A call of this module: `open(path, O_RDWR)`, `write`, `close`, or a message on stderr. */
  datatype UserOp = Open(path: string) | Write(path: string, data: string) | Close(path: string) | Report(path: string)

  /**
    The kernel's answers: the errno of `open` (0 when it succeeds) and the
    value `write` returns for the data written.
   */
  datatype UserKernel = UserKernel(openErrno: string -> nat, written: (string, string) -> int)

  /**
    `update_map(mapping, file)`: a failed `open`, or a `write` that does not
    write the whole mapping (a failed `write` returns -1, which is never the
    length), ends the process.
   */
  function UpdateMap(mapping: string, file: string, k: UserKernel): (res: (Exit, seq<UserOp>))
    ensures res.0 == Fatal <==>
      k.openErrno(file) != 0 || k.written(file, CommasToNewlines(mapping)) != |mapping|
    ensures res.0 == Done ==>
      res.1 == [Open(file), Write(file, CommasToNewlines(mapping)), Close(file)]
    ensures k.openErrno(file) != 0 ==> res == (Fatal, [Open(file)])
    ensures forall op | op in res.1 :: op.path == file
  {
    var data := CommasToNewlines(mapping);
    if k.openErrno(file) != 0 then (Fatal, [Open(file)])
    else if k.written(file, data) != |mapping| then (Fatal, [Open(file), Write(file, data)])
    else (Done, [Open(file), Write(file, data), Close(file)])
  }

  /**
    `proc_setgroups_write(pid, str)`: never ends the process.  If `open`
    fails the function returns, reporting the error unless it is ENOENT (a
    kernel without the file); a failed `write` is reported and the file
    closed all the same.
   */
  function SetgroupsWrite(pid: int, str: string, k: UserKernel): (ops: seq<UserOp>)
    ensures var path := ProcPath(pid, "setgroups");
      |ops| >= 1 && ops[0] == Open(path) &&
      (Report(path) in ops <==>
         (k.openErrno(path) != 0 && k.openErrno(path) != ENOENT) ||
         (k.openErrno(path) == 0 && k.written(path, str) == -1)) &&
      (Write(path, str) in ops <==> k.openErrno(path) == 0)
  {
    var path := ProcPath(pid, "setgroups");
    if k.openErrno(path) != 0 then
      if k.openErrno(path) != ENOENT then [Open(path), Report(path)] else [Open(path)]
    else if k.written(path, str) == -1 then [Open(path), Write(path, str), Report(path), Close(path)]
    else [Open(path), Write(path, str), Close(path)]
  }

  /** `map_uid_gid(pid)`: the UID map, then `deny` to `setgroups`, then the GID map. */
  function MapUidGid(pid: int, k: UserKernel): (res: (Exit, seq<UserOp>))
  {
    MapInOrder(ID_MAPPING, ProcPath(pid, "uid_map"), SetgroupsWrite(pid, "deny", k), ProcPath(pid, "gid_map"), k)
  }

  /** Write the UID map, then make the `setgroups` calls, then write the GID map. */
  function MapInOrder(mapping: string, uidPath: string, setgroups: seq<UserOp>, gidPath: string, k: UserKernel): (res: (Exit, seq<UserOp>))
  {
    var uid := UpdateMap(mapping, uidPath, k);
    if uid.0 == Fatal then uid
    else
      var gid := UpdateMap(mapping, gidPath, k);
      (gid.0, uid.1 + setgroups + gid.1)
  }

  lemma MapInOrderOrder(mapping: string, uidPath: string, setgroups: seq<UserOp>, gidPath: string, k: UserKernel)
    requires uidPath != gidPath && |setgroups| >= 1
    ensures var ops := MapInOrder(mapping, uidPath, setgroups, gidPath, k).1;
      Write(gidPath, CommasToNewlines(mapping)) in ops ==>
        |ops| >= 4 &&
        ops[..4] == [Open(uidPath), Write(uidPath, CommasToNewlines(mapping)), Close(uidPath), setgroups[0]]
  {
    var uid := UpdateMap(mapping, uidPath, k);
    if uid.0 == Done {
      var ops := MapInOrder(mapping, uidPath, setgroups, gidPath, k).1;
      assert ops == uid.1 + setgroups + UpdateMap(mapping, gidPath, k).1;
      assert ops[3] == setgroups[0];
    }
  }

  /**
    The order the kernel demands: the GID map is written only after the
    UID map was written in full and `setgroups` was attempted.
   */
  lemma MapOrder(pid: int, k: UserKernel)
    ensures var ops := MapUidGid(pid, k).1;
      var uidPath := ProcPath(pid, "uid_map");
      Write(ProcPath(pid, "gid_map"), CommasToNewlines(ID_MAPPING)) in ops ==>
        |ops| >= 4 &&
        ops[..4] == [Open(uidPath), Write(uidPath, CommasToNewlines(ID_MAPPING)), Close(uidPath),
                     Open(ProcPath(pid, "setgroups"))]
  {
    MapPathsDiffer(pid);
    MapInOrderOrder(ID_MAPPING, ProcPath(pid, "uid_map"), SetgroupsWrite(pid, "deny", k), ProcPath(pid, "gid_map"), k);
  }

  /** The mapping succeeds exactly when both maps are opened and written in full. */
  lemma MapSucceedsIff(pid: int, k: UserKernel)
    ensures var uidPath, gidPath := ProcPath(pid, "uid_map"), ProcPath(pid, "gid_map");
      MapUidGid(pid, k).0 == Done <==>
        k.openErrno(uidPath) == 0 && k.written(uidPath, ID_MAPPING) == |ID_MAPPING| &&
        k.openErrno(gidPath) == 0 && k.written(gidPath, ID_MAPPING) == |ID_MAPPING|
  {
    MappingUnchanged();
  }
}
