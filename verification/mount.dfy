/**
  Preparing the container's root filesystem and pivoting into it
  (`prepare_rootfs`, `perform_pivot_root`, `get_rootfs`).  Each procedure
  is a fixed plan of system calls run in order; the kernel's answers are a
  parameter, and the first checked call that fails ends the process.  The
  result is the trace of calls made.
 */
module Mount {
  import opened Common

  // Linux mount flags; each is a single bit, so `|` of distinct flags is their sum.
  const MS_RDONLY: nat := 1
  const MS_NOSUID: nat := 2
  const MS_NODEV: nat := 4
  const MS_NOEXEC: nat := 8
  const MS_BIND: nat := 0x1000
  const MS_REC: nat := 0x4000
  const MS_PRIVATE: nat := 0x4_0000
  const MS_SLAVE: nat := 0x8_0000
  const MS_STRICTATIME: nat := 0x100_0000
  const MNT_DETACH: nat := 2
  const S_IFCHR: nat := 0x2000
  const EEXIST: nat := 17

  /** A system call the launcher makes, with the arguments that identify it. */
  datatype MountOp =
    | GetCwd
    | Mkdir(path: string, mode: nat)
    | Mount(source: string, target: string, fstype: string, flags: nat, data: Option<string>)
    | Mknod(path: string, mode: nat, major: nat, minor: nat)
    | CreateFile(path: string)      // `fopen(path, "a")`
    | CloseFile(path: string)       // `fclose`, unchecked
    | DevFdLinks                    // `prepare_dev_fd()`
    | OpenDir(path: string)
    | Fchdir(path: string)          // `fchdir` on the descriptor opened for `path`
    | PivotRoot(newRoot: string, putOld: string)
    | Umount2(target: string, flags: nat)
    | CloseFd(path: string)         // `close`, unchecked
    | Chdir(path: string)           // unchecked

  /**
    The kernel's answers: whether each call succeeds, the errno of each
    `mkdir` (0 for success), the working directory `getcwd` reports and
    the terminal `ttyname(0)` names.
   */
  datatype Kernel = Kernel(ok: MountOp -> bool, mkdirErrno: string -> nat, cwd: Option<string>, tty: string)

  /** Whether the source carries on after `op`: a `mkdir` may fail with EEXIST. */
  predicate Succeeds(k: Kernel, op: MountOp) {
    match op
    case GetCwd => k.cwd.Some?
    case Mkdir(p, _) => k.mkdirErrno(p) == 0 || k.mkdirErrno(p) == EEXIST
    case _ => k.ok(op)
  }

  /** One call of a plan; `checked` when its failure ends the process. */
  datatype Step = Step(op: MountOp, checked: bool)

  /** The process carries on past `s`: it is unchecked or it succeeds. */
  predicate Passes(k: Kernel, s: Step) {
    !s.checked || Succeeds(k, s.op)
  }

  function Ops(plan: seq<Step>): (ops: seq<MountOp>)
    ensures |ops| == |plan| && forall i | 0 <= i < |plan| :: ops[i] == plan[i].op
  {
    if plan == [] then [] else [plan[0].op] + Ops(plan[1..])
  }

  /**
    Run a plan: every call is made in order until a checked one fails,
    which ends the process with that call last in the trace.
   */
  function Execute(plan: seq<Step>, k: Kernel): (res: (Exit, seq<MountOp>))
    ensures res.1 <= Ops(plan)
    ensures res.0 == Done ==> res.1 == Ops(plan)
    ensures res.0 == Fatal ==>
      |res.1| >= 1 && !Passes(k, plan[|res.1| - 1])
    ensures forall i | 0 <= i < |res.1| && (res.0 == Done || i < |res.1| - 1) ::
      Passes(k, plan[i])
  {
    if plan == [] then (Done, [])
    else if !Passes(k, plan[0]) then (Fatal, [plan[0].op])
    else
      var rest := Execute(plan[1..], k);
      (rest.0, [plan[0].op] + rest.1)
  }

  /** A plan whose calls are all made succeeds exactly when none of its checked calls fails. */
  lemma {:induction false} ExecuteDoneIff(plan: seq<Step>, k: Kernel)
    ensures Execute(plan, k).0 == Done <==>
      forall i | 0 <= i < |plan| :: Passes(k, plan[i])
  {
    if plan != [] {
      var rest := plan[1..];
      ExecuteDoneIff(rest, k);
      if Passes(k, plan[0]) {
        assert Execute(plan, k).0 == Execute(rest, k).0;
        if Execute(plan, k).0 == Done {
          forall i | 0 <= i < |plan|
            ensures Passes(k, plan[i])
          {
            if i > 0 {
              assert plan[i] == rest[i - 1];
            }
          }
        } else {
          var j :| 0 <= j < |rest| && !Passes(k, rest[j]);
          assert plan[j + 1] == rest[j];
        }
      }
    }
  }

  /** `get_rootfs`: the working directory with its last five characters replaced by "root_fs". */
  function GetRootfs(cwd: string): (root: string)
    requires |cwd| >= 5
    ensures |root| == |cwd| + 2
    ensures root[..|cwd| - 5] == cwd[..|cwd| - 5] && root[|cwd| - 5..] == "root_fs"
  {
    cwd[..|cwd| - 5] + "root_fs"
  }

  /** Run from the `build` directory, the root filesystem is its sibling `root_fs`. */
  lemma GetRootfsOfBuild(dir: string)
    ensures GetRootfs(dir + "build") == dir + "root_fs"
  {
    assert (dir + "build")[..|dir|] == dir;
  }

  /** An entry of `default_fs`. */
  datatype Filesystem = Filesystem(path: string, fstype: string, flags: nat, data: Option<string>)

  /** An entry of `default_devs`: `mode` is S_IFCHR with permissions 0666. */
  datatype Device = Device(path: string, mode: nat, major: nat, minor: nat)

  const DEFAULT_FS: seq<Filesystem> := [
    Filesystem("/proc", "proc", MS_NOEXEC + MS_NOSUID + MS_NODEV, None),
    Filesystem("/dev", "tmpfs", MS_NOEXEC + MS_STRICTATIME, Some("mode=755")),
    Filesystem("/dev/shm", "tmpfs", MS_NOEXEC + MS_NOSUID + MS_NODEV, Some("mode=1777,size=65536k")),
    Filesystem("/dev/mqueue", "mqueue", MS_NOEXEC + MS_NOSUID + MS_NODEV, None),
    Filesystem("/dev/pts", "devpts", MS_NOEXEC + MS_NOSUID, Some("newinstance,ptmxmode=0666,mode=620")),
    Filesystem("/sys", "sysfs", MS_NOEXEC + MS_NOSUID + MS_NODEV + MS_RDONLY, None)
  ]

  const DEFAULT_DEVS: seq<Device> := [
    Device("/dev/null", S_IFCHR + 0x1B6, 1, 3),
    Device("/dev/zero", S_IFCHR + 0x1B6, 1, 5),
    Device("/dev/full", S_IFCHR + 0x1B6, 1, 7),
    Device("/dev/tty", S_IFCHR + 0x1B6, 5, 0),
    Device("/dev/random", S_IFCHR + 0x1B6, 1, 8),
    Device("/dev/urandom", S_IFCHR + 0x1B6, 1, 9),
    Device("/dev/console", S_IFCHR + 0x1B6, 5, 1)
  ]

  /** The devices created by the device loop: every table entry but the last, the console. */
  const LOOP_DEVS: nat := |DEFAULT_DEVS| - 1

  /**
    The calls `prepare_rootfs` makes before the pivot: none is a pivot or
    an `open`, and every `mount` among them is checked and is not the
    MS_PRIVATE remount of `perform_pivot_root`.
   */
  predicate RootfsStep(s: Step) {
    !s.op.PivotRoot? && !s.op.OpenDir? && (s.op.Mount? ==> s.checked && s.op.flags != MS_PRIVATE)
  }

  /** The `mkdir` and `mount` of the first `n` filesystems of the table, under `base`. */
  function FsPlan(base: string, n: nat): (plan: seq<Step>)
    requires n <= |DEFAULT_FS|
    ensures |plan| == 2 * n
    ensures forall i | 0 <= i < n ::
      plan[2 * i] == Step(Mkdir(base + DEFAULT_FS[i].path, 0x1ED), true) &&
      plan[2 * i + 1] == Step(Mount("none", base + DEFAULT_FS[i].path, DEFAULT_FS[i].fstype,
                                    DEFAULT_FS[i].flags, DEFAULT_FS[i].data), true)
    ensures forall s | s in plan :: RootfsStep(s) && !s.op.Mknod?
  {
    if n == 0 then []
    else
      var fs := DEFAULT_FS[n - 1];
      FsPlan(base, n - 1) + [Step(Mkdir(base + fs.path, 0x1ED), true),
                             Step(Mount("none", base + fs.path, fs.fstype, fs.flags, fs.data), true)]
  }

  /**
    The filesystem loop of `prepare_rootfs` on its path buffer: each table
    path is appended with `strcat` to the root filesystem path and cut off
    again after the `mount`, so every call sees the root path plus exactly
    one table path, and the buffer ends as it began.
   */
  method MountDefaultFs(base: string) returns (plan: seq<Step>, buf: string)
    ensures plan == FsPlan(base, |DEFAULT_FS|)
    ensures buf == base
  {
    buf := base;
    plan := [];
    var i := 0;
    while i < |DEFAULT_FS|
      invariant 0 <= i <= |DEFAULT_FS|
      invariant buf == base
      invariant plan == FsPlan(base, i)
    {
      var fs := DEFAULT_FS[i];
      buf := buf + fs.path;
      plan := plan + [Step(Mkdir(buf, 0x1ED), true), Step(Mount("none", buf, fs.fstype, fs.flags, fs.data), true)];
      buf := buf[..|buf| - |fs.path|];
      i := i + 1;
    }
  }

  /** No loop device has the console's path. */
  lemma ConsoleNotLoopDevice(base: string, i: nat)
    requires i < LOOP_DEVS
    ensures base + DEFAULT_DEVS[i].path != base + "/dev/console"
  {
    var p := DEFAULT_DEVS[i].path;
    assert (base + p)[|base|..] == p;
    assert (base + "/dev/console")[|base|..] == "/dev/console";
  }

  /** Without a user namespace: `mknod` of the first `n` devices with their numbers. */
  function MknodPlan(base: string, n: nat): (plan: seq<Step>)
    requires n <= LOOP_DEVS
    ensures |plan| == n
    ensures forall i | 0 <= i < n ::
      plan[i] == Step(Mknod(base + DEFAULT_DEVS[i].path, DEFAULT_DEVS[i].mode,
                            DEFAULT_DEVS[i].major, DEFAULT_DEVS[i].minor), true)
    ensures forall s | s in plan :: RootfsStep(s) && s.op.Mknod? && s.op.path != base + "/dev/console"
  {
    if n == 0 then []
    else
      var d := DEFAULT_DEVS[n - 1];
      ConsoleNotLoopDevice(base, n - 1);
      MknodPlan(base, n - 1) + [Step(Mknod(base + d.path, d.mode, d.major, d.minor), true)]
  }

  /**
    In a user namespace: for each of the first `n` devices, a placeholder
    file with the host's device at the same path bind-mounted over it.
   */
  function BindDevPlan(base: string, n: nat): (plan: seq<Step>)
    requires n <= LOOP_DEVS
    ensures |plan| == 3 * n
    ensures forall i | 0 <= i < n ::
      plan[3 * i] == Step(CreateFile(base + DEFAULT_DEVS[i].path), true) &&
      plan[3 * i + 1] == Step(Mount(DEFAULT_DEVS[i].path, base + DEFAULT_DEVS[i].path, "bind",
                                    MS_BIND + MS_PRIVATE, Some("uid=0,gid=0,mode=0666")), true) &&
      plan[3 * i + 2] == Step(CloseFile(base + DEFAULT_DEVS[i].path), false)
    ensures forall s | s in plan :: RootfsStep(s) && !s.op.Mknod?
  {
    if n == 0 then []
    else
      var d := DEFAULT_DEVS[n - 1];
      BindDevPlan(base, n - 1) +
      [Step(CreateFile(base + d.path), true),
       Step(Mount(d.path, base + d.path, "bind", MS_BIND + MS_PRIVATE, Some("uid=0,gid=0,mode=0666")), true),
       Step(CloseFile(base + d.path), false)]
  }

  /**
    The device loop of `prepare_rootfs` on its path buffer, which it also
    leaves as it found it.  The loop stops with its index at the table's
    last entry, the console, which the console step then uses.
   */
  method CreateDevices(base: string, hasUserns: bool) returns (plan: seq<Step>, buf: string, i: nat)
    ensures plan == if hasUserns then BindDevPlan(base, LOOP_DEVS) else MknodPlan(base, LOOP_DEVS)
    ensures buf == base
    ensures i == LOOP_DEVS && DEFAULT_DEVS[i].path == "/dev/console"
  {
    buf := base;
    plan := [];
    i := 0;
    while i < LOOP_DEVS
      invariant 0 <= i <= LOOP_DEVS
      invariant buf == base
      invariant plan == if hasUserns then BindDevPlan(base, i) else MknodPlan(base, i)
    {
      var d := DEFAULT_DEVS[i];
      buf := buf + d.path;
      if hasUserns {
        plan := plan + [Step(CreateFile(buf), true),
                        Step(Mount(d.path, buf, "bind", MS_BIND + MS_PRIVATE, Some("uid=0,gid=0,mode=0666")), true),
                        Step(CloseFile(buf), false)];
      } else {
        plan := plan + [Step(Mknod(buf, d.mode, d.major, d.minor), true)];
      }
      buf := buf[..|buf| - |d.path|];
      i := i + 1;
    }
  }

  /**
    The console step for table entry `i`: a placeholder file at its path,
    the terminal bind-mounted onto it with mode 0600, then an unchecked
    close.  Called with the index the device loop ends at, it sets up
    /dev/console.
   */
  function ConsolePlan(base: string, tty: string, i: nat): (plan: seq<Step>)
    requires i < |DEFAULT_DEVS|
    ensures i == LOOP_DEVS ==>
      plan == [Step(CreateFile(base + "/dev/console"), true),
               Step(Mount(tty, base + "/dev/console", "bind", MS_BIND + MS_PRIVATE, Some("uid=0,gid=0,mode=0600")), true),
               Step(CloseFile(base + "/dev/console"), false)]
    ensures forall s | s in plan :: RootfsStep(s) && !s.op.Mknod?
  {
    var console := base + DEFAULT_DEVS[i].path;
    [Step(CreateFile(console), true),
     Step(Mount(tty, console, "bind", MS_BIND + MS_PRIVATE, Some("uid=0,gid=0,mode=0600")), true),
     Step(CloseFile(console), false)]
  }

  /**
    The devices of `prepare_rootfs`: the device loop, then the console step
    on the same buffer and index, which binds the terminal onto
    /dev/console under the root filesystem.
   */
  method SetupDevices(base: string, hasUserns: bool, tty: string) returns (plan: seq<Step>)
    ensures plan == (if hasUserns then BindDevPlan(base, LOOP_DEVS) else MknodPlan(base, LOOP_DEVS)) +
                    ConsolePlan(base, tty, LOOP_DEVS)
    ensures |plan| >= 2 &&
      plan[|plan| - 2] == Step(Mount(tty, base + "/dev/console", "bind", MS_BIND + MS_PRIVATE,
                                     Some("uid=0,gid=0,mode=0600")), true)
  {
    var buf, i;
    plan, buf, i := CreateDevices(base, hasUserns);
    plan := plan + ConsolePlan(buf, tty, i);
  }

  /** Everything `prepare_rootfs` does once it knows the root filesystem path. */
  function RootfsPlan(base: string, hasUserns: bool, tty: string): (plan: seq<Step>)
    ensures forall s | s in plan :: RootfsStep(s)
  {
    FsPlan(base, |DEFAULT_FS|) +
    (if hasUserns then BindDevPlan(base, LOOP_DEVS) else MknodPlan(base, LOOP_DEVS)) +
    ConsolePlan(base, tty, LOOP_DEVS) +
    [Step(DevFdLinks, true)]
  }

  /**
    Without a user namespace exactly the six loop devices are created with
    `mknod`, and the console never is; in a user namespace nothing is, and
    each loop device is the host's device bind-mounted onto a placeholder.
   */
  lemma DevicesByNamespace(base: string, tty: string)
    ensures forall i | 0 <= i < LOOP_DEVS ::
      Step(Mknod(base + DEFAULT_DEVS[i].path, DEFAULT_DEVS[i].mode, DEFAULT_DEVS[i].major, DEFAULT_DEVS[i].minor), true)
        in RootfsPlan(base, false, tty)
    ensures forall s | s in RootfsPlan(base, false, tty) && s.op.Mknod? :: s.op.path != base + "/dev/console"
    ensures forall s | s in RootfsPlan(base, true, tty) :: !s.op.Mknod?
    ensures forall i | 0 <= i < LOOP_DEVS ::
      Step(Mount(DEFAULT_DEVS[i].path, base + DEFAULT_DEVS[i].path, "bind", MS_BIND + MS_PRIVATE,
                 Some("uid=0,gid=0,mode=0666")), true) in RootfsPlan(base, true, tty)
  {
    var fs := FsPlan(base, |DEFAULT_FS|);
    var con := ConsolePlan(base, tty, LOOP_DEVS);
    var last := [Step(DevFdLinks, true)];
    var mk := MknodPlan(base, LOOP_DEVS);
    var bd := BindDevPlan(base, LOOP_DEVS);
    assert RootfsPlan(base, false, tty) == fs + mk + con + last;
    assert RootfsPlan(base, true, tty) == fs + bd + con + last;
    forall i | 0 <= i < LOOP_DEVS
      ensures mk[i] in RootfsPlan(base, false, tty) && bd[3 * i + 1] in RootfsPlan(base, true, tty)
    {
      assert mk[i] in mk;
      assert bd[3 * i + 1] in bd;
    }
  }

  /** `prepare_rootfs(has_userns)`: find the root filesystem, then run its plan. */
  function PrepareRootfsPlan(hasUserns: bool, k: Kernel): (plan: seq<Step>)
    requires k.cwd.Some? ==> |k.cwd.value| >= 5
    ensures forall s | s in plan :: RootfsStep(s)
  {
    [Step(GetCwd, true)] +
    (if k.cwd.Some? then RootfsPlan(GetRootfs(k.cwd.value), hasUserns, k.tty) else [])
  }

  function PrepareRootfs(hasUserns: bool, k: Kernel): (res: (Exit, seq<MountOp>))
    requires k.cwd.Some? ==> |k.cwd.value| >= 5
    ensures res.0 == Done ==> k.cwd.Some?
    ensures k.cwd.None? ==> res == (Fatal, [GetCwd])
  {
    Execute(PrepareRootfsPlan(hasUserns, k), k)
  }

  /** Remount `/` as a recursive slave, then private, then bind the new root onto itself. */
  function PivotHead(fsPath: string, checkPrivate: bool): (plan: seq<Step>)
    ensures |plan| == 3 && forall s | s in plan :: !s.op.PivotRoot? && s.op.Mount?
  {
    [Step(Mount("", "/", "", MS_SLAVE + MS_REC, Some("")), true),
     Step(Mount("", "/", "", MS_PRIVATE, Some("")), checkPrivate),
     Step(Mount(fsPath, fsPath, "bind", MS_BIND + MS_REC, Some("")), true)]
  }

  /**
    Open both roots, enter the new one, `pivot_root(".", ".")`, go back to
    the old one, make it a recursive slave and detach it, then close both
    descriptors and `chdir("/")`.
   */
  function PivotTail(fsPath: string): (plan: seq<Step>)
    ensures |plan| == 10 && plan[3].op == PivotRoot(".", ".")
    ensures forall s | s in plan :: s.op.Mount? ==> s.checked
  {
    [Step(OpenDir("/"), true),
     Step(OpenDir(fsPath), true),
     Step(Fchdir(fsPath), true),
     Step(PivotRoot(".", "."), true),
     Step(Fchdir("/"), true),
     Step(Mount("", ".", "", MS_SLAVE + MS_REC, Some("")), true),
     Step(Umount2(".", MNT_DETACH), true),
     Step(CloseFd(fsPath), false),
     Step(CloseFd("/"), false),
     Step(Chdir("/"), false)]
  }

  /**
    The calls of `perform_pivot_root`.  `checkPrivate` says whether a
    failure of the MS_PRIVATE remount ends the process.
   */
  function PivotPlan(fsPath: string, hasUserns: bool, k: Kernel, checkPrivate: bool): (plan: seq<Step>)
    requires k.cwd.Some? ==> |k.cwd.value| >= 5
    ensures checkPrivate ==> forall s | s in plan :: s.op.Mount? ==> s.checked
  {
    PivotHead(fsPath, checkPrivate) + (PrepareRootfsPlan(hasUserns, k) + PivotTail(fsPath))
  }

  /**
    `perform_pivot_root(has_userns)` as the source writes it: the MS_PRIVATE
    remount's result is compared with 1, which `mount` never returns, so its
    failure goes unnoticed.
   */
  function PerformPivotRootAsWritten(fsPath: string, hasUserns: bool, k: Kernel): (res: (Exit, seq<MountOp>))
    requires k.cwd.Some? ==> |k.cwd.value| >= 5
    ensures res.1 <= Ops(PivotPlan(fsPath, hasUserns, k, false))
  {
    Execute(PivotPlan(fsPath, hasUserns, k, false), k)
  }

  /** `perform_pivot_root(has_userns)` with a failed MS_PRIVATE remount ending the process. */
  function PerformPivotRoot(fsPath: string, hasUserns: bool, k: Kernel): (res: (Exit, seq<MountOp>))
    requires k.cwd.Some? ==> |k.cwd.value| >= 5
    ensures res.1 <= Ops(PivotPlan(fsPath, hasUserns, k, true))
    ensures res.0 == Done ==> forall i | 0 <= i < |res.1| :: res.1[i].Mount? ==> Succeeds(k, res.1[i])
  {
    var plan := PivotPlan(fsPath, hasUserns, k, true);
    CheckedMountsSucceed(plan, k);
    Execute(plan, k)
  }

  /** When every mount of a plan is checked, a completed run saw every mount succeed. */
  lemma CheckedMountsSucceed(plan: seq<Step>, k: Kernel)
    requires forall s | s in plan :: s.op.Mount? ==> s.checked
    ensures var res := Execute(plan, k);
      res.0 == Done ==> forall i | 0 <= i < |res.1| :: res.1[i].Mount? ==> Succeeds(k, res.1[i])
  {
    var res := Execute(plan, k);
    if res.0 == Done {
      forall i | 0 <= i < |res.1| && res.1[i].Mount?
        ensures Succeeds(k, res.1[i])
      {
        assert res.1[i] == plan[i].op && plan[i] in plan;
      }
    }
  }

  /**
    In any run of `front + tail` where `op` occurs in `front` nowhere, a
    trace containing `op` has all of `front` before it.
   */
  lemma RunPastFront(front: seq<Step>, tail: seq<Step>, k: Kernel, op: MountOp)
    requires forall s | s in front :: s.op != op
    ensures op in Execute(front + tail, k).1 ==> Ops(front) <= Execute(front + tail, k).1
  {
    var plan := front + tail;
    var fr, all := Ops(front), Ops(plan);
    forall i | 0 <= i < |fr|
      ensures fr[i] == all[i] && fr[i] != op
    {
      assert plan[i] == front[i] && front[i] in front;
    }
    PrefixPast(Execute(plan, k).1, all, fr, op);
  }

  /** A trace that reaches a call absent from a prefix of the plan has made every call of that prefix. */
  lemma PrefixPast<T>(ops: seq<T>, all: seq<T>, front: seq<T>, x: T)
    requires ops <= all && |front| <= |all| && forall i | 0 <= i < |front| :: front[i] == all[i] && front[i] != x
    ensures x in ops ==> front <= ops
  {
    if x in ops {
      var j :| 0 <= j < |ops| && ops[j] == x;
      assert ops[j] == all[j];
      assert front == ops[..|front|];
    }
  }

  lemma ConcatAssoc<T>(a: seq<T>, b: seq<T>, c: seq<T>)
    ensures (a + b) + c == a + (b + c)
  {
    assert forall i | 0 <= i < |a| + |b| + |c| :: ((a + b) + c)[i] == (a + (b + c))[i];
  }

  /**
    Whenever the pivot happens, the root was already made a recursive slave
    and bound onto itself, and all of `prepare_rootfs` was done, in that order.
   */
  lemma BindPrecedesPivot(fsPath: string, hasUserns: bool, k: Kernel, checkPrivate: bool)
    requires k.cwd.Some? ==> |k.cwd.value| >= 5
    ensures var ops := Execute(PivotPlan(fsPath, hasUserns, k, checkPrivate), k).1;
      PivotRoot(".", ".") in ops ==>
        Ops(PivotHead(fsPath, checkPrivate) + PrepareRootfsPlan(hasUserns, k)) <= ops
  {
    var front := PivotHead(fsPath, checkPrivate) + PrepareRootfsPlan(hasUserns, k);
    ConcatAssoc(PivotHead(fsPath, checkPrivate), PrepareRootfsPlan(hasUserns, k), PivotTail(fsPath));
    forall s | s in front
      ensures s.op != PivotRoot(".", ".")
    {
      if s in PivotHead(fsPath, checkPrivate) {
      } else {
        assert RootfsStep(s);
      }
    }
    RunPastFront(front, PivotTail(fsPath), k, PivotRoot(".", "."));
  }

  /**
    The head of `perform_pivot_root` followed by anything: with the
    MS_PRIVATE remount failing, the unchecked head goes on to the bind
    mount and the checked one stops at the remount.
   */
  lemma PrivateHeadRuns(fsPath: string, rest: seq<Step>, k: Kernel)
    requires k.ok(Mount("", "/", "", MS_SLAVE + MS_REC, Some("")))
    requires !k.ok(Mount("", "/", "", MS_PRIVATE, Some("")))
    ensures var ops := Execute(PivotHead(fsPath, false) + rest, k).1;
      |ops| >= 3 && ops[2] == Mount(fsPath, fsPath, "bind", MS_BIND + MS_REC, Some(""))
    ensures Execute(PivotHead(fsPath, true) + rest, k) ==
      (Fatal, [Mount("", "/", "", MS_SLAVE + MS_REC, Some("")), Mount("", "/", "", MS_PRIVATE, Some(""))])
  {
    var loose := PivotHead(fsPath, false) + rest;
    assert loose[1..][1..][0] == loose[2];
    var strict := PivotHead(fsPath, true) + rest;
    assert strict[0] == PivotHead(fsPath, true)[0] && Succeeds(k, strict[0].op);
    assert strict[1] == PivotHead(fsPath, true)[1] && !Succeeds(k, strict[1].op);
    assert strict[1..][0] == strict[1];
    assert Execute(strict[1..], k) == (Fatal, [strict[1].op]);
    assert Execute(strict, k) == (Fatal, [strict[0].op] + [strict[1].op]);
    assert [strict[0].op] + [strict[1].op] ==
      [Mount("", "/", "", MS_SLAVE + MS_REC, Some("")), Mount("", "/", "", MS_PRIVATE, Some(""))];
  }

  /**
    Finding: when the MS_PRIVATE remount of `/` fails, the source as written
    carries on to bind the new root, while the checked version ends the
    process right at that remount.
   */
  lemma PrivateFailureIgnored(fsPath: string, hasUserns: bool, k: Kernel)
    requires k.cwd.Some? ==> |k.cwd.value| >= 5
    requires k.ok(Mount("", "/", "", MS_SLAVE + MS_REC, Some("")))
    requires !k.ok(Mount("", "/", "", MS_PRIVATE, Some("")))
    ensures var ops := PerformPivotRootAsWritten(fsPath, hasUserns, k).1;
      |ops| >= 3 && ops[2] == Mount(fsPath, fsPath, "bind", MS_BIND + MS_REC, Some(""))
    ensures PerformPivotRoot(fsPath, hasUserns, k) ==
      (Fatal, [Mount("", "/", "", MS_SLAVE + MS_REC, Some("")), Mount("", "/", "", MS_PRIVATE, Some(""))])
  {
    var rest := PrepareRootfsPlan(hasUserns, k) + PivotTail(fsPath);
    assert PivotPlan(fsPath, hasUserns, k, false) == PivotHead(fsPath, false) + rest;
    assert PivotPlan(fsPath, hasUserns, k, true) == PivotHead(fsPath, true) + rest;
    PrivateHeadRuns(fsPath, rest, k);
  }
}
