/**
  Dropping capabilities in the container (`drop_caps`): a fixed list of
  capabilities is removed from the bounding set one at a time, then all of
  them are cleared from the inheritable set in one commit.  The library and
  `prctl` answer through a parameter; the result is the trace of calls and
  the capability sets afterwards.
 */
module Capabilities {
  import opened Common

  // Linux capability numbers.
  const CAP_CHOWN: nat := 0
  const CAP_DAC_READ_SEARCH: nat := 2
  const CAP_FSETID: nat := 4
  const CAP_SETUID: nat := 7
  const CAP_LINUX_IMMUTABLE: nat := 9
  const CAP_NET_BROADCAST: nat := 11
  const CAP_NET_ADMIN: nat := 12
  const CAP_NET_RAW: nat := 13
  const CAP_IPC_LOCK: nat := 14
  const CAP_IPC_OWNER: nat := 15
  const CAP_SYS_MODULE: nat := 16
  const CAP_SYS_RAWIO: nat := 17
  const CAP_SYS_PTRACE: nat := 19
  const CAP_SYS_PACCT: nat := 20
  const CAP_SYS_ADMIN: nat := 21
  const CAP_SYS_BOOT: nat := 22
  const CAP_SYS_NICE: nat := 23
  const CAP_SYS_RESOURCE: nat := 24
  const CAP_SYS_TIME: nat := 25
  const CAP_SYS_TTY_CONFIG: nat := 26
  const CAP_MKNOD: nat := 27
  const CAP_LEASE: nat := 28
  const CAP_AUDIT_WRITE: nat := 29
  const CAP_AUDIT_CONTROL: nat := 30
  const CAP_SETFCAP: nat := 31
  const CAP_MAC_OVERRIDE: nat := 32
  const CAP_MAC_ADMIN: nat := 33
  const CAP_SYSLOG: nat := 34
  const CAP_WAKE_ALARM: nat := 35
  const CAP_BLOCK_SUSPEND: nat := 36
  const CAP_AUDIT_READ: nat := 37

  /** The capabilities taken away, in the order they are dropped. */
  const DROP_CAPS: seq<nat> := [
    CAP_NET_BROADCAST, CAP_SYS_MODULE, CAP_SYS_RAWIO, CAP_SYS_PACCT, CAP_SYS_ADMIN,
    CAP_SYS_NICE, CAP_SYS_RESOURCE, CAP_SYS_TIME, CAP_SYS_TTY_CONFIG, CAP_AUDIT_CONTROL,
    CAP_MAC_OVERRIDE, CAP_MAC_ADMIN, CAP_NET_ADMIN, CAP_SYSLOG, CAP_DAC_READ_SEARCH,
    CAP_LINUX_IMMUTABLE, CAP_IPC_LOCK, CAP_IPC_OWNER, CAP_SYS_PTRACE, CAP_SYS_BOOT,
    CAP_LEASE, CAP_WAKE_ALARM, CAP_BLOCK_SUSPEND, CAP_MKNOD, CAP_AUDIT_READ,
    CAP_AUDIT_WRITE, CAP_FSETID, CAP_SETFCAP
  ]

  /** File ownership, identity changes and raw sockets are not in the list. */
  lemma KeptCapabilities()
    ensures |DROP_CAPS| == 28
    ensures CAP_CHOWN !in DROP_CAPS && CAP_SETUID !in DROP_CAPS && CAP_NET_RAW !in DROP_CAPS
  {
    assert forall i | 0 <= i < |DROP_CAPS| :: DROP_CAPS[i] == 2 || DROP_CAPS[i] == 4 || 9 <= DROP_CAPS[i] != 13;
  }

  /** The place of a capability in the drop list, -1 for one not in it. */
  function Position(c: nat): int {
    if c == CAP_NET_BROADCAST then 0
    else if c == CAP_SYS_MODULE then 1
    else if c == CAP_SYS_RAWIO then 2
    else if c == CAP_SYS_PACCT then 3
    else if c == CAP_SYS_ADMIN then 4
    else if c == CAP_SYS_NICE then 5
    else if c == CAP_SYS_RESOURCE then 6
    else if c == CAP_SYS_TIME then 7
    else if c == CAP_SYS_TTY_CONFIG then 8
    else if c == CAP_AUDIT_CONTROL then 9
    else if c == CAP_MAC_OVERRIDE then 10
    else if c == CAP_MAC_ADMIN then 11
    else if c == CAP_NET_ADMIN then 12
    else if c == CAP_SYSLOG then 13
    else if c == CAP_DAC_READ_SEARCH then 14
    else if c == CAP_LINUX_IMMUTABLE then 15
    else if c == CAP_IPC_LOCK then 16
    else if c == CAP_IPC_OWNER then 17
    else if c == CAP_SYS_PTRACE then 18
    else if c == CAP_SYS_BOOT then 19
    else if c == CAP_LEASE then 20
    else if c == CAP_WAKE_ALARM then 21
    else if c == CAP_BLOCK_SUSPEND then 22
    else if c == CAP_MKNOD then 23
    else if c == CAP_AUDIT_READ then 24
    else if c == CAP_AUDIT_WRITE then 25
    else if c == CAP_FSETID then 26
    else if c == CAP_SETFCAP then 27
    else -1
  }

  /** The 28 capabilities of the list are all different. */
  lemma DropListDistinct()
    ensures Distinct(DROP_CAPS)
  {
    assert forall i | 0 <= i < |DROP_CAPS| :: Position(DROP_CAPS[i]) == i;
  }

  /** The process's bounding and inheritable capability sets. */
  datatype CapSets = CapSets(bounding: set<nat>, inheritable: set<nat>)

  /** A call of `drop_caps`. */
  datatype CapOp = BsetDrop(cap: nat) | GetProc | ClearInheritable(caps: seq<nat>) | SetProc

  /** The answers of `prctl` for each capability, and of `cap_get_proc`, `cap_set_flag` and `cap_set_proc`. */
  datatype CapLib = CapLib(dropOk: nat -> bool, getOk: bool, setFlagOk: bool, setProcOk: bool)

  /** The drops succeeded for the first `n` capabilities of `list`. */
  predicate DroppedUpTo(list: seq<nat>, lib: CapLib, n: nat)
    requires n <= |list|
  {
    forall j | 0 <= j < n :: lib.dropOk(list[j])
  }

  /** The capabilities of `list` whose drop was attempted within the first `n` calls and succeeded. */
  function Dropped(list: seq<nat>, lib: CapLib, n: nat): set<nat> {
    set j | 0 <= j < n && j < |list| && lib.dropOk(list[j]) :: list[j]
  }

  /**
    The body of `drop_caps` for a list of capabilities: drop each from the
    bounding set in order, stopping the process at the first failure; then
    read the process's capabilities, clear the listed ones from the
    inheritable set and commit, any failure again ending the process.
   */
  method DropList(list: seq<nat>, caps: CapSets, lib: CapLib) returns (exit: Exit, ops: seq<CapOp>, after: CapSets)
    ensures exit == Done <==> DroppedUpTo(list, lib, |list|) && lib.getOk && lib.setFlagOk && lib.setProcOk
    ensures forall i | 0 <= i < |ops| && i < |list| :: ops[i] == BsetDrop(list[i])
    ensures forall i | 0 <= i < |ops| - 1 && i < |list| :: lib.dropOk(list[i])
    ensures exit == Fatal && |ops| <= |list| ==> |ops| >= 1 && !lib.dropOk(list[|ops| - 1])
    ensures GetProc in ops <==> DroppedUpTo(list, lib, |list|)
    ensures after.bounding == caps.bounding - Dropped(list, lib, |ops|)
    ensures after.inheritable == if exit == Done then caps.inheritable - set c | c in list else caps.inheritable
    ensures forall c | c !in list ::
      (c in after.bounding <==> c in caps.bounding) && (c in after.inheritable <==> c in caps.inheritable)
  {
    ops := [];
    after := caps;
    var i := 0;
    while i < |list|
      invariant 0 <= i <= |list| && |ops| == i
      invariant forall j | 0 <= j < i :: ops[j] == BsetDrop(list[j])
      invariant DroppedUpTo(list, lib, i)
      invariant after.inheritable == caps.inheritable
      invariant after.bounding == caps.bounding - Dropped(list, lib, i)
    {
      ops := ops + [BsetDrop(list[i])];
      if !lib.dropOk(list[i]) {
        assert GetProc !in ops;
        assert Dropped(list, lib, i + 1) == Dropped(list, lib, i);
        return Fatal, ops, after;
      }
      after := after.(bounding := after.bounding - {list[i]});
      assert Dropped(list, lib, i + 1) == Dropped(list, lib, i) + {list[i]};
      i := i + 1;
    }
    assert GetProc !in ops;
    ops := ops + [GetProc];
    assert Dropped(list, lib, |ops|) == Dropped(list, lib, |list|);
    if !lib.getOk {
      return Fatal, ops, after;
    }
    ops := ops + [ClearInheritable(list)];
    assert Dropped(list, lib, |ops|) == Dropped(list, lib, |list|);
    if !lib.setFlagOk {
      return Fatal, ops, after;
    }
    ops := ops + [SetProc];
    assert Dropped(list, lib, |ops|) == Dropped(list, lib, |list|);
    if !lib.setProcOk {
      return Fatal, ops, after;
    }
    after := after.(inheritable := after.inheritable - set c | c in list);
    return Done, ops, after;
  }

  /**
    `drop_caps`: the list above.  When it returns, none of the listed
    capabilities is left in either set, and every other capability is where
    it was.
   */
  method DropCaps(caps: CapSets, lib: CapLib) returns (exit: Exit, ops: seq<CapOp>, after: CapSets)
    ensures exit == Done <==> DroppedUpTo(DROP_CAPS, lib, |DROP_CAPS|) && lib.getOk && lib.setFlagOk && lib.setProcOk
    ensures exit == Done ==> forall c | c in DROP_CAPS :: c !in after.bounding && c !in after.inheritable
    ensures exit == Fatal ==> after.inheritable == caps.inheritable
    ensures forall c | c !in DROP_CAPS ::
      (c in after.bounding <==> c in caps.bounding) && (c in after.inheritable <==> c in caps.inheritable)
  {
    exit, ops, after := DropList(DROP_CAPS, caps, lib);
  }
}
