/**
  The system call filter installed in the container (`sys_filter`): every
  call is allowed except those that match one of twelve rules, which kill
  the process.  The rules forbid making files set-user-ID or set-group-ID,
  creating user namespaces, the kernel keyring calls and `ptrace`.
 */
module Seccomp {
  import opened Common

  /** The system calls the rules name; any other call is `OtherCall`. */
  datatype Sysno = Chmod | Fchmod | Fchmodat | Unshare | Clone | Keyctl | AddKey | RequestKey | Ptrace | Ioctl | OtherCall(nr: nat)

  /** A system call as the filter sees it: its number and six 64-bit arguments. */
  datatype Call = Call(nr: Sysno, args: seq<bv64>)

  predicate ValidCall(c: Call) {
    |c.args| == 6
  }

  const S_ISUID: bv64 := 0x800
  const S_ISGID: bv64 := 0x400
  const CLONE_NEWUSER: bv64 := 0x1000_0000

  /** `SCMP_CMP_MASKED_EQ` on one argument: the argument masked equals the datum. */
  datatype MaskedEq = MaskedEq(arg: nat, mask: bv64, datum: bv64)

  /** A rule with action `SCMP_ACT_KILL_PROCESS`: a call number and at most one comparison. */
  datatype Rule = Rule(nr: Sysno, cmp: Option<MaskedEq>)

  datatype Action = Allow | KillProcess

  /** The rules in the order `sys_filter` adds them; the `ioctl` rule is commented out in the source. */
  const RULES: seq<Rule> := [
    Rule(Chmod, Some(MaskedEq(1, S_ISUID, S_ISUID))),
    Rule(Chmod, Some(MaskedEq(1, S_ISGID, S_ISGID))),
    Rule(Fchmod, Some(MaskedEq(1, S_ISUID, S_ISUID))),
    Rule(Fchmod, Some(MaskedEq(1, S_ISGID, S_ISGID))),
    Rule(Fchmodat, Some(MaskedEq(2, S_ISUID, S_ISUID))),
    Rule(Fchmodat, Some(MaskedEq(2, S_ISGID, S_ISGID))),
    Rule(Unshare, Some(MaskedEq(0, CLONE_NEWUSER, CLONE_NEWUSER))),
    Rule(Clone, Some(MaskedEq(0, CLONE_NEWUSER, CLONE_NEWUSER))),
    Rule(Keyctl, None),
    Rule(AddKey, None),
    Rule(RequestKey, None),
    Rule(Ptrace, None)
  ]

  predicate Matches(r: Rule, c: Call)
    requires ValidCall(c) && (r.cmp.Some? ==> r.cmp.value.arg < 6)
  {
    r.nr == c.nr && (r.cmp.Some? ==> c.args[r.cmp.value.arg] & r.cmp.value.mask == r.cmp.value.datum)
  }

  predicate WellFormedRules(rules: seq<Rule>) {
    forall i | 0 <= i < |rules| :: rules[i].cmp.Some? ==> rules[i].cmp.value.arg < 6
  }

  /** The first rule a call matches, scanning in order. */
  function FirstMatch(rules: seq<Rule>, c: Call): (m: Option<nat>)
    requires ValidCall(c) && WellFormedRules(rules)
    ensures m.Some? ==> m.value < |rules| && Matches(rules[m.value], c)
    ensures m.Some? ==> forall j | 0 <= j < m.value :: !Matches(rules[j], c)
    ensures m.None? ==> forall j | 0 <= j < |rules| :: !Matches(rules[j], c)
  {
    if rules == [] then None
    else if Matches(rules[0], c) then Some(0)
    else
      var rest := FirstMatch(rules[1..], c);
      if rest.None? then None else Some(rest.value + 1)
  }

  /** Some rule of `rules` matches the call. */
  predicate MatchesSome(rules: seq<Rule>, c: Call)
    requires ValidCall(c) && WellFormedRules(rules)
  {
    exists i | 0 <= i < |rules| :: Matches(rules[i], c)
  }

  /** The filter's verdict: kill on any matching rule, otherwise the default action, allow. */
  function Decide(c: Call): (a: Action)
    requires ValidCall(c)
    ensures a == KillProcess <==> MatchesSome(RULES, c)
  {
    if FirstMatch(RULES, c).Some? then KillProcess else Allow
  }

  /** The mode bits that make a file run with its owner's or group's identity. */
  predicate SetsIdBits(mode: bv64) {
    mode & S_ISUID != 0 || mode & S_ISGID != 0
  }

  /** What the filter is meant to forbid, stated call by call. */
  predicate Forbidden(c: Call)
    requires ValidCall(c)
  {
    match c.nr
    case Chmod => SetsIdBits(c.args[1])
    case Fchmod => SetsIdBits(c.args[1])
    case Fchmodat => SetsIdBits(c.args[2])
    case Unshare => c.args[0] & CLONE_NEWUSER != 0
    case Clone => c.args[0] & CLONE_NEWUSER != 0
    case Keyctl => true
    case AddKey => true
    case RequestKey => true
    case Ptrace => true
    case _ => false
  }

  /** A single-bit masked equality holds exactly when the bit is set. */
  lemma SingleBit(x: bv64, bit: bv64)
    requires bit == S_ISUID || bit == S_ISGID || bit == CLONE_NEWUSER
    ensures (x & bit == bit) <==> (x & bit != 0)
  {
  }

  /** Every rule matches only forbidden calls. */
  lemma RuleForbids(i: nat, c: Call)
    requires ValidCall(c) && i < |RULES|
    ensures Matches(RULES[i], c) ==> Forbidden(c)
  {
    if Matches(RULES[i], c) {
      var r := RULES[i];
      if r.cmp.Some? {
        var m := r.cmp.value;
        assert m.mask == m.datum;
        assert m.mask == S_ISUID || m.mask == S_ISGID || m.mask == CLONE_NEWUSER;
        SingleBit(c.args[m.arg], m.mask);
        assert c.args[m.arg] & m.mask != 0;
        assert m.arg == (if r.nr == Fchmodat then 2 else if r.nr == Unshare || r.nr == Clone then 0 else 1);
      }
    }
  }

  /** Every forbidden call matches some rule. */
  lemma ForbiddenMatches(c: Call) returns (i: nat)
    requires ValidCall(c) && Forbidden(c)
    ensures i < |RULES| && Matches(RULES[i], c)
  {
    if c.nr == Chmod || c.nr == Fchmod || c.nr == Fchmodat {
      i := ModeRuleMatches(c);
    } else {
      i := OtherRuleMatches(c);
    }
  }

  lemma ModeRuleMatches(c: Call) returns (i: nat)
    requires ValidCall(c) && Forbidden(c) && (c.nr == Chmod || c.nr == Fchmod || c.nr == Fchmodat)
    ensures i < |RULES| && Matches(RULES[i], c)
  {
    var a := if c.nr == Fchmodat then 2 else 1;
    var base := if c.nr == Chmod then 0 else if c.nr == Fchmod then 2 else 4;
    SingleBit(c.args[a], S_ISUID);
    SingleBit(c.args[a], S_ISGID);
    if c.args[a] & S_ISUID != 0 {
      i := base;
    } else {
      i := base + 1;
    }
  }

  lemma OtherRuleMatches(c: Call) returns (i: nat)
    requires ValidCall(c) && Forbidden(c) && !(c.nr == Chmod || c.nr == Fchmod || c.nr == Fchmodat)
    ensures i < |RULES| && Matches(RULES[i], c)
  {
    SingleBit(c.args[0], CLONE_NEWUSER);
    match c.nr
    case Unshare => i := 6;
    case Clone => i := 7;
    case Keyctl => i := 8;
    case AddKey => i := 9;
    case RequestKey => i := 10;
    case Ptrace => i := 11;
  }

  /** The filter kills a call exactly when it is forbidden; everything else, `ioctl` included, is allowed. */
  lemma DecideIffForbidden(c: Call)
    requires ValidCall(c)
    ensures Decide(c) == KillProcess <==> Forbidden(c)
    ensures c.nr.Ioctl? || c.nr.OtherCall? ==> Decide(c) == Allow
  {
    forall i | 0 <= i < |RULES|
      ensures Matches(RULES[i], c) ==> Forbidden(c)
    {
      RuleForbids(i, c);
    }
    SomeMatchForbidden(RULES, c);
    if Forbidden(c) {
      var i := ForbiddenMatches(c);
      assert MatchesSome(RULES, c);
    }
  }

  lemma SomeMatchForbidden(rules: seq<Rule>, c: Call)
    requires ValidCall(c) && WellFormedRules(rules)
    requires forall i | 0 <= i < |rules| :: Matches(rules[i], c) ==> Forbidden(c)
    ensures MatchesSome(rules, c) ==> Forbidden(c)
  {
  }

  /** A call of the filter set-up: `seccomp_init`, one `seccomp_rule_add` per rule, `seccomp_load`. */
  datatype FilterOp = Init | AddRule(rule: Rule) | Load

  /** libseccomp's answers: whether the context is created, whether rule `i` is added, whether the load succeeds. */
  datatype FilterLib = FilterLib(initOk: bool, addOk: nat -> bool, loadOk: bool)

  /**
    `sys_filter`: create the context, add the rules in order, stopping at
    the first that fails, and load the filter only once every rule was
    added.  Any failure ends the process.
   */
  method SysFilter(lib: FilterLib) returns (exit: Exit, ops: seq<FilterOp>)
    ensures exit == Done <==> lib.initOk && (forall i | 0 <= i < |RULES| :: lib.addOk(i)) && lib.loadOk
    ensures Load in ops <==> lib.initOk && forall i | 0 <= i < |RULES| :: lib.addOk(i)
    ensures |ops| >= 1 && ops[0] == Init
    ensures forall i | 1 <= i < |ops| && i <= |RULES| :: ops[i] == AddRule(RULES[i - 1])
    ensures forall i | 0 <= i < |ops| - 2 && i < |RULES| :: lib.addOk(i)
    ensures exit == Fatal && lib.initOk && 2 <= |ops| <= |RULES| + 1 ==> !lib.addOk(|ops| - 2)
    ensures !lib.initOk ==> ops == [Init]
    ensures lib.initOk ==> |ops| >= 2
    ensures Load in ops ==> |ops| == |RULES| + 2 && ops[|RULES| + 1] == Load
    ensures |ops| <= |RULES| + 2
  {
    ops := [Init];
    if !lib.initOk {
      return Fatal, ops;
    }
    var i := 0;
    while i < |RULES|
      invariant 0 <= i <= |RULES| && |ops| == i + 1 && ops[0] == Init
      invariant forall j | 1 <= j < |ops| :: ops[j] == AddRule(RULES[j - 1])
      invariant forall j | 0 <= j < i :: lib.addOk(j)
    {
      ops := ops + [AddRule(RULES[i])];
      if !lib.addOk(i) {
        assert Load !in ops;
        return Fatal, ops;
      }
      i := i + 1;
    }
    assert Load !in ops;
    ops := ops + [Load];
    if !lib.loadOk {
      return Fatal, ops;
    }
    return Done, ops;
  }
}
