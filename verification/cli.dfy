/**
  Command-line validation in `main`: the options `getopt` returns for the
  string "acM:C:P:I:", checked one by one.  `-a` asks to run every
  namespace, `-c` enables cgroup limits, and the value options `-M`, `-C`,
  `-P` and `-I` are accepted only after `-c`, with a non-empty argument
  whose `strtol` value lies in range.
 */
module Cli {
  import opened Decimal

  const MAX_MEMORY_ALLOCABLE: int := 0x1_0000_0000
  const MAX_CPU_SHARES: int := 100
  const MIN_PIDS: int := 10
  const MAX_PIDS: int := 32768
  const MIN_WEIGHT: int := 10
  const MAX_WEIGHT: int := 1000

  /** One result of `getopt`; an option outside the string, or one missing its argument, is `Unknown`. */
  datatype Opt = All | Cgroup | Memory(arg: string) | Cpu(arg: string) | Pids(arg: string) | Weight(arg: string) | Unknown

  /** The limits gathered; 0 for a limit not given, as `main` initialises them. */
  datatype Limits = Limits(memoryLimit: int, cpuShares: int, maxPids: int, maxWeight: int)

  /**
    How `main` ends: running the container, the usage text (exit failure),
    or an abort message (exit failure).
   */
  datatype Outcome = Run(cgroup: bool, limits: Limits) | Usage | Abort

  /** Inclusive bounds for each value option. */
  function Range(o: Opt): (r: (int, int))
    requires o.Memory? || o.Cpu? || o.Pids? || o.Weight?
  {
    match o
    case Memory(_) => (1, MAX_MEMORY_ALLOCABLE)
    case Cpu(_) => (1, MAX_CPU_SHARES)
    case Pids(_) => (MIN_PIDS, MAX_PIDS)
    case Weight(_) => (MIN_WEIGHT, MAX_WEIGHT)
  }

  /**
    Whether an option passes its checks when `-c` has (`cgroup`) or has not
    been seen before it: a value option needs `-c`, a non-empty argument and
    a value in range; an unknown option never passes.
   */
  predicate OptionAccepted(o: Opt, cgroup: bool) {
    match o
    case All => true
    case Cgroup => true
    case Unknown => false
    case _ => cgroup && o.arg != "" && Range(o).0 <= StrToL(o.arg) <= Range(o).1
  }

  /** Whether option `i` of the command line passes its checks. */
  predicate Accepted(opts: seq<Opt>, i: nat)
    requires i < |opts|
  {
    OptionAccepted(opts[i], Cgroup in opts[..i])
  }

  /** Every limit is either unset (0) or within its bounds. */
  predicate LimitsInRange(limits: Limits) {
    (limits.memoryLimit == 0 || 1 <= limits.memoryLimit <= MAX_MEMORY_ALLOCABLE) &&
    (limits.cpuShares == 0 || 1 <= limits.cpuShares <= MAX_CPU_SHARES) &&
    (limits.maxPids == 0 || MIN_PIDS <= limits.maxPids <= MAX_PIDS) &&
    (limits.maxWeight == 0 || MIN_WEIGHT <= limits.maxWeight <= MAX_WEIGHT)
  }

  /** The state after one option: carry on with the flags and limits, or leave `main`. */
  datatype Step = Next(runall: bool, cgroup: bool, limits: Limits) | Stop(out: Outcome)

  /**
    One turn of the `getopt` loop: `-a` and `-c` set their flags; a value
    option aborts without `-c`, on an empty argument or on a value out of
    range, and otherwise stores the `strtol` value; anything else prints
    the usage text.
   */
  function ApplyOption(o: Opt, runall: bool, cgroup: bool, limits: Limits): (s: Step)
    requires LimitsInRange(limits)
    ensures s.Next? <==> OptionAccepted(o, cgroup)
    ensures s.Stop? ==> (s.out == Usage <==> o == Unknown) && (s.out.Abort? <==> o != Unknown)
    ensures s.Next? ==> s.runall == (runall || o == All) && s.cgroup == (cgroup || o == Cgroup)
    ensures s.Next? ==> LimitsInRange(s.limits)
  {
    match o
    case All => Next(true, cgroup, limits)
    case Cgroup => Next(runall, true, limits)
    case Unknown => Stop(Usage)
    case _ =>
      if !cgroup || o.arg == "" then Stop(Abort)
      else
        var v := StrToL(o.arg);
        if !(Range(o).0 <= v <= Range(o).1) then Stop(Abort)
        else
          var limits' := match o
            case Memory(_) => limits.(memoryLimit := v)
            case Cpu(_) => limits.(cpuShares := v)
            case Pids(_) => limits.(maxPids := v)
            case Weight(_) => limits.(maxWeight := v);
          Next(runall, cgroup, limits')
  }

  /**
    A value whose text overflows a `long` is refused: `strtol` saturates it
    to LONG_MAX or LONG_MIN, which lie outside every option's range.
   */
  lemma OverflowRefused(o: Opt, cgroup: bool)
    requires o.Memory? || o.Cpu? || o.Pids? || o.Weight?
    requires LeadingInt(o.arg) > LONG_MAX || LeadingInt(o.arg) < LONG_MIN
    ensures !OptionAccepted(o, cgroup)
  {
  }

  /** The `getopt` loop and the `-a` gate of `main`. */
  method ParseOptions(opts: seq<Opt>) returns (out: Outcome)
    ensures out.Run? <==> (forall i | 0 <= i < |opts| :: Accepted(opts, i)) && All in opts
    ensures out.Usage? <==>
      exists i | 0 <= i < |opts| :: opts[i] == Unknown && forall j | 0 <= j < i :: Accepted(opts, j)
    ensures out.Run? ==> out.cgroup == (Cgroup in opts)
    ensures out.Run? ==> LimitsInRange(out.limits)
  {
    var runall, cgroup := false, false;
    var limits := Limits(0, 0, 0, 0);
    var i := 0;
    while i < |opts|
      invariant 0 <= i <= |opts|
      invariant forall j | 0 <= j < i :: Accepted(opts, j)
      invariant runall == (All in opts[..i]) && cgroup == (Cgroup in opts[..i])
      invariant LimitsInRange(limits)
    {
      assert opts[..i + 1] == opts[..i] + [opts[i]];
      var step := ApplyOption(opts[i], runall, cgroup, limits);
      if step.Stop? {
        out := step.out;
        assert !Accepted(opts, i);
        if opts[i] != Unknown {
          NotAllAccepted(opts, i);
        }
        return;
      }
      runall, cgroup, limits := step.runall, step.cgroup, step.limits;
      i := i + 1;
    }
    assert opts[..i] == opts;
    forall k | 0 <= k < |opts|
      ensures opts[k] != Unknown
    {
      assert Accepted(opts, k);
    }
    if runall {
      out := Run(cgroup, limits);
    } else {
      out := Abort;
    }
  }

  lemma RefusedIfUnknown(opts: seq<Opt>, k: nat)
    ensures k < |opts| && opts[k] == Unknown ==> !Accepted(opts, k)
  {
  }

  /** Once an option other than an unknown one is refused, no unknown option is the first refusal. */
  lemma NotAllAccepted(opts: seq<Opt>, i: nat)
    requires i < |opts| && !Accepted(opts, i) && opts[i] != Unknown
    requires forall j | 0 <= j < i :: Accepted(opts, j)
    ensures forall k | 0 <= k < |opts| && opts[k] == Unknown :: exists j | 0 <= j < k :: !Accepted(opts, j)
  {
    forall k | 0 <= k < |opts| && opts[k] == Unknown
      ensures exists j | 0 <= j < k :: !Accepted(opts, j)
    {
      if k > i {
        assert !Accepted(opts, i);
      } else {
        RefusedIfUnknown(opts, k);
        assert false;
      }
    }
  }
}
