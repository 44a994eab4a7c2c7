/**
  The cgroup limits handed to the container (`init_resources`): each limit
  is kept as the decimal text later written to its cgroup file, either the
  requested value or a default, and the CPU limit is given as a percentage
  and stored as a share of 1024.
 */
module Cgroup {
  import opened Common
  import opened Decimal

  /** Defaults when a limit is not requested: 1 GiB of memory, 256 shares, 64 tasks, weight 10. */
  const MEMORY: string := "1073741824"
  const SHARES: string := "256"
  const PIDS: string := "64"
  const WEIGHT: string := "10"

  /** Full CPU is 1024 shares; a percentage is rescaled to that chunk. */
  const CPU_SHARES_CHUNK: nat := 0x400

  /** `struct cgroup_args`: which limits were requested, and the text of each. */
  datatype CgroupArgs = CgroupArgs(
    hasMaxPids: bool, hasIoWeight: bool, hasMemoryLimit: bool, hasCpuShares: bool,
    maxPids: string, ioWeight: string, memoryLimit: string, cpuShares: string)

  /** The default texts are the decimal renderings of their values. */
  lemma DefaultsAreDecimal()
    ensures IsDecimalOf(PIDS, 64) && IsDecimalOf(WEIGHT, 10) && IsDecimalOf(SHARES, 256)
    ensures IsDecimalOf(MEMORY, 0x4000_0000)
  {
    SmallDefaults();
    SharesDefault();
    MemoryDefault();
  }

  lemma SmallDefaults()
    ensures IsDecimalOf(PIDS, 64) && IsDecimalOf(WEIGHT, 10)
  {
    assert ValueOf("6") == 6 && ValueOf("1") == 1;
    ValueOfSnoc("6", '4', PIDS);
    ValueOfSnoc("1", '0', WEIGHT);
  }

  lemma SharesDefault()
    ensures IsDecimalOf(SHARES, 256)
  {
    assert ValueOf("2") == 2;
    ValueOfSnoc("2", '5', "25");
    ValueOfSnoc("25", '6', SHARES);
  }

  lemma MemoryDefault()
    ensures IsDecimalOf(MEMORY, 0x4000_0000)
  {
    MemoryHigh();
    ValueOfSnoc("10737", '4', "107374");
    ValueOfSnoc("107374", '1', "1073741");
    MemoryLow();
  }

  lemma MemoryLow()
    requires AllDigits("1073741") && ValueOf("1073741") == 1073741
    ensures AllDigits(MEMORY) && ValueOf(MEMORY) == 0x4000_0000
  {
    ValueOfSnoc("1073741", '8', "10737418");
    ValueOfSnoc("10737418", '2', "107374182");
    ValueOfSnoc("107374182", '4', MEMORY);
  }

  lemma MemoryHigh()
    ensures AllDigits("10737") && ValueOf("10737") == 10737
  {
    assert ValueOf("1") == 1;
    ValueOfSnoc("1", '0', "10");
    ValueOfSnoc("10", '7', "107");
    ValueOfSnoc("107", '3', "1073");
    ValueOfSnoc("1073", '7', "10737");
  }

  /** Shares for a CPU percentage, with C's `long` arithmetic (division rounds toward zero). */
  function SharesOf(percent: int): (shares: int)
    ensures 1 <= percent <= 100 ==> 10 <= shares <= CPU_SHARES_CHUNK
    ensures percent >= 0 ==> shares * 100 <= percent * 1024 < shares * 100 + 100
  {
    TruncDiv(percent * CPU_SHARES_CHUNK, 100)
  }

  /** A larger percentage never yields fewer shares. */
  lemma SharesMonotone(p: int, q: int)
    requires 0 <= p <= q
    ensures SharesOf(p) <= SharesOf(q)
  {
  }

  /** The decimal text of the requested value, or the default when not requested. */
  function Setting(flag: bool, value: int, default: string): (s: string)
  {
    if flag then FromInt(value) else default
  }

  /**
    `init_resources`: nothing without the cgroup flag; otherwise the four
    flags are copied and each limit is the decimal text of the requested
    value or its default.
   */
  function InitResources(cgroupFlag: bool, pidsFlag: bool, memoryFlag: bool, weightFlag: bool, cpuSharesFlag: bool,
                         maxPids: int, memoryLimit: int, maxWeight: int, cpuShares: int): (r: Option<CgroupArgs>)
    requires IsLong(maxPids) && IsLong(memoryLimit) && IsLong(maxWeight) && IsLong(cpuShares)
    requires cgroupFlag && cpuSharesFlag ==> IsLong(cpuShares * CPU_SHARES_CHUNK)
    ensures r.None? <==> !cgroupFlag
    ensures r.Some? ==>
      r.value.hasMaxPids == pidsFlag && r.value.hasIoWeight == weightFlag &&
      r.value.hasMemoryLimit == memoryFlag && r.value.hasCpuShares == cpuSharesFlag
    ensures r.Some? ==>
      IsDecimalOf(r.value.maxPids, if pidsFlag then maxPids else 64) &&
      IsDecimalOf(r.value.ioWeight, if weightFlag then maxWeight else 10) &&
      IsDecimalOf(r.value.memoryLimit, if memoryFlag then memoryLimit else 0x4000_0000) &&
      IsDecimalOf(r.value.cpuShares, if cpuSharesFlag then SharesOf(cpuShares) else 256)
  {
    DefaultsAreDecimal();
    if !cgroupFlag then None
    else
      Some(CgroupArgs(pidsFlag, weightFlag, memoryFlag, cpuSharesFlag,
                      Setting(pidsFlag, maxPids, PIDS),
                      Setting(weightFlag, maxWeight, WEIGHT),
                      Setting(memoryFlag, memoryLimit, MEMORY),
                      Setting(cpuSharesFlag, SharesOf(cpuShares), SHARES)))
  }

  /**
    Whoever reads a limit back with `strtol` gets the requested value, or
    the default's value.
   */
  lemma InitResourcesReadBack(pidsFlag: bool, memoryFlag: bool, weightFlag: bool, cpuSharesFlag: bool,
                              maxPids: int, memoryLimit: int, maxWeight: int, cpuShares: int)
    requires IsLong(maxPids) && IsLong(memoryLimit) && IsLong(maxWeight) && IsLong(cpuShares)
    requires cpuSharesFlag ==> IsLong(cpuShares * CPU_SHARES_CHUNK)
    ensures var a := InitResources(true, pidsFlag, memoryFlag, weightFlag, cpuSharesFlag,
                                   maxPids, memoryLimit, maxWeight, cpuShares).value;
      StrToL(a.maxPids) == (if pidsFlag then maxPids else 64) &&
      StrToL(a.ioWeight) == (if weightFlag then maxWeight else 10) &&
      StrToL(a.memoryLimit) == (if memoryFlag then memoryLimit else 0x4000_0000) &&
      StrToL(a.cpuShares) == (if cpuSharesFlag then SharesOf(cpuShares) else 256)
  {
    var a := InitResources(true, pidsFlag, memoryFlag, weightFlag, cpuSharesFlag,
                           maxPids, memoryLimit, maxWeight, cpuShares).value;
    ReadsBack(a.maxPids, if pidsFlag then maxPids else 64);
    ReadsBack(a.ioWeight, if weightFlag then maxWeight else 10);
    ReadsBack(a.memoryLimit, if memoryFlag then memoryLimit else 0x4000_0000);
    if cpuSharesFlag {
      assert IsLong(SharesOf(cpuShares)) by {
        if cpuShares >= 0 {
          assert SharesOf(cpuShares) * 100 <= cpuShares * 1024;
        } else {
          assert SharesOf(cpuShares) * 100 > cpuShares * 1024 - 100;
        }
      }
    }
    ReadsBack(a.cpuShares, if cpuSharesFlag then SharesOf(cpuShares) else 256);
  }

  lemma ReadsBack(s: string, x: int)
    requires IsLong(x) && IsDecimalOf(s, x)
    ensures StrToL(s) == x
  {
    DecimalUnique(s, x);
    StrToLFromInt(x);
  }

  /** Half the CPU is 512 shares and all of it 1024. */
  lemma SharesExamples()
    ensures InitResources(true, false, false, false, true, 0, 0, 0, 50).value.cpuShares == "512"
    ensures InitResources(true, false, false, false, true, 0, 0, 0, 100).value.cpuShares == "1024"
    ensures InitResources(true, false, false, false, false, 0, 0, 0, 50).value.cpuShares == "256"
  {
    assert ValueOf("5") == 5 && ValueOf("1") == 1;
    ValueOfSnoc("5", '1', "51");
    ValueOfSnoc("51", '2', "512");
    DecimalUnique("512", 512);
    ValueOfSnoc("1", '0', "10");
    ValueOfSnoc("10", '2', "102");
    ValueOfSnoc("102", '4', "1024");
    DecimalUnique("1024", 1024);
  }
}
