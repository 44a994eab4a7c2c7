/**
  The iptables entries the launcher appends through libiptc: the generic
  `_ipt_rule`, and the two fixed rules `masquerade` (NAT for the container
  subnet) and `forward` (accept forwarded traffic from the veth).  Struct
  sizes are parameters; the library calls are outcomes given up front and
  recorded, in order, in a trace.
 */
module Iptables {
  import opened Common
  import Cidr
  import Decimal

  /** XT_ALIGN: entries and targets are padded to 8 bytes. */
  const XT_ALIGN: nat := 8
  /** `-NF_ACCEPT - 1`, the verdict encoding of ACCEPT in a standard target. */
  const ACCEPT_VERDICT: int := -2

  function XtAlign(n: nat): (r: nat)
    ensures r % XT_ALIGN == 0 && n <= r < n + XT_ALIGN
  {
    ((n + XT_ALIGN - 1) / XT_ALIGN) * XT_ALIGN
  }

  /**
    `sizeof` of `struct ipt_entry`, `struct xt_entry_target`,
    `struct xt_standard_target` and `struct nf_nat_ipv4_multi_range_compat`.
   */
  datatype Sizes = Sizes(entry: nat, entryTarget: nat, standardTarget: nat, natRange: nat)

  /** A standard target begins with an entry target and adds the verdict. */
  predicate ValidSizes(sz: Sizes) {
    0 < sz.entry && 0 < sz.entryTarget < sz.standardTarget && 0 < sz.natRange
  }

  /** The target block that follows the match part of an entry. */
  datatype Target =
    | Masquerade(size: nat, name: string, rangesize: nat)
    | Standard(size: nat, name: string, verdict: int)

  /** The fields of `struct ipt_entry` the launcher sets; everything else stays zero from `calloc`. */
  datatype Entry = Entry(
    targetOffset: nat, nextOffset: nat,
    outiface: Option<string>, iniface: Option<string>,
    src: Option<Cidr.AddrT>, dst: Option<Cidr.AddrT>,
    target: Target)

  /** The `struct _rule` handed to `_ipt_rule`; a missing string is a NULL pointer. */
  datatype Rule = Rule(
    table: Option<string>, kind: Option<string>, chain: Option<string>,
    oface: Option<string>, iface: Option<string>,
    saddr: Option<string>, daddr: Option<string>)

  /** The libiptc calls, in the order they are made. */
  datatype IptOp = Init(table: string) | Append(chain: string, entry: Entry) | Commit | Free

  /** Whether `iptc_init`, `calloc`, `iptc_append_entry` and `iptc_commit` succeed. */
  datatype Outcomes = Outcomes(initOk: bool, callocOk: bool, appendOk: bool, commitOk: bool)

  /** What `_init_addr` needs of an address text: a slash followed by a prefix length 1..32. */
  predicate ValidCidr(s: string) {
    '/' in s && 1 <= Decimal.LeadingInt(Cidr.SplitCidr(s).1) <= 32
  }

  predicate ValidRule(rule: Rule) {
    (rule.saddr.Some? ==> ValidCidr(rule.saddr.value)) &&
    (rule.daddr.Some? ==> ValidCidr(rule.daddr.value))
  }

  /**
    The entry `_ipt_rule` builds for a rule with table, type and chain
    present: the interfaces copied, each address given read by
    `_init_addr`, and a MASQUERADE target with one range for the type
    "MASQUERADE", an ACCEPT standard target for any other, named by the type.
   */
  function RuleEntry(rule: Rule, sz: Sizes, pton: string -> nat): (e: Entry)
    requires rule.kind.Some? && ValidRule(rule)
    ensures e.outiface == rule.oface && e.iniface == rule.iface
    ensures e.src.Some? <==> rule.saddr.Some?
    ensures e.dst.Some? <==> rule.daddr.Some?
    ensures rule.saddr.Some? ==> e.src.value == Cidr.InitAddr(rule.saddr.value, pton)
    ensures rule.daddr.Some? ==> e.dst.value == Cidr.InitAddr(rule.daddr.value, pton)
    ensures e.target.Masquerade? <==> rule.kind.value == "MASQUERADE"
    ensures e.target.name == rule.kind.value
    ensures e.target.Masquerade? ==>
      e.target.size == XtAlign(sz.entryTarget) + XtAlign(sz.natRange) && e.target.rangesize == 1
    ensures e.target.Standard? ==>
      e.target.size == XtAlign(sz.standardTarget) && e.target.verdict == ACCEPT_VERDICT
  {
    var masq := rule.kind.value == "MASQUERADE";
    var targetOffset := XtAlign(sz.entry);
    var totalLen := targetOffset + XtAlign(sz.standardTarget) + (if masq then XtAlign(sz.natRange) else 0);
    Entry(targetOffset, totalLen, rule.oface, rule.iface,
          if rule.saddr.Some? then Some(Cidr.InitAddr(rule.saddr.value, pton)) else None,
          if rule.daddr.Some? then Some(Cidr.InitAddr(rule.daddr.value, pton)) else None,
          if masq then Masquerade(XtAlign(sz.entryTarget) + XtAlign(sz.natRange), rule.kind.value, 1)
          else Standard(XtAlign(sz.standardTarget), rule.kind.value, ACCEPT_VERDICT))
  }

  /**
    The library calls for one entry once the handle exists: append, then
    commit only if the append succeeded, then free; -1 on either failure.
   */
  function AppendAndCommit(table: string, chain: string, e: Entry, lib: Outcomes): (res: (int, seq<IptOp>))
    ensures res.0 == 0 <==> lib.initOk && lib.callocOk && lib.appendOk && lib.commitOk
    ensures res.0 == 0 || res.0 == -1
  {
    if !lib.initOk then (-1, [Init(table)])
    else if !lib.callocOk then (-1, [Init(table)])
    else if !lib.appendOk then (-1, [Init(table), Append(chain, e), Free])
    else (if lib.commitOk then 0 else -1, [Init(table), Append(chain, e), Commit, Free])
  }

  /**
    `_ipt_rule(rule)`: -1 with no library call when the table, type or chain
    is missing; -1 after `iptc_init` alone when the handle or the entry
    cannot be had, before any address is read; otherwise the entry is built
    and appended to the chain.  Only a rule that gets that far needs
    addresses `_init_addr` can read.
   */
  function IptRule(rule: Rule, sz: Sizes, lib: Outcomes, pton: string -> nat): (res: (int, seq<IptOp>))
    requires rule.table.Some? && rule.kind.Some? && rule.chain.Some? && lib.initOk && lib.callocOk ==> ValidRule(rule)
    ensures rule.table.None? || rule.kind.None? || rule.chain.None? ==> res == (-1, [])
    ensures rule.table.Some? && rule.kind.Some? && rule.chain.Some? && !(lib.initOk && lib.callocOk) ==>
      res == (-1, [Init(rule.table.value)])
    ensures res.0 == 0 <==>
      rule.table.Some? && rule.kind.Some? && rule.chain.Some? &&
      lib.initOk && lib.callocOk && lib.appendOk && lib.commitOk
    ensures forall i | 0 <= i < |res.1| :: res.1[i].Append? ==>
      res.1[i] == Append(rule.chain.value, RuleEntry(rule, sz, pton))
  {
    if rule.table.None? || rule.kind.None? || rule.chain.None? then (-1, [])
    else if !lib.initOk || !lib.callocOk then (-1, [Init(rule.table.value)])
    else AppendAndCommit(rule.table.value, rule.chain.value, RuleEntry(rule, sz, pton), lib)
  }

  /** Every trace the library calls can leave: what is committed was appended first, and the entry is freed once made. */
  lemma AppendAndCommitTrace(table: string, chain: string, e: Entry, lib: Outcomes)
    ensures var (r, ops) := AppendAndCommit(table, chain, e, lib);
      |ops| >= 1 && ops[0] == Init(table) &&
      (Commit in ops <==> lib.initOk && lib.callocOk && lib.appendOk) &&
      (Commit in ops ==> |ops| >= 3 && ops[1] == Append(chain, e) && ops[2] == Commit) &&
      (Free in ops <==> lib.initOk && lib.callocOk) &&
      (forall i | 0 <= i < |ops| :: ops[i].Append? ==> ops[i] == Append(chain, e))
  {
  }

  /**
    The layout of a built entry: both offsets 8-aligned, the target begins
    after the fixed part, and it ends within the entry; a standard target
    fills the rest exactly, a MASQUERADE target leaves the difference
    between the two target header sizes as slack.
   */
  lemma RuleEntryLayout(rule: Rule, sz: Sizes, pton: string -> nat)
    requires rule.kind.Some? && ValidRule(rule) && ValidSizes(sz)
    ensures var e := RuleEntry(rule, sz, pton);
      e.targetOffset == XtAlign(sz.entry) &&
      e.nextOffset == XtAlign(sz.entry) + XtAlign(sz.standardTarget) +
                      (if rule.kind.value == "MASQUERADE" then XtAlign(sz.natRange) else 0) &&
      e.targetOffset % XT_ALIGN == 0 && e.nextOffset % XT_ALIGN == 0 &&
      sz.entry <= e.targetOffset < e.nextOffset &&
      e.targetOffset + e.target.size <= e.nextOffset &&
      (e.target.Standard? ==> e.targetOffset + e.target.size == e.nextOffset && e.target.verdict == ACCEPT_VERDICT) &&
      (e.target.Masquerade? ==>
         e.nextOffset - (e.targetOffset + e.target.size) == XtAlign(sz.standardTarget) - XtAlign(sz.entryTarget) &&
         e.target.rangesize == 1)
  {
    var e := RuleEntry(rule, sz, pton);
    assert XtAlign(sz.entryTarget) <= XtAlign(sz.standardTarget) by {
      XtAlignMonotone(sz.entryTarget, sz.standardTarget);
    }
  }

  lemma XtAlignMonotone(a: nat, b: nat)
    requires a <= b
    ensures XtAlign(a) <= XtAlign(b)
  {
    assert (a + XT_ALIGN - 1) / XT_ALIGN <= (b + XT_ALIGN - 1) / XT_ALIGN;
  }

  /** `masquerade()`: NAT everything from 10.1.1.0/24 leaving through eth0. */
  function MasqueradeRule(sz: Sizes, lib: Outcomes, pton: string -> nat): (res: (int, seq<IptOp>))
    ensures res.0 == 0 <==> lib.initOk && lib.callocOk && lib.appendOk && lib.commitOk
  {
    var targetOffset := XtAlign(sz.entry);
    var totalLen := targetOffset + XtAlign(sz.entryTarget) + XtAlign(sz.natRange);
    var e := Entry(targetOffset, totalLen, Some("eth0"), None,
                   Some(Cidr.AddrT(pton("10.1.1.0"), Cidr.PrefixMask(24))), None,
                   Masquerade(XtAlign(sz.entryTarget) + XtAlign(sz.natRange), "MASQUERADE", 1));
    AppendAndCommit("nat", "POSTROUTING", e, lib)
  }

  /** `forward()`: accept forwarded traffic from veth0 leaving through wlp58s0. */
  function ForwardRule(sz: Sizes, lib: Outcomes, pton: string -> nat): (res: (int, seq<IptOp>))
    ensures res.0 == 0 <==> lib.initOk && lib.callocOk && lib.appendOk && lib.commitOk
  {
    var targetOffset := XtAlign(sz.entry);
    var totalLen := targetOffset + XtAlign(sz.standardTarget);
    var e := Entry(targetOffset, totalLen, Some("wlp58s0"), Some("veth0"), None, None,
                   Standard(XtAlign(sz.standardTarget), "ACCEPT", ACCEPT_VERDICT));
    AppendAndCommit("filter", "FORWARD", e, lib)
  }

  /** `forward()` is `_ipt_rule` on the rule it spells out by hand. */
  lemma ForwardIsIptRule(sz: Sizes, lib: Outcomes, pton: string -> nat)
    ensures ForwardRule(sz, lib, pton) ==
      IptRule(Rule(Some("filter"), Some("ACCEPT"), Some("FORWARD"), Some("wlp58s0"), Some("veth0"), None, None),
              sz, lib, pton)
  {
  }

  /**
    `masquerade()` builds the entry `_ipt_rule` builds for the same rule,
    except that its entry is shorter: it sizes the target with the plain
    entry-target header where `_ipt_rule` uses the standard target's, so its
    target ends the entry exactly.
   */
  lemma MasqueradeVersusIptRule(sz: Sizes, lib: Outcomes, pton: string -> nat)
    requires lib.initOk && lib.callocOk
    ensures var rule := Rule(Some("nat"), Some("MASQUERADE"), Some("POSTROUTING"), Some("eth0"), None,
                             Some("10.1.1.0/24"), None);
      ValidRule(rule) &&
      var m := MasqueradeRule(sz, lib, pton).1[1].entry;
      var g := IptRule(rule, sz, lib, pton).1[1].entry;
      m == g.(nextOffset := m.nextOffset) &&
      g.nextOffset - m.nextOffset == XtAlign(sz.standardTarget) - XtAlign(sz.entryTarget) &&
      m.targetOffset + m.target.size == m.nextOffset
  {
    MasqueradeSource(pton);
  }

  /** The source prefix of `masquerade()` read by `_init_addr`. */
  lemma MasqueradeSource(pton: string -> nat)
    ensures ValidCidr("10.1.1.0/24")
    ensures Cidr.InitAddr("10.1.1.0/24", pton) == Cidr.AddrT(pton("10.1.1.0"), Cidr.PrefixMask(24))
  {
    Cidr.InitAddrOfJoin("10.1.1.0", 24, pton);
    assert Decimal.FromInt(24) == "24" by {
      Decimal.DecimalUnique("24", 24);
    }
    assert "10.1.1.0" + "/" + "24" == "10.1.1.0/24";
  }
}
