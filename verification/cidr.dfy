/**
  `_init_addr`: reading an IPv4 prefix written `a.b.c.d/p` into an address
  and a host-order network mask whose top `p` bits are set (section 3.1 of
  RFC 4632).  The dotted-quad parser (`inet_pton`) is a parameter.
 */
module Cidr {
  import opened Common
  import Decimal

  /** The address and mask `_init_addr` fills in; the mask in host byte order. */
  datatype AddrT = AddrT(addr: nat, mask: bv32)

  /** `strrchr(s, '/')`: the position of the last slash. */
  function LastSlash(s: string): (i: nat)
    requires '/' in s
    ensures i < |s| && s[i] == '/'
    ensures forall j | i < j < |s| :: s[j] != '/'
  {
    if s[|s| - 1] == '/' then |s| - 1
    else
      assert '/' in s[..|s| - 1] by {
        var k :| 0 <= k < |s| && s[k] == '/';
        assert s[..|s| - 1][k] == '/';
      }
      LastSlash(s[..|s| - 1])
  }

  /**
    The text before the last slash (`readdr`, cut where `ptr` begins) and the
    text after it (`prefix`, one past `ptr`).
   */
  function SplitCidr(s: string): (parts: (string, string))
    requires '/' in s
    ensures s == parts.0 + "/" + parts.1
    ensures '/' !in parts.1
  {
    var i := LastSlash(s);
    var parts := (s[..i], s[i + 1..]);
    assert s == parts.0 + "/" + parts.1;
    parts
  }

  /** Splitting at the last slash undoes joining with a slash-free suffix. */
  lemma SplitCidrJoin(a: string, p: string)
    requires '/' !in p
    ensures SplitCidr(a + "/" + p) == (a, p)
  {
    var s := a + "/" + p;
    var i := LastSlash(s);
    assert s[|a|] == '/';
    if i != |a| {
      assert false;
    }
    assert s[..i] == a && s[i + 1..] == p;
  }

  /** Bit `k` (0 = least significant) of a 32-bit word. */
  predicate BitSet(x: bv32, k: bv32)
    requires k < 32
  {
    (x >> k) & 1 == 1
  }

  /** `32 - p`, the shift count for prefix length `p`, as a 32-bit word. */
  function ShiftCount(p: int): (sh: bv32)
    requires 1 <= p <= 32
    ensures sh < 32
  {
    (32 - p) as bv32
  }

  /**
    `(0xFFFFFFFF << (32 - p)) & 0xFFFFFFFF`: the shift happens on a 32-bit
    `unsigned int`, so the bits pushed past the top are lost.  A prefix
    outside 1..32 makes the shift count 32 or more, which C leaves undefined.
   */
  function PrefixMask(p: int): (m: bv32)
    requires 1 <= p <= 32
    ensures forall k: bv32 | k < 32 :: BitSet(m, k) <==> ShiftCount(p) <= k
  {
    var m := (0xFFFF_FFFF as bv32) << (32 - p);
    MaskBits(p, m);
    m
  }

  /** The mask has exactly the bits at or above the shift count set: the top `p` bits. */
  lemma MaskBits(p: int, m: bv32)
    requires 1 <= p <= 32 && m == (0xFFFF_FFFF as bv32) << (32 - p)
    ensures forall k: bv32 | k < 32 :: BitSet(m, k) <==> ShiftCount(p) <= k
  {
    var sh := ShiftCount(p);
    assert m == (0xFFFF_FFFF as bv32) << sh;
    forall k: bv32 | k < 32
      ensures BitSet(m, k) <==> sh <= k
    {
      MaskBit(sh, k);
    }
  }

  lemma MaskBit(sh: bv32, k: bv32)
    requires sh < 32 && k < 32
    ensures BitSet((0xFFFF_FFFF as bv32) << sh, k) <==> sh <= k
  {
  }

  /** A longer prefix selects a subset of the bits a shorter one does. */
  lemma PrefixMasksNest(p: int, q: int)
    requires 1 <= p <= q <= 32
    ensures PrefixMask(p) & PrefixMask(q) == PrefixMask(p)
  {
    var a, b := ShiftCount(p), ShiftCount(q);
    assert PrefixMask(p) == (0xFFFF_FFFF as bv32) << a;
    assert PrefixMask(q) == (0xFFFF_FFFF as bv32) << b;
    ShiftsNest(a, b);
  }

  lemma ShiftsNest(a: bv32, b: bv32)
    requires b <= a < 32
    ensures ((0xFFFF_FFFF as bv32) << a) & ((0xFFFF_FFFF as bv32) << b) == (0xFFFF_FFFF as bv32) << a
  {
  }

  /**
    `_init_addr(ip)`: the address parsed from the text before the last slash
    and the mask for the prefix length `atoi` reads after it.  The source
    dereferences the result of `strrchr` unchecked, so a slash is required.
   */
  function InitAddr(ip: string, pton: string -> nat): (a: AddrT)
    requires '/' in ip
    requires 1 <= Decimal.LeadingInt(SplitCidr(ip).1) <= 32
    ensures a.addr == pton(SplitCidr(ip).0)
    ensures forall k: bv32 | k < 32 :: BitSet(a.mask, k) <==> ShiftCount(Decimal.LeadingInt(SplitCidr(ip).1)) <= k
  {
    var (text, prefix) := SplitCidr(ip);
    AddrT(pton(text), PrefixMask(Decimal.LeadingInt(prefix)))
  }

  /** Reading back `a/p`, with `p` printed in decimal, gives the address of `a` and the mask of `p`. */
  lemma InitAddrOfJoin(a: string, p: int, pton: string -> nat)
    requires 1 <= p <= 32
    ensures '/' in a + "/" + Decimal.FromInt(p)
    ensures SplitCidr(a + "/" + Decimal.FromInt(p)) == (a, Decimal.FromInt(p))
    ensures Decimal.LeadingInt(Decimal.FromInt(p)) == p
    ensures InitAddr(a + "/" + Decimal.FromInt(p), pton) == AddrT(pton(a), PrefixMask(p))
  {
    var s := a + "/" + Decimal.FromInt(p);
    assert s[|a|] == '/';
    assert '/' !in Decimal.FromInt(p) by {
      Decimal.LeadingIntFromInt(p);
      assert forall i | 0 <= i < |Decimal.FromInt(p)| :: Decimal.IsDigit(Decimal.FromInt(p)[i]);
    }
    SplitCidrJoin(a, Decimal.FromInt(p));
    Decimal.LeadingIntFromInt(p);
  }

  lemma PrefixMaskExamples()
    ensures PrefixMask(24) == 0xFFFF_FF00
    ensures PrefixMask(32) == 0xFFFF_FFFF
    ensures PrefixMask(1) == 0x8000_0000
  {
  }
}
