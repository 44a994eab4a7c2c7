/**
  The rtnetlink request builder: a request is an `nlmsghdr` followed by a
  buffer into which type-length-value attributes (`rtattr`) are appended at
  the 4-byte-aligned tail, nests being closed by back-patching their length
  (section 2.3.2 of RFC 3549 gives the header and attribute layout).

  A request is modelled by its header fields and `body`, the bytes that
  follow the 16-byte header.  Every offset below is counted, as the kernel
  macros count it, from the first byte of the message, so the byte at offset
  `off` is `body[off - NLMSG_HDRLEN]`.  Multi-byte fields are little-endian.

  The C functions write into the caller's buffer; here each is a method that
  returns the updated request, its contract saying which bytes it wrote and
  that it left every other byte alone.
 */
module Netlink {
  import opened Common

  const NLMSG_HDRLEN: nat := 16      // sizeof(struct nlmsghdr)
  const RTA_HDRLEN: nat := 4         // RTA_ALIGN(sizeof(struct rtattr))
  const IFINFOMSG_LEN: nat := 16     // sizeof(struct ifinfomsg)
  const MAX_PAYLOAD: nat := 1024
  /** sizeof(struct nl_req): header, ifinfomsg and a MAX_PAYLOAD attribute area. */
  const NL_REQ_LEN: nat := 1056

  /** NLMSG_ALIGN and RTA_ALIGN: round up to a multiple of 4. */
  function Align4(n: nat): (r: nat)
    ensures r % 4 == 0
    ensures n <= r < n + 4
    ensures n % 4 == 0 ==> r == n
  {
    ((n + 3) / 4) * 4
  }

  /** The sum of two aligned lengths is aligned. */
  lemma AlignedSum(a: nat, b: nat)
    ensures (Align4(a) + Align4(b)) % 4 == 0
    ensures Align4(Align4(a) + Align4(b)) == Align4(a) + Align4(b)
  {
    var x, y := (a + 3) / 4, (b + 3) / 4;
    assert Align4(a) + Align4(b) == 4 * (x + y);
  }

  /** Adding whole 4-byte words keeps a length aligned. */
  lemma AlignAdd(n: nat, k: nat)
    requires Align4(n) == n
    ensures Align4(n + 4 * k) == n + 4 * k
  {
    assert (n + 4 * k + 3) / 4 == (n + 3) / 4 + k;
  }

  /** RTA_LENGTH: attribute header plus payload, unpadded. */
  function RtaLength(len: nat): nat {
    RTA_HDRLEN + len
  }

  /** NLMSG_LENGTH: message header plus payload, unpadded. */
  function NlmsgLength(len: nat): nat {
    len + NLMSG_HDRLEN
  }

  /** A request: `nlmsg_len`, `nlmsg_type`, `nlmsg_flags`, `nlmsg_seq`, `nlmsg_pid` and the bytes after the header. */
  datatype NlMsg = NlMsg(len: nat, kind: nat, flags: nat, seqNo: nat, pid: nat, body: seq<byte>)

  /** Offset one past the last byte of the buffer backing `m`. */
  function Capacity(m: NlMsg): nat {
    NLMSG_HDRLEN + |m.body|
  }

  /** NLMSG_TAIL: where the next attribute goes. */
  function Tail(m: NlMsg): nat {
    Align4(m.len)
  }

  /** The `rta_len` field of the attribute header at offset `off`. */
  function AttrLenAt(m: NlMsg, off: nat): nat
    requires NLMSG_HDRLEN <= off && off + RTA_HDRLEN <= Capacity(m)
  {
    Get16(m.body[off - NLMSG_HDRLEN], m.body[off - NLMSG_HDRLEN + 1])
  }

  /** The `rta_type` field of the attribute header at offset `off`. */
  function AttrTypeAt(m: NlMsg, off: nat): nat
    requires NLMSG_HDRLEN <= off && off + RTA_HDRLEN <= Capacity(m)
  {
    Get16(m.body[off - NLMSG_HDRLEN + 2], m.body[off - NLMSG_HDRLEN + 3])
  }

  /**
    The payload of the attribute at `off` as a reader of the message sees it:
    the `rta_len - 4` bytes after its header.
   */
  function AttrPayload(m: NlMsg, off: nat): (p: seq<byte>)
    requires NLMSG_HDRLEN <= off && off + RTA_HDRLEN <= Capacity(m)
    requires RTA_HDRLEN <= AttrLenAt(m, off) && off + AttrLenAt(m, off) <= Capacity(m)
    ensures |p| == AttrLenAt(m, off) - RTA_HDRLEN
  {
    m.body[off + RTA_HDRLEN - NLMSG_HDRLEN .. off - NLMSG_HDRLEN + AttrLenAt(m, off)]
  }

  /** An attribute header reading (`len`, `kind`) sits at offset `off`. */
  predicate AttrAt(m: NlMsg, off: nat, len: nat, kind: nat) {
    NLMSG_HDRLEN <= off && off + RTA_HDRLEN <= Capacity(m) &&
    AttrLenAt(m, off) == len && AttrTypeAt(m, off) == kind
  }

  /** The bytes `data` sit at offset `off`. */
  predicate BytesAt(m: NlMsg, off: nat, data: seq<byte>) {
    NLMSG_HDRLEN <= off && off + |data| <= Capacity(m) &&
    forall k | 0 <= k < |data| :: m.body[off - NLMSG_HDRLEN + k] == data[k]
  }

  /** `r` has the buffer of `m` except possibly at offsets `lo` up to `hi`. */
  predicate SameOutside(m: NlMsg, r: NlMsg, lo: nat, hi: nat) {
    NLMSG_HDRLEN <= lo <= hi <= Capacity(m) && |r.body| == |m.body| &&
    forall i {:trigger r.body[i], m.body[i]} | 0 <= i < |m.body| && !(lo - NLMSG_HDRLEN <= i < hi - NLMSG_HDRLEN) ::
      r.body[i] == m.body[i]
  }

  /** A write confined to offsets `lo` up to `hi` keeps every header outside them. */
  lemma AttrAtFrame(m: NlMsg, r: NlMsg, lo: nat, hi: nat, off: nat, len: nat, kind: nat)
    requires SameOutside(m, r, lo, hi) && AttrAt(m, off, len, kind)
    requires off + RTA_HDRLEN <= lo || hi <= off
    ensures AttrAt(r, off, len, kind)
  {
    var i := off - NLMSG_HDRLEN;
    assert r.body[i] == m.body[i] && r.body[i + 1] == m.body[i + 1];
    assert r.body[i + 2] == m.body[i + 2] && r.body[i + 3] == m.body[i + 3];
  }

  /** A write confined to offsets `lo` up to `hi` keeps every payload outside them. */
  lemma BytesAtFrame(m: NlMsg, r: NlMsg, lo: nat, hi: nat, off: nat, data: seq<byte>)
    requires SameOutside(m, r, lo, hi) && BytesAt(m, off, data)
    requires off + |data| <= lo || hi <= off
    ensures BytesAt(r, off, data)
  {
    var i := off - NLMSG_HDRLEN;
    forall k | 0 <= k < |data|
      ensures r.body[i + k] == data[k]
    {
      assert m.body[i + k] == data[k];
    }
  }

  /** Two confined writes in a row are confined to any range covering both. */
  lemma SameOutsideTrans(a: NlMsg, b: NlMsg, c: NlMsg, lo1: nat, hi1: nat, lo2: nat, hi2: nat, lo: nat, hi: nat)
    requires SameOutside(a, b, lo1, hi1) && SameOutside(b, c, lo2, hi2)
    requires NLMSG_HDRLEN <= lo <= lo1 && lo <= lo2 && hi1 <= hi && hi2 <= hi <= Capacity(a)
    ensures SameOutside(a, c, lo, hi)
  {
    forall i | 0 <= i < |a.body| && !(lo - NLMSG_HDRLEN <= i < hi - NLMSG_HDRLEN)
      ensures c.body[i] == a.body[i]
    {
      assert b.body[i] == a.body[i];
    }
  }

  /**
    `s` with `bytes` copied over it starting at index `at` (a `memcpy`),
    written one byte at a time.
   */
  function Overwrite(s: seq<byte>, at: nat, bytes: seq<byte>): (r: seq<byte>)
    requires at + |bytes| <= |s|
    ensures |r| == |s|
    decreases |bytes|
  {
    if bytes == [] then s else Overwrite(s[at := bytes[0]], at + 1, bytes[1..])
  }

  /** After the copy, the range holds `bytes` and every other byte is unchanged. */
  lemma {:induction false} OverwriteContents(s: seq<byte>, at: nat, bytes: seq<byte>)
    requires at + |bytes| <= |s|
    ensures forall i | 0 <= i < |s| ::
              Overwrite(s, at, bytes)[i] == if at <= i < at + |bytes| then bytes[i - at] else s[i]
    decreases |bytes|
  {
    if bytes != [] {
      OverwriteContents(s[at := bytes[0]], at + 1, bytes[1..]);
    }
  }

  /** The bytes of an `rtattr` header. */
  function AttrHeader(len: nat, kind: nat): (h: seq<byte>)
    requires len < TWO_16 && kind < TWO_16
    ensures |h| == RTA_HDRLEN
    ensures Get16(h[0], h[1]) == len && Get16(h[2], h[3]) == kind
  {
    LE16RoundTrip(len);
    LE16RoundTrip(kind);
    LE16(len) + LE16(kind)
  }

  /**
    `r` is `m` with one attribute appended at the old tail: a header reading
    (`rtaLen`, `kind`), then `payload`; every other byte of the buffer and
    every other header field is kept, and `nlmsg_len` becomes `newLen`.
   */
  predicate Appended(m: NlMsg, r: NlMsg, newLen: nat, rtaLen: nat, kind: nat, payload: seq<byte>) {
    r.(len := m.len, body := m.body) == m && r.len == newLen &&
    AttrAt(r, Tail(m), rtaLen, kind) &&
    BytesAt(r, Tail(m) + RTA_HDRLEN, payload) &&
    SameOutside(m, r, Tail(m), Tail(m) + RTA_HDRLEN + |payload|)
  }

  /** `Appended` pins the new message down completely. */
  lemma AppendedUnique(m: NlMsg, r1: NlMsg, r2: NlMsg, newLen: nat, rtaLen: nat, kind: nat, payload: seq<byte>)
    requires Appended(m, r1, newLen, rtaLen, kind, payload)
    requires Appended(m, r2, newLen, rtaLen, kind, payload)
    ensures r1 == r2
  {
    var at := Tail(m) - NLMSG_HDRLEN;
    Get16Injective(r1.body[at], r1.body[at + 1], r2.body[at], r2.body[at + 1]);
    Get16Injective(r1.body[at + 2], r1.body[at + 3], r2.body[at + 2], r2.body[at + 3]);
    forall i | 0 <= i < |r1.body| && !(at <= i < at + RTA_HDRLEN)
      ensures r1.body[i] == r2.body[i]
    {
      AppendedByte(m, r1, r2, newLen, rtaLen, kind, payload, i);
    }
    assert r1.body == r2.body;
    assert r1 == r1.(len := m.len, body := m.body).(len := r1.len, body := r1.body);
    assert r2 == r2.(len := m.len, body := m.body).(len := r2.len, body := r2.body);
  }

  /** Outside the attribute header, two messages `Appended` alike agree byte by byte. */
  lemma AppendedByte(m: NlMsg, r1: NlMsg, r2: NlMsg, newLen: nat, rtaLen: nat, kind: nat, payload: seq<byte>, i: nat)
    requires Appended(m, r1, newLen, rtaLen, kind, payload)
    requires Appended(m, r2, newLen, rtaLen, kind, payload)
    requires i < |r1.body| && !(Tail(m) - NLMSG_HDRLEN <= i < Tail(m) - NLMSG_HDRLEN + RTA_HDRLEN)
    ensures r1.body[i] == r2.body[i]
  {
    var start := Tail(m) - NLMSG_HDRLEN + RTA_HDRLEN;
    if start <= i < start + |payload| {
      var k := i - start;
      assert r1.body[start + k] == payload[k];
      assert r2.body[start + k] == payload[k];
    } else {
      assert r1.body[i] == m.body[i];
      assert r2.body[i] == m.body[i];
    }
  }

  /** Reading back an appended attribute yields its type and exactly its payload. */
  lemma AppendedRoundTrip(m: NlMsg, r: NlMsg, newLen: nat, kind: nat, payload: seq<byte>)
    requires Appended(m, r, newLen, RtaLength(|payload|), kind, payload)
    ensures AttrTypeAt(r, Tail(m)) == kind
    ensures AttrPayload(r, Tail(m)) == payload
  {
    BytesAtPayload(r, Tail(m), payload);
  }

  /** An attribute whose length covers exactly the bytes after it has those bytes as payload. */
  lemma BytesAtPayload(m: NlMsg, off: nat, payload: seq<byte>)
    requires NLMSG_HDRLEN <= off && off + RTA_HDRLEN <= Capacity(m)
    requires AttrLenAt(m, off) == RtaLength(|payload|)
    requires BytesAt(m, off + RTA_HDRLEN, payload)
    ensures AttrPayload(m, off) == payload
  {
    var p := AttrPayload(m, off);
    forall k | 0 <= k < |payload|
      ensures p[k] == payload[k]
    {
      assert p[k] == m.body[off + RTA_HDRLEN - NLMSG_HDRLEN + k];
    }
  }

  /**
    `addattr_l`: append attribute `kind` carrying `data` at the tail, with
    the unpadded `rta_len` = 4 + |data| and the payload copied only when
    there is one; `nlmsg_len` grows to the old aligned length plus the padded
    attribute.  The source only prints a warning when the new length exceeds
    `maxlen` and writes anyway, so staying within `maxlen`, itself within the
    buffer, is the caller's obligation here.
   */
  method AddAttr(m: NlMsg, maxlen: nat, kind: nat, data: seq<byte>) returns (r: NlMsg)
    requires NLMSG_HDRLEN <= m.len
    requires kind < TWO_16 && RtaLength(|data|) < TWO_16
    requires Align4(m.len) + Align4(RtaLength(|data|)) <= maxlen <= Capacity(m)
    ensures Appended(m, r, Tail(m) + Align4(RtaLength(|data|)), RtaLength(|data|), kind, data)
    ensures Align4(r.len) == r.len
  {
    AlignedSum(m.len, RtaLength(|data|));
    r := PutAttr(m, RtaLength(|data|), kind, data, Align4(RtaLength(|data|)));
  }

  /**
    The write both appenders share: the header (`rtaLen`, `kind`) at the
    tail, the payload after it, and `nlmsg_len` moved `advance` bytes past
    the old aligned length.
   */
  method PutAttr(m: NlMsg, rtaLen: nat, kind: nat, payload: seq<byte>, advance: nat) returns (r: NlMsg)
    requires NLMSG_HDRLEN <= m.len
    requires rtaLen < TWO_16 && kind < TWO_16
    requires Tail(m) + RTA_HDRLEN + |payload| <= Capacity(m)
    ensures Appended(m, r, Tail(m) + advance, rtaLen, kind, payload)
  {
    var at := Tail(m) - NLMSG_HDRLEN;
    var header := AttrHeader(rtaLen, kind);
    var body := Overwrite(m.body, at, header);
    OverwriteContents(m.body, at, header);
    OverwriteContents(body, at + RTA_HDRLEN, payload);
    body := Overwrite(body, at + RTA_HDRLEN, payload);
    r := m.(len := Tail(m) + advance, body := body);
  }

  /** `addattr_nest`: append an empty attribute and return its offset. */
  method AddAttrNest(m: NlMsg, maxlen: nat, kind: nat) returns (r: NlMsg, nest: nat)
    requires NLMSG_HDRLEN <= m.len
    requires kind < TWO_16
    requires Align4(m.len) + RTA_HDRLEN <= maxlen <= Capacity(m)
    ensures nest == Tail(m) && NLMSG_HDRLEN <= nest
    ensures Appended(m, r, nest + RTA_HDRLEN, RTA_HDRLEN, kind, [])
    ensures Align4(r.len) == r.len
  {
    nest := Tail(m);
    r := AddAttr(m, maxlen, kind, []);
  }

  /**
    `addattr_nest_end`: set the length of the nest at `nest` to the distance
    from it to the current tail (a pointer difference stored in a `__u16`),
    so the nest covers exactly what was appended since it was opened.  Its
    type and every other byte are kept.
   */
  method AddAttrNestEnd(m: NlMsg, nest: nat) returns (r: NlMsg)
    requires NLMSG_HDRLEN <= nest && nest + RTA_HDRLEN <= Capacity(m)
    ensures r.(body := m.body) == m
    ensures AttrAt(r, nest, U16(Tail(m) - nest), AttrTypeAt(m, nest))
    ensures SameOutside(m, r, nest, nest + 2)
  {
    var field := LE16(U16(Tail(m) - nest));
    LE16RoundTrip(U16(Tail(m) - nest));
    OverwriteContents(m.body, nest - NLMSG_HDRLEN, field);
    r := m.(body := Overwrite(m.body, nest - NLMSG_HDRLEN, field));
  }

  /**
    `_nlmsg_put`: the same append with no length bound.  `type` (an `int`)
    and the `size_t` length are stored in the `__u16` header fields, the new
    length in the `__u32` `nlmsg_len`, each truncated to its width, and a
    missing `data` pointer leaves the payload bytes as they were.
   */
  method NlmsgPut(m: NlMsg, kind: int, data: Option<seq<byte>>, len: nat) returns (r: NlMsg)
    requires NLMSG_HDRLEN <= m.len
    requires data.Some? ==> |data.value| >= len
    requires Align4(m.len) + RTA_HDRLEN + (if data.Some? then len else 0) <= Capacity(m)
    ensures Appended(m, r, U32(Tail(m) + Align4(RtaLength(len))), U16(RtaLength(len)), U16(kind),
                     if data.Some? then data.value[..len] else [])
    ensures r.len < TWO_32 && Align4(r.len) == r.len
    ensures Tail(m) + Align4(RtaLength(len)) < TWO_32 ==> r.len == Tail(m) + Align4(RtaLength(len))
  {
    var payload := if data.Some? then data.value[..len] else [];
    AlignedSum(m.len, RtaLength(len));
    AlignedWrap(Tail(m) + Align4(RtaLength(len)));
    r := PutAttr(m, U16(RtaLength(len)), U16(kind), payload, Align4(RtaLength(len)));
    r := r.(len := U32(r.len));
  }

  /** Truncating a multiple of 4 to 32 bits leaves a multiple of 4. */
  lemma AlignedWrap(n: nat)
    requires n % 4 == 0
    ensures U32(n) % 4 == 0
  {
    var q := n / TWO_32;
    assert n == q * TWO_32 + U32(n);
    assert q * TWO_32 == 4 * (q * (TWO_32 / 4));
  }

  /**
    Given the payload, its full length, a type that fits in 16 bits and a
    new length that fits in `nlmsg_len`, `_nlmsg_put` builds exactly the
    message `addattr_l` builds.
   */
  lemma NlmsgPutAgreesWithAddAttr(m: NlMsg, kind: nat, data: seq<byte>, viaAddAttr: NlMsg, viaPut: NlMsg)
    requires kind < TWO_16 && RtaLength(|data|) < TWO_16 && Tail(m) + Align4(RtaLength(|data|)) < TWO_32
    requires Appended(m, viaAddAttr, Tail(m) + Align4(RtaLength(|data|)), RtaLength(|data|), kind, data)
    requires Appended(m, viaPut, U32(Tail(m) + Align4(RtaLength(|data|))), U16(RtaLength(|data|)), U16(kind),
                      Some(data).value[..|data|])
    ensures viaAddAttr == viaPut
  {
    assert Some(data).value[..|data|] == data;
    AppendedUnique(m, viaAddAttr, viaPut, Tail(m) + Align4(RtaLength(|data|)), RtaLength(|data|), kind, data);
  }
}
