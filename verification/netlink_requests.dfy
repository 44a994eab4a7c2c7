/**
  The two RTM_NEWLINK requests the launcher sends: `create_veth` (a veth pair
  whose peer is described inside nested IFLA_LINKINFO attributes) and
  `move_if_to_pid_netns` (move an interface into the network namespace behind
  a file descriptor), and the sequence-number bump `send_nlmsg` applies
  before handing a request to the socket.
 */
module NetlinkRequests {
  import opened Common
  import opened Netlink

  const RTM_NEWLINK: nat := 16
  const NLM_F_REQUEST: nat := 0x1
  const NLM_F_ACK: nat := 0x4
  const NLM_F_EXCL: nat := 0x200
  const NLM_F_CREATE: nat := 0x400
  const PF_NETLINK: byte := 16

  const IFLA_IFNAME: nat := 3
  const IFLA_LINKINFO: nat := 18
  const IFLA_NET_NS_FD: nat := 28
  const IFLA_INFO_KIND: nat := 1
  const IFLA_INFO_DATA: nat := 2
  const VETH_INFO_PEER: nat := 1

  /** The flags `create_veth` sets: request, create, exclusive, acknowledge. */
  const VETH_FLAGS: nat := NLM_F_REQUEST + NLM_F_CREATE + NLM_F_EXCL + NLM_F_ACK
  /** The flags `move_if_to_pid_netns` sets: request, acknowledge. */
  const MOVE_FLAGS: nat := NLM_F_REQUEST + NLM_F_ACK

  /** The link kind "veth" with its terminating NUL. */
  const VETH_KIND: seq<byte> := [118, 101, 116, 104, 0]

  /** Offset of the first attribute: header plus `struct ifinfomsg`. */
  const FIRST_ATTR: nat := 32

  /**
    The zero-initialised `struct nl_req` both callers start from: the given
    flags, type RTM_NEWLINK, `ifi_family` = PF_NETLINK, everything else zero.
   */
  function NewLinkRequest(flags: nat): (r: NlMsg)
    ensures r.len == NlmsgLength(IFINFOMSG_LEN) == FIRST_ATTR && Capacity(r) == NL_REQ_LEN
    ensures r.kind == RTM_NEWLINK && r.flags == flags && r.seqNo == 0 && r.pid == 0
    ensures BytesAt(r, NLMSG_HDRLEN, [PF_NETLINK])
    ensures forall i | 1 <= i < |r.body| :: r.body[i] == 0
  {
    NlMsg(NlmsgLength(IFINFOMSG_LEN), RTM_NEWLINK, flags, 0, 0,
          [PF_NETLINK] + seq(NL_REQ_LEN - NLMSG_HDRLEN - 1, _ => 0))
  }

  /** A C string with its terminating NUL: the `strlen(s) + 1` bytes the callers copy. */
  function CStr(s: seq<byte>): (r: seq<byte>)
    ensures |r| == |s| + 1 && r[..|s|] == s && r[|s|] == 0
  {
    s + [0]
  }

  /** The aligned size of an attribute carrying the C string `s`. */
  function NameAttrSize(s: seq<byte>): nat {
    Align4(RtaLength(|s| + 1))
  }

  /** The names leave room for the whole `create_veth` request in `struct nl_req`. */
  predicate VethFits(ifname: seq<byte>, peer: seq<byte>) {
    FIRST_ATTR + NameAttrSize(ifname) + 40 + NameAttrSize(peer) <= NL_REQ_LEN
  }

  /** The `n` bytes at offset `off` are zero. */
  predicate ZeroAt(m: NlMsg, off: nat, n: nat) {
    NLMSG_HDRLEN <= off && off + n <= Capacity(m) &&
    forall i | off - NLMSG_HDRLEN <= i < off - NLMSG_HDRLEN + n :: m.body[i] == 0
  }

  /** A write confined to offsets `lo` up to `hi` keeps zero bytes outside them. */
  lemma ZeroAtFrame(m: NlMsg, r: NlMsg, lo: nat, hi: nat, off: nat, n: nat)
    requires SameOutside(m, r, lo, hi) && ZeroAt(m, off, n)
    requires off + n <= lo || hi <= off
    ensures ZeroAt(r, off, n)
  {
    forall i | off - NLMSG_HDRLEN <= i < off - NLMSG_HDRLEN + n
      ensures r.body[i] == 0
    {
      assert m.body[i] == 0;
    }
  }

  /** The header fields of a `create_veth` request, which no step after the first changes. */
  predicate VethFields(n: NlMsg) {
    Capacity(n) == NL_REQ_LEN &&
    n.kind == RTM_NEWLINK && n.flags == VETH_FLAGS && n.seqNo == 0 && n.pid == 0
  }

  /** `ifi_family` and IFLA_IFNAME(ifname), the first things in the request. */
  predicate VethName(n: NlMsg, ifname: seq<byte>) {
    BytesAt(n, NLMSG_HDRLEN, [PF_NETLINK]) &&
    AttrAt(n, FIRST_ATTR, RtaLength(|ifname| + 1), IFLA_IFNAME) &&
    BytesAt(n, FIRST_ATTR + RTA_HDRLEN, CStr(ifname))
  }

  /** IFLA_INFO_KIND "veth", the first attribute inside the nest at `l`. */
  predicate VethKind(n: NlMsg, l: nat) {
    AttrAt(n, l + 4, RtaLength(|VETH_KIND|), IFLA_INFO_KIND) && BytesAt(n, l + 8, VETH_KIND)
  }

  /** Inside the peer nest: an `ifinfomsg`-sized zero gap, then IFLA_IFNAME(peer). */
  predicate VethPeer(n: NlMsg, l: nat, peer: seq<byte>) {
    ZeroAt(n, l + 24, IFINFOMSG_LEN) &&
    AttrAt(n, l + 40, RtaLength(|peer| + 1), IFLA_IFNAME) &&
    BytesAt(n, l + 44, CStr(peer))
  }

  /** The headers of IFLA_LINKINFO, IFLA_INFO_DATA and VETH_INFO_PEER with the given lengths. */
  predicate VethNests(n: NlMsg, l: nat, linfo: nat, data: nat, peerInfo: nat) {
    AttrAt(n, l, linfo, IFLA_LINKINFO) &&
    AttrAt(n, l + 16, data, IFLA_INFO_DATA) &&
    AttrAt(n, l + 20, peerInfo, VETH_INFO_PEER)
  }

  /**
    The `create_veth` request: IFLA_IFNAME(ifname) at the first attribute
    offset, then IFLA_LINKINFO holding IFLA_INFO_KIND "veth" and
    IFLA_INFO_DATA, which holds VETH_INFO_PEER, which holds an
    ifinfomsg-sized zero gap and IFLA_IFNAME(peer).  Every nest reaches to
    the end of the message.
   */
  predicate VethLayout(r: NlMsg, ifname: seq<byte>, peer: seq<byte>) {
    var l := FIRST_ATTR + NameAttrSize(ifname);
    var end := l + 40 + NameAttrSize(peer);
    VethBuilt(r, ifname, peer) && VethNests(r, l, end - l, end - (l + 16), end - (l + 20))
  }

  /** IFLA_IFNAME(ifname) ends on an aligned offset. */
  lemma NameEndAligned(ifname: seq<byte>)
    ensures var l := FIRST_ATTR + NameAttrSize(ifname);
      Align4(l) == l && Align4(l + 4) == l + 4
  {
    var l := FIRST_ATTR + NameAttrSize(ifname);
    AlignAdd(NameAttrSize(ifname), 8);
    AlignAdd(NameAttrSize(ifname), 9);
  }

  /** A step that writes only the buffer keeps the header fields. */
  lemma FieldsKept(m: NlMsg, r: NlMsg)
    requires VethFields(m) && r.(len := m.len, body := m.body) == m && |r.body| == |m.body|
    ensures VethFields(r)
  {
    assert r.kind == m.kind && r.flags == m.flags && r.seqNo == m.seqNo && r.pid == m.pid;
  }

  /** A write after the first attribute keeps it. */
  lemma NameKept(m: NlMsg, r: NlMsg, lo: nat, hi: nat, ifname: seq<byte>)
    requires SameOutside(m, r, lo, hi) && VethName(m, ifname)
    requires FIRST_ATTR + RTA_HDRLEN + |ifname| + 1 <= lo
    ensures VethName(r, ifname)
  {
    BytesAtFrame(m, r, lo, hi, NLMSG_HDRLEN, [PF_NETLINK]);
    AttrAtFrame(m, r, lo, hi, FIRST_ATTR, RtaLength(|ifname| + 1), IFLA_IFNAME);
    BytesAtFrame(m, r, lo, hi, FIRST_ATTR + RTA_HDRLEN, CStr(ifname));
  }

  /** A write clear of IFLA_INFO_KIND keeps it. */
  lemma KindKept(m: NlMsg, r: NlMsg, lo: nat, hi: nat, l: nat)
    requires SameOutside(m, r, lo, hi) && VethKind(m, l)
    requires hi <= l + 4 || l + 8 + |VETH_KIND| <= lo
    ensures VethKind(r, l)
  {
    AttrAtFrame(m, r, lo, hi, l + 4, RtaLength(|VETH_KIND|), IFLA_INFO_KIND);
    BytesAtFrame(m, r, lo, hi, l + 8, VETH_KIND);
  }

  /** A write before the peer's gap keeps the gap and the peer's name. */
  lemma PeerKept(m: NlMsg, r: NlMsg, lo: nat, hi: nat, l: nat, peer: seq<byte>)
    requires SameOutside(m, r, lo, hi) && VethPeer(m, l, peer)
    requires hi <= l + 24
    ensures VethPeer(r, l, peer)
  {
    ZeroAtFrame(m, r, lo, hi, l + 24, IFINFOMSG_LEN);
    AttrAtFrame(m, r, lo, hi, l + 40, RtaLength(|peer| + 1), IFLA_IFNAME);
    BytesAtFrame(m, r, lo, hi, l + 44, CStr(peer));
  }

  /** Closing one nest (a write of its two length bytes) keeps the other two nest headers. */
  lemma NestsKept(m: NlMsg, r: NlMsg, p: nat, l: nat, linfo: nat, data: nat, peerInfo: nat)
    requires SameOutside(m, r, p, p + 2) && VethNests(m, l, linfo, data, peerInfo)
    requires p == l || p == l + 16 || p == l + 20
    ensures p != l ==> AttrAt(r, l, linfo, IFLA_LINKINFO)
    ensures p != l + 16 ==> AttrAt(r, l + 16, data, IFLA_INFO_DATA)
    ensures p != l + 20 ==> AttrAt(r, l + 20, peerInfo, VETH_INFO_PEER)
  {
    if p != l {
      AttrAtFrame(m, r, p, p + 2, l, linfo, IFLA_LINKINFO);
    }
    if p != l + 16 {
      AttrAtFrame(m, r, p, p + 2, l + 16, data, IFLA_INFO_DATA);
    }
    if p != l + 20 {
      AttrAtFrame(m, r, p, p + 2, l + 20, peerInfo, VETH_INFO_PEER);
    }
  }

  /** Step one of `create_veth`: the zeroed request with IFLA_IFNAME(ifname). */
  method VethStart(ifname: seq<byte>, peer: seq<byte>) returns (n1: NlMsg)
    requires VethFits(ifname, peer)
    ensures var l := FIRST_ATTR + NameAttrSize(ifname);
      n1.len == l && VethFields(n1) && VethName(n1, ifname) && ZeroAt(n1, l + 24, IFINFOMSG_LEN)
  {
    var l := FIRST_ATTR + NameAttrSize(ifname);
    var n0 := NewLinkRequest(VETH_FLAGS);
    n1 := AddAttr(n0, NL_REQ_LEN, IFLA_IFNAME, CStr(ifname));
    FieldsKept(n0, n1);
    BytesAtFrame(n0, n1, FIRST_ATTR, l, NLMSG_HDRLEN, [PF_NETLINK]);
    ZeroAtFrame(n0, n1, FIRST_ATTR, l, l + 24, IFINFOMSG_LEN);
  }

  /** Step two: the IFLA_LINKINFO nest opened at `l`, IFLA_INFO_KIND "veth" in it. */
  method VethOpenLinkInfo(n1: NlMsg, ifname: seq<byte>, peer: seq<byte>) returns (n3: NlMsg)
    requires VethFits(ifname, peer)
    requires var l := FIRST_ATTR + NameAttrSize(ifname);
      n1.len == l && VethFields(n1) && VethName(n1, ifname) && ZeroAt(n1, l + 24, IFINFOMSG_LEN)
    ensures var l := FIRST_ATTR + NameAttrSize(ifname);
      n3.len == l + 16 && VethFields(n3) && VethName(n3, ifname) && VethKind(n3, l) &&
      AttrAt(n3, l, RTA_HDRLEN, IFLA_LINKINFO) && ZeroAt(n3, l + 24, IFINFOMSG_LEN)
  {
    var l := FIRST_ATTR + NameAttrSize(ifname);
    NameEndAligned(ifname);
    assert Tail(n1) == l;
    var n2, linfo := AddAttrNest(n1, NL_REQ_LEN, IFLA_LINKINFO);
    assert n2.len == l + 4 && Tail(n2) == l + 4;
    n3 := AddAttr(n2, NL_REQ_LEN, IFLA_INFO_KIND, VETH_KIND);
    assert n3.len == l + 16;
    FieldsKept(n1, n2);
    FieldsKept(n2, n3);
    var hi := l + RTA_HDRLEN + RtaLength(|VETH_KIND|);
    SameOutsideTrans(n1, n2, n3, l, l + 4, l + 4, hi, l, hi);
    NameKept(n1, n3, l, hi, ifname);
    ZeroAtFrame(n1, n3, l, hi, l + 24, IFINFOMSG_LEN);
    AttrAtFrame(n2, n3, l + 4, hi, l, RTA_HDRLEN, IFLA_LINKINFO);
  }

  /**
    Step three: IFLA_INFO_DATA and VETH_INFO_PEER opened at `l + 16` and
    `l + 20`, and `nlmsg_len` advanced over an `ifinfomsg`.
   */
  method VethOpenPeerInfo(n3: NlMsg, ifname: seq<byte>, peer: seq<byte>) returns (n6: NlMsg)
    requires VethFits(ifname, peer)
    requires var l := FIRST_ATTR + NameAttrSize(ifname);
      n3.len == l + 16 && VethFields(n3) && VethName(n3, ifname) && VethKind(n3, l) &&
      AttrAt(n3, l, RTA_HDRLEN, IFLA_LINKINFO) && ZeroAt(n3, l + 24, IFINFOMSG_LEN)
    ensures var l := FIRST_ATTR + NameAttrSize(ifname);
      n6.len == l + 40 && VethFields(n6) && VethName(n6, ifname) && VethKind(n6, l) &&
      VethNests(n6, l, RTA_HDRLEN, RTA_HDRLEN, RTA_HDRLEN) && ZeroAt(n6, l + 24, IFINFOMSG_LEN)
  {
    var l := FIRST_ATTR + NameAttrSize(ifname);
    NameEndAligned(ifname);
    AlignAdd(l, 4);
    AlignAdd(l, 5);
    assert Tail(n3) == l + 16;
    var n4, linfodata := AddAttrNest(n3, NL_REQ_LEN, IFLA_INFO_DATA);
    assert n4.len == l + 20 && Tail(n4) == l + 20;
    var n5, peerinfo := AddAttrNest(n4, NL_REQ_LEN, VETH_INFO_PEER);
    assert n5.len == l + 24;
    FieldsKept(n3, n4);
    FieldsKept(n4, n5);
    SameOutsideTrans(n3, n4, n5, l + 16, l + 20, l + 20, l + 24, l + 16, l + 24);
    NameKept(n3, n5, l + 16, l + 24, ifname);
    KindKept(n3, n5, l + 16, l + 24, l);
    ZeroAtFrame(n3, n5, l + 16, l + 24, l + 24, IFINFOMSG_LEN);
    AttrAtFrame(n3, n5, l + 16, l + 24, l, RTA_HDRLEN, IFLA_LINKINFO);
    AttrAtFrame(n4, n5, l + 20, l + 24, l + 16, RTA_HDRLEN, IFLA_INFO_DATA);
    n6 := n5.(len := n5.len + IFINFOMSG_LEN);
    LengthOnlyKeeps(n5, n6, ifname, l);
  }

  /** Moving `nlmsg_len` alone changes none of the bytes. */
  lemma LengthOnlyKeeps(m: NlMsg, r: NlMsg, ifname: seq<byte>, l: nat)
    requires r == m.(len := r.len)
    requires VethFields(m) && VethName(m, ifname) && VethKind(m, l)
    requires VethNests(m, l, RTA_HDRLEN, RTA_HDRLEN, RTA_HDRLEN) && ZeroAt(m, l + 24, IFINFOMSG_LEN)
    ensures VethFields(r) && VethName(r, ifname) && VethKind(r, l)
    ensures VethNests(r, l, RTA_HDRLEN, RTA_HDRLEN, RTA_HDRLEN) && ZeroAt(r, l + 24, IFINFOMSG_LEN)
  {
    assert r.body == m.body;
  }

  /** Step four: IFLA_IFNAME(peer) after the gap. */
  method VethPeerName(n6: NlMsg, ifname: seq<byte>, peer: seq<byte>) returns (n7: NlMsg)
    requires VethFits(ifname, peer)
    requires var l := FIRST_ATTR + NameAttrSize(ifname);
      n6.len == l + 40 && VethFields(n6) && VethName(n6, ifname) && VethKind(n6, l) &&
      VethNests(n6, l, RTA_HDRLEN, RTA_HDRLEN, RTA_HDRLEN) && ZeroAt(n6, l + 24, IFINFOMSG_LEN)
    ensures VethBuilt(n7, ifname, peer)
    ensures VethNests(n7, FIRST_ATTR + NameAttrSize(ifname), RTA_HDRLEN, RTA_HDRLEN, RTA_HDRLEN)
  {
    var l := FIRST_ATTR + NameAttrSize(ifname);
    NameEndAligned(ifname);
    AlignAdd(l, 10);
    assert Tail(n6) == l + 40;
    n7 := AddAttr(n6, NL_REQ_LEN, IFLA_IFNAME, CStr(peer));
    assert n7.len == l + 40 + NameAttrSize(peer);
    FieldsKept(n6, n7);
    var hi := l + 40 + RtaLength(|peer| + 1);
    NameKept(n6, n7, l + 40, hi, ifname);
    KindKept(n6, n7, l + 40, hi, l);
    ZeroAtFrame(n6, n7, l + 40, hi, l + 24, IFINFOMSG_LEN);
    AttrAtFrame(n6, n7, l + 40, hi, l, RTA_HDRLEN, IFLA_LINKINFO);
    AttrAtFrame(n6, n7, l + 40, hi, l + 16, RTA_HDRLEN, IFLA_INFO_DATA);
    AttrAtFrame(n6, n7, l + 40, hi, l + 20, RTA_HDRLEN, VETH_INFO_PEER);
  }

  /** The request once every attribute is written, before the nests are closed. */
  predicate VethBuilt(n: NlMsg, ifname: seq<byte>, peer: seq<byte>) {
    var l := FIRST_ATTR + NameAttrSize(ifname);
    n.len == l + 40 + NameAttrSize(peer) &&
    VethFields(n) && VethName(n, ifname) && VethKind(n, l) && VethPeer(n, l, peer)
  }

  /** The aligned end of the request is its end. */
  lemma VethEndAligned(ifname: seq<byte>, peer: seq<byte>)
    ensures var end := FIRST_ATTR + NameAttrSize(ifname) + 40 + NameAttrSize(peer);
      Align4(end) == end
  {
    AlignedSum(RtaLength(|ifname| + 1), RtaLength(|peer| + 1));
    AlignAdd(NameAttrSize(ifname) + NameAttrSize(peer), 18);
  }

  /**
    Closing the nest at `p` (one of the three) sets its length to reach the
    end of the message and keeps everything else.
   */
  method VethCloseNest(m: NlMsg, ifname: seq<byte>, peer: seq<byte>, p: nat, a: nat, b: nat, c: nat) returns (r: NlMsg)
    requires VethFits(ifname, peer)
    requires var l := FIRST_ATTR + NameAttrSize(ifname);
      (p == l || p == l + 16 || p == l + 20) && VethBuilt(m, ifname, peer) && VethNests(m, l, a, b, c)
    ensures var l := FIRST_ATTR + NameAttrSize(ifname);
      var end := l + 40 + NameAttrSize(peer);
      VethBuilt(r, ifname, peer) &&
      VethNests(r, l, if p == l then end - l else a, if p == l + 16 then end - (l + 16) else b,
                if p == l + 20 then end - (l + 20) else c)
  {
    var l := FIRST_ATTR + NameAttrSize(ifname);
    var end := l + 40 + NameAttrSize(peer);
    VethEndAligned(ifname, peer);
    assert Tail(m) == end;
    assert AttrTypeAt(m, p) == if p == l then IFLA_LINKINFO else if p == l + 16 then IFLA_INFO_DATA else VETH_INFO_PEER;
    r := AddAttrNestEnd(m, p);
    assert U16(end - p) == end - p;
    FieldsKept(m, r);
    NameKept(m, r, p, p + 2, ifname);
    KindKept(m, r, p, p + 2, l);
    PeerKept(m, r, p, p + 2, l, peer);
    NestsKept(m, r, p, l, a, b, c);
  }

  /**
    `create_veth(ifname, peername)`: the request it hands to `send_nlmsg`,
    built in the order the source builds it; the three nests are closed
    innermost first.
   */
  method CreateVeth(ifname: seq<byte>, peer: seq<byte>) returns (req: NlMsg)
    requires VethFits(ifname, peer)
    ensures VethLayout(req, ifname, peer)
  {
    var l := FIRST_ATTR + NameAttrSize(ifname);
    var n1 := VethStart(ifname, peer);
    var n3 := VethOpenLinkInfo(n1, ifname, peer);
    var n6 := VethOpenPeerInfo(n3, ifname, peer);
    var n7 := VethPeerName(n6, ifname, peer);
    var n8 := VethCloseNest(n7, ifname, peer, l + 20, RTA_HDRLEN, RTA_HDRLEN, RTA_HDRLEN);
    var n9 := VethCloseNest(n8, ifname, peer, l + 16, RTA_HDRLEN, RTA_HDRLEN, n8.len - (l + 20));
    req := VethCloseNest(n9, ifname, peer, l, RTA_HDRLEN, n9.len - (l + 16), n9.len - (l + 20));
  }

  /** Every attribute name the kernel reads back from a `create_veth` request. */
  lemma VethNamesReadBack(r: NlMsg, ifname: seq<byte>, peer: seq<byte>)
    requires VethLayout(r, ifname, peer)
    ensures var l := FIRST_ATTR + NameAttrSize(ifname);
      AttrPayload(r, FIRST_ATTR) == CStr(ifname) &&
      AttrPayload(r, l + 4) == VETH_KIND &&
      AttrPayload(r, l + 40) == CStr(peer)
  {
    var l := FIRST_ATTR + NameAttrSize(ifname);
    BytesAtPayload(r, FIRST_ATTR, CStr(ifname));
    BytesAtPayload(r, l + 4, VETH_KIND);
    BytesAtPayload(r, l + 40, CStr(peer));
  }

  /**
    Walking the top-level attributes of a `create_veth` request from the
    first one, each padded length leads to the next, and the last one,
    IFLA_LINKINFO, ends exactly at `nlmsg_len`; inside it the nests are
    walked the same way and each ends at `nlmsg_len` too.
   */
  lemma VethAttributesChain(r: NlMsg, ifname: seq<byte>, peer: seq<byte>)
    requires VethLayout(r, ifname, peer)
    ensures var l := FIRST_ATTR + NameAttrSize(ifname);
      FIRST_ATTR + Align4(AttrLenAt(r, FIRST_ATTR)) == l &&
      l + AttrLenAt(r, l) == r.len &&
      l + RTA_HDRLEN + Align4(AttrLenAt(r, l + 4)) == l + 16 &&
      l + 16 + AttrLenAt(r, l + 16) == r.len &&
      l + 20 + AttrLenAt(r, l + 20) == r.len &&
      l + 40 + Align4(AttrLenAt(r, l + 40)) == r.len
  {
  }

  /** The `struct nl_req` of `move_if_to_pid_netns`. */
  predicate MoveLayout(r: NlMsg, ifname: seq<byte>, netns: int)
    requires -(TWO_31 as int) <= netns < TWO_31
  {
    r.len == FIRST_ATTR + 8 + NameAttrSize(ifname) && Capacity(r) == NL_REQ_LEN &&
    r.kind == RTM_NEWLINK && r.flags == MOVE_FLAGS && r.seqNo == 0 && r.pid == 0 &&
    BytesAt(r, NLMSG_HDRLEN, [PF_NETLINK]) &&
    AttrAt(r, FIRST_ATTR, RtaLength(4), IFLA_NET_NS_FD) &&
    BytesAt(r, FIRST_ATTR + RTA_HDRLEN, LE32(U32(netns))) &&
    AttrAt(r, FIRST_ATTR + 8, RtaLength(|ifname| + 1), IFLA_IFNAME) &&
    BytesAt(r, FIRST_ATTR + 12, CStr(ifname))
  }

  /**
    `move_if_to_pid_netns(ifname, netns)`: IFLA_NET_NS_FD carrying the four
    bytes of the `int` descriptor, then IFLA_IFNAME(ifname).
   */
  method MoveIfToPidNetns(ifname: seq<byte>, netns: int) returns (req: NlMsg)
    requires -(TWO_31 as int) <= netns < TWO_31
    requires FIRST_ATTR + 8 + NameAttrSize(ifname) <= NL_REQ_LEN
    ensures MoveLayout(req, ifname, netns)
  {
    var n0 := NewLinkRequest(MOVE_FLAGS);
    var n1 := AddAttr(n0, NL_REQ_LEN, IFLA_NET_NS_FD, LE32(U32(netns)));
    req := AddAttr(n1, NL_REQ_LEN, IFLA_IFNAME, CStr(ifname));
    var hi := FIRST_ATTR + 8 + RtaLength(|ifname| + 1);
    SameOutsideTrans(n0, n1, req, FIRST_ATTR, FIRST_ATTR + 8, FIRST_ATTR + 8, hi, FIRST_ATTR, hi);
    BytesAtFrame(n0, req, FIRST_ATTR, hi, NLMSG_HDRLEN, [PF_NETLINK]);
    AttrAtFrame(n1, req, FIRST_ATTR + 8, hi, FIRST_ATTR, RtaLength(4), IFLA_NET_NS_FD);
    BytesAtFrame(n1, req, FIRST_ATTR + 8, hi, FIRST_ATTR + RTA_HDRLEN, LE32(U32(netns)));
  }

  /** The kernel reads the descriptor and the name back out of the request. */
  lemma MoveReadBack(r: NlMsg, ifname: seq<byte>, netns: int)
    requires -(TWO_31 as int) <= netns < TWO_31
    requires MoveLayout(r, ifname, netns)
    ensures var p := AttrPayload(r, FIRST_ATTR);
      |p| == 4 && S32(Get32(p[0], p[1], p[2], p[3])) == netns
    ensures AttrPayload(r, FIRST_ATTR + 8) == CStr(ifname)
  {
    BytesAtPayload(r, FIRST_ATTR, LE32(U32(netns)));
    BytesAtPayload(r, FIRST_ATTR + 8, CStr(ifname));
    LE32RoundTrip(U32(netns));
    S32OfU32(netns);
  }

  /**
    The request `send_nlmsg` puts on the socket: `nlmsg_seq` incremented as a
    `__u32`, nothing else changed.
   */
  function SendNlmsg(m: NlMsg): (sent: NlMsg)
    requires m.seqNo < TWO_32
    ensures sent.(seqNo := m.seqNo) == m
    ensures sent.seqNo < TWO_32
    ensures sent.seqNo == 0 <==> m.seqNo == TWO_32 - 1
    ensures sent.seqNo != 0 ==> sent.seqNo == m.seqNo + 1
  {
    m.(seqNo := U32(m.seqNo + 1))
  }

  /**
    Both requests start from a zeroed `nlmsg_seq`, so each goes out with
    sequence number 1: the sequence number does not tell their replies apart.
   */
  lemma RequestsSentWithSeqOne(ifname: seq<byte>, peer: seq<byte>, netns: int, veth: NlMsg, move: NlMsg)
    requires -(TWO_31 as int) <= netns < TWO_31
    requires VethLayout(veth, ifname, peer) && MoveLayout(move, ifname, netns)
    ensures SendNlmsg(veth).seqNo == 1 && SendNlmsg(move).seqNo == 1
  {
  }
}
