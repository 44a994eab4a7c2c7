/**
  Classifying the kernel's reply to an rtnetlink request from its header:
  `check_response`, which only reports what it sees, and `_nlmsg_recieve`,
  which turns the reply into a status.  A reply starts with a 16-byte
  `nlmsghdr` (`nlmsg_len`, `nlmsg_type`, `nlmsg_flags`, `nlmsg_seq`,
  `nlmsg_pid`, little-endian); an acknowledgement or error (type
  NLMSG_ERROR) continues with an `nlmsgerr`: the signed `error` and the
  header of the request it answers (section 2.3.2.2 of RFC 3549).
 */
module NetlinkReply {
  import opened Common
  import opened Netlink

  const NLMSG_ERROR: nat := 2
  /** `sizeof(struct nlmsgerr)`: the `int error` and the echoed `nlmsghdr`. */
  const NLMSGERR_LEN: nat := 20
  /** Bytes of a complete acknowledgement or error message. */
  const ERROR_REPLY_LEN: nat := NLMSG_HDRLEN + NLMSGERR_LEN
  /** The size of the buffer `_nlmsg_recieve` reads into. */
  const RECEIVE_BUF_LEN: nat := 4096

  /** `nlmsg_len`, the 32-bit length field at offset 0. */
  function ReplyLen(resp: seq<byte>): nat
    requires |resp| >= ERROR_REPLY_LEN
  {
    Get32(resp[0], resp[1], resp[2], resp[3])
  }

  /** `nlmsg_type`, the 16-bit type field at offset 4. */
  function ReplyType(resp: seq<byte>): nat
    requires |resp| >= ERROR_REPLY_LEN
  {
    Get16(resp[4], resp[5])
  }

  /** `error` of the `nlmsgerr` after the header, read as a C `int`. */
  function ReplyError(resp: seq<byte>): int
    requires |resp| >= ERROR_REPLY_LEN
  {
    S32(Get32(resp[16], resp[17], resp[18], resp[19]))
  }

  /**
    `int datalen = nlmsglen - sizeof(*hdr)`: the signed length minus 16,
    computed in `size_t` and narrowed back to 32 bits.
   */
  function DataLen(u: nat): (d: int)
    requires u < TWO_32
    ensures -(TWO_31 as int) <= d < TWO_31
    ensures u < TWO_31 ==> d == u - NLMSG_HDRLEN
  {
    S32(U32(S32(u) - NLMSG_HDRLEN))
  }

  /** What `check_response` and `read_response` print, in order. */
  datatype Note =
    | EofOnNetlink           // `recvmsg` returned 0
    | ReceiveError           // `recvmsg` failed
    | TruncatedMessage       // MSG_TRUNC was set on a malformed reply
    | Malformed(nlmsglen: int)
    | ErrorTruncated         // an error reply shorter than `nlmsgerr`
    | Rtnetlink(errno: int)  // the kernel reported `errno`

  /** The note `read_response` prints for the value `recvmsg` returned. */
  function ReadNotes(respLen: int): (notes: seq<Note>)
    ensures notes == [] <==> respLen > 0
    ensures EofOnNetlink in notes <==> respLen == 0
    ensures ReceiveError in notes <==> respLen < 0
  {
    if respLen == 0 then [EofOnNetlink] else if respLen < 0 then [ReceiveError] else []
  }

  /**
    The test `check_response` applies: `datalen < 0 || nlmsglen > resp_len`
    with `nlmsglen` the length field read as a signed `int`.
   */
  predicate MalformedAsWritten(u: nat, respLen: int)
    requires u < TWO_32
  {
    DataLen(u) < 0 || S32(u) > respLen
  }

  /**
    The test the comment above it ("Did we read all data?") describes: the
    length field, unsigned as the kernel writes it, names less than a header
    or more than was read.
   */
  predicate Incomplete(u: nat, respLen: int) {
    u < NLMSG_HDRLEN || u > respLen
  }

  /** `true` when `notes` holds a `Malformed` note. */
  predicate HasMalformed(notes: seq<Note>) {
    exists n | n in notes :: n.Malformed?
  }

  /** The malformed branch: the MSG_TRUNC note, then the length that was rejected. */
  function MalformedNotes(malformed: bool, msgTrunc: bool, nlmsglen: int): (notes: seq<Note>)
    ensures HasMalformed(notes) <==> malformed
    ensures TruncatedMessage in notes <==> malformed && msgTrunc
    ensures forall e :: Rtnetlink(e) !in notes
    ensures EofOnNetlink !in notes && ReceiveError !in notes && ErrorTruncated !in notes
  {
    if malformed then
      var notes := (if msgTrunc then [TruncatedMessage] else []) + [Malformed(nlmsglen)];
      assert notes[|notes| - 1] in notes;
      notes
    else []
  }

  /**
    The NLMSG_ERROR branch.  `datalen < sizeof(struct nlmsgerr)` compares as
    `size_t`, so a negative `datalen` never counts as short; a non-zero
    `error` is reported as the errno it negates.
   */
  function ErrorNotes(resp: seq<byte>): (notes: seq<Note>)
    requires |resp| >= ERROR_REPLY_LEN
    ensures !HasMalformed(notes) && TruncatedMessage !in notes
    ensures EofOnNetlink !in notes && ReceiveError !in notes
    ensures ErrorTruncated in notes <==>
              ReplyType(resp) == NLMSG_ERROR && 0 <= DataLen(ReplyLen(resp)) < NLMSGERR_LEN
    ensures forall e :: Rtnetlink(e) in notes <==>
              ReplyType(resp) == NLMSG_ERROR && ReplyError(resp) != 0 && e == -ReplyError(resp)
  {
    var datalen := DataLen(ReplyLen(resp));
    if ReplyType(resp) == NLMSG_ERROR then
      (if 0 <= datalen < NLMSGERR_LEN then [ErrorTruncated] else []) +
      (if ReplyError(resp) != 0 then [Rtnetlink(-ReplyError(resp))] else [])
    else []
  }

  /** What `read_response` and `check_response` print once it is decided whether the reply is malformed. */
  function Notes(resp: seq<byte>, respLen: int, msgTrunc: bool, malformed: bool): (notes: seq<Note>)
    requires |resp| >= ERROR_REPLY_LEN
    ensures HasMalformed(notes) <==> malformed
    ensures TruncatedMessage in notes <==> msgTrunc && malformed
    ensures forall e :: Rtnetlink(e) in notes <==>
              ReplyType(resp) == NLMSG_ERROR && ReplyError(resp) != 0 && e == -ReplyError(resp)
    ensures ErrorTruncated in notes <==>
              ReplyType(resp) == NLMSG_ERROR && 0 <= DataLen(ReplyLen(resp)) < NLMSGERR_LEN
    ensures EofOnNetlink in notes <==> respLen == 0
    ensures ReceiveError in notes <==> respLen < 0
  {
    ReadNotes(respLen) + MalformedNotes(malformed, msgTrunc, S32(ReplyLen(resp))) + ErrorNotes(resp)
  }

  /**
    `check_response` as the source writes it.  `resp` is the whole receive
    buffer (its bytes beyond what was read are whatever it held), `respLen`
    what `recvmsg` returned and `msgTrunc` the MSG_TRUNC bit of the returned
    flags.  It only ever reports.
   */
  function CheckResponseAsWritten(resp: seq<byte>, respLen: int, msgTrunc: bool): (notes: seq<Note>)
    requires |resp| == MAX_PAYLOAD && -1 <= respLen <= MAX_PAYLOAD
    ensures HasMalformed(notes) <==> MalformedAsWritten(ReplyLen(resp), respLen)
    ensures TruncatedMessage in notes <==> msgTrunc && MalformedAsWritten(ReplyLen(resp), respLen)
    ensures forall e :: Rtnetlink(e) in notes <==>
              ReplyType(resp) == NLMSG_ERROR && ReplyError(resp) != 0 && e == -ReplyError(resp)
    ensures ErrorTruncated in notes <==>
              ReplyType(resp) == NLMSG_ERROR && 0 <= DataLen(ReplyLen(resp)) < NLMSGERR_LEN
    ensures EofOnNetlink in notes <==> respLen == 0
    ensures ReceiveError in notes <==> respLen < 0
  {
    Notes(resp, respLen, msgTrunc, MalformedAsWritten(ReplyLen(resp), respLen))
  }

  /**
    `check_response` with the malformed test done on the unsigned length.
    A reply is reported malformed exactly when it is incomplete, and an
    RTNETLINK error is reported exactly when the reply is an NLMSG_ERROR
    with a non-zero `error`, as that error negated.
   */
  function CheckResponse(resp: seq<byte>, respLen: int, msgTrunc: bool): (notes: seq<Note>)
    requires |resp| == MAX_PAYLOAD && -1 <= respLen <= MAX_PAYLOAD
    ensures HasMalformed(notes) <==> Incomplete(ReplyLen(resp), respLen)
    ensures TruncatedMessage in notes <==> msgTrunc && Incomplete(ReplyLen(resp), respLen)
    ensures forall e :: Rtnetlink(e) in notes <==>
              ReplyType(resp) == NLMSG_ERROR && ReplyError(resp) != 0 && e == -ReplyError(resp)
    ensures ErrorTruncated in notes <==>
              ReplyType(resp) == NLMSG_ERROR && 0 <= DataLen(ReplyLen(resp)) < NLMSGERR_LEN
    ensures EofOnNetlink in notes <==> respLen == 0
    ensures ReceiveError in notes <==> respLen < 0
  {
    Notes(resp, respLen, msgTrunc, Incomplete(ReplyLen(resp), respLen))
  }

  /**
    Finding: a length field from 2^31 to 2^31 + 15 reads as a negative
    `nlmsglen`, so the signed test passes a reply that claims some two
    gigabytes more than the 36 bytes that were read.
   */
  lemma MalformedAsWrittenMissesHugeLength()
    ensures !MalformedAsWritten(0x8000_0000, ERROR_REPLY_LEN)
    ensures Incomplete(0x8000_0000, ERROR_REPLY_LEN)
  {
  }

  /** The signed test agrees with the intended one everywhere outside that window. */
  lemma MalformedAsWrittenAgreement(u: nat, respLen: int)
    requires u < TWO_32 && -1 <= respLen <= MAX_PAYLOAD
    ensures MalformedAsWritten(u, respLen) <==> Incomplete(u, respLen) && !(TWO_31 <= u < TWO_31 + NLMSG_HDRLEN)
  {
    if u >= TWO_31 {
      assert S32(u) == u - TWO_32;
      assert U32(S32(u) - NLMSG_HDRLEN) == u - NLMSG_HDRLEN;
    }
  }

  /**
    `_nlmsg_recieve`: 0 for an NLMSG_ERROR reply whose `error` is not
    negative (an acknowledgement), 1 for a negative error or any other type.
   */
  function NlmsgRecieve(buf: seq<byte>): (status: int)
    requires |buf| == RECEIVE_BUF_LEN
    ensures status == 0 || status == 1
    ensures status == 0 <==> ReplyType(buf) == NLMSG_ERROR && ReplyError(buf) >= 0
  {
    if ReplyType(buf) == NLMSG_ERROR then
      if ReplyError(buf) < 0 then 1 else 0
    else 1
  }

  /** The 16 bytes of an `nlmsghdr` with the given fields. */
  function HeaderBytes(len: nat, kind: nat, flags: nat, seqNo: nat, pid: nat): (b: seq<byte>)
    requires len < TWO_32 && kind < TWO_16 && flags < TWO_16 && seqNo < TWO_32 && pid < TWO_32
    ensures |b| == NLMSG_HDRLEN
  {
    LE32(len) + LE16(kind) + LE16(flags) + LE32(seqNo) + LE32(pid)
  }

  /**
    The reply the kernel sends to a request carrying NLM_F_ACK: a header of
    type NLMSG_ERROR and length 36, `error` (0 for success, a negated errno
    otherwise), and the request's own header.
   */
  function ErrorReply(error: int, req: NlMsg): (b: seq<byte>)
    requires -(TWO_31 as int) <= error < TWO_31
    requires req.len < TWO_32 && req.kind < TWO_16 && req.flags < TWO_16 && req.seqNo < TWO_32 && req.pid < TWO_32
    ensures |b| == ERROR_REPLY_LEN
  {
    HeaderBytes(ERROR_REPLY_LEN, NLMSG_ERROR, 0, req.seqNo, req.pid) +
    LE32(U32(error)) +
    HeaderBytes(req.len, req.kind, req.flags, req.seqNo, req.pid)
  }

  /** The reader recovers the length, type and error the kernel encoded. */
  lemma ErrorReplyReadBack(error: int, req: NlMsg, rest: seq<byte>)
    requires -(TWO_31 as int) <= error < TWO_31
    requires req.len < TWO_32 && req.kind < TWO_16 && req.flags < TWO_16 && req.seqNo < TWO_32 && req.pid < TWO_32
    ensures var resp := ErrorReply(error, req) + rest;
      ReplyLen(resp) == ERROR_REPLY_LEN && ReplyType(resp) == NLMSG_ERROR && ReplyError(resp) == error
  {
    var resp := ErrorReply(error, req) + rest;
    var hdr := HeaderBytes(ERROR_REPLY_LEN, NLMSG_ERROR, 0, req.seqNo, req.pid);
    var err := LE32(U32(error));
    assert resp[0..4] == LE32(ERROR_REPLY_LEN) && resp[4..6] == LE16(NLMSG_ERROR);
    assert resp[16..20] == err;
    LE32RoundTrip(ERROR_REPLY_LEN);
    LE16RoundTrip(NLMSG_ERROR);
    LE32RoundTrip(U32(error));
    S32OfU32(error);
  }

  /** A complete acknowledgement makes `check_response` print nothing. */
  lemma AckIsSilent(req: NlMsg, rest: seq<byte>, respLen: int, msgTrunc: bool)
    requires req.len < TWO_32 && req.kind < TWO_16 && req.flags < TWO_16 && req.seqNo < TWO_32 && req.pid < TWO_32
    requires |rest| == MAX_PAYLOAD - ERROR_REPLY_LEN && ERROR_REPLY_LEN <= respLen <= MAX_PAYLOAD
    ensures CheckResponse(ErrorReply(0, req) + rest, respLen, msgTrunc) == []
  {
    ErrorReplyReadBack(0, req, rest);
  }

  /**
    A complete error reply for errno `e` makes `check_response` print
    exactly the RTNETLINK report of `e`, and `_nlmsg_recieve` fail.
   */
  lemma ErrorIsReported(e: int, req: NlMsg, rest: seq<byte>, respLen: int, msgTrunc: bool)
    requires 0 < e < TWO_31
    requires req.len < TWO_32 && req.kind < TWO_16 && req.flags < TWO_16 && req.seqNo < TWO_32 && req.pid < TWO_32
    requires |rest| == MAX_PAYLOAD - ERROR_REPLY_LEN && ERROR_REPLY_LEN <= respLen <= MAX_PAYLOAD
    ensures CheckResponse(ErrorReply(-e, req) + rest, respLen, msgTrunc) == [Rtnetlink(e)]
    ensures NlmsgRecieve(ErrorReply(-e, req) + rest + seq(RECEIVE_BUF_LEN - MAX_PAYLOAD, _ => 0)) == 1
  {
    ErrorReplyReadBack(-e, req, rest);
    ErrorReplyReadBack(-e, req, rest + seq(RECEIVE_BUF_LEN - MAX_PAYLOAD, _ => 0));
    assert ErrorReply(-e, req) + rest + seq(RECEIVE_BUF_LEN - MAX_PAYLOAD, _ => 0)
        == ErrorReply(-e, req) + (rest + seq(RECEIVE_BUF_LEN - MAX_PAYLOAD, _ => 0));
  }

  /** An acknowledgement makes `_nlmsg_recieve` succeed. */
  lemma AckIsReceived(req: NlMsg, rest: seq<byte>)
    requires req.len < TWO_32 && req.kind < TWO_16 && req.flags < TWO_16 && req.seqNo < TWO_32 && req.pid < TWO_32
    requires |rest| == RECEIVE_BUF_LEN - ERROR_REPLY_LEN
    ensures NlmsgRecieve(ErrorReply(0, req) + rest) == 0
  {
    ErrorReplyReadBack(0, req, rest);
  }
}
