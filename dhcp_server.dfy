/** `ZES_handlePacket`: the checks a received datagram goes through, the option
    scan, and the DISCOVER to OFFER / REQUEST to ACK dispatch. `Handle` says
    what happens to a datagram; `HandlePacket` does it step by step over the
    receive buffer, and the lemmas relate both to the reply encoder. */
module DhcpServer {
  import opened Wire
  import opened Text
  import opened DhcpOptions
  import opened DhcpReply

  /** Shortest datagram looked at: the fixed header and the cookie. */
  const MinPacketSize: nat := 240
  /** Offset of the magic cookie. */
  const CookieOffset: nat := 236

  /** What one datagram leads to: nothing, a reply (with whether the warning
      about a requested address other than the offer was logged, and the info
      line logged after sending), or the unchecked `BufferUnderflowException`. */
  datatype Outcome =
    | Dropped
    | Replied(datagram: seq<byte>, mismatch: bool, note: string)
    | BufferUnderflow

  /** The header checks made before the option scan: long enough, a BOOTREQUEST,
      and the magic cookie at offset 236. */
  predicate Accepted(p: seq<byte>) {
    |p| >= MinPacketSize && p[0] == OpBootRequest
    && ReadInt32(p[CookieOffset .. CookieOffset + 4]) == MagicCookie
  }

  /** The transaction id, read at offset 4. */
  function Xid(p: seq<byte>): int32
    requires |p| >= MinPacketSize
  {
    ReadInt32(p[4..8])
  }

  /** The 16 chaddr octets, read at offset 28. */
  function Chaddr(p: seq<byte>): (c: seq<byte>)
    requires |p| >= MinPacketSize
    ensures |c| == 16
  {
    p[28..44]
  }

  /** The reply `ZES_sendReply` makes for request `p`, with message type `t`. */
  function Answer(p: seq<byte>, cfg: Config, t: byte, mismatch: bool): Outcome
    requires |p| >= MinPacketSize
  {
    Replied(EncodeReply(cfg, Xid(p), Chaddr(p), t), mismatch, SentNote(t, Chaddr(p)))
  }

  /** The address a REQUEST names that is not the one on offer. */
  predicate Mismatch(st: ScanState, cfg: Config) {
    st.requestedIp.Some? && st.requestedIp.value != cfg.offerIp
  }

  /** What follows a finished scan with state `st`: the hardware-type check,
      then DISCOVER is answered with OFFER, REQUEST with ACK (logging the
      warning on a mismatch), and every other type is dropped. */
  function Dispatch(p: seq<byte>, cfg: Config, st: ScanState): (o: Outcome)
    requires |p| >= MinPacketSize
    ensures o != BufferUnderflow
  {
    if p[1] != HtypeEthernet || p[2] != HlenEthernet then Dropped
    else if st.messageType == DhcpDiscover then Answer(p, cfg, DhcpOffer, false)
    else if st.messageType == DhcpRequest then Answer(p, cfg, DhcpAck, Mismatch(st, cfg))
    else Dropped
  }

  /** What `ZES_handlePacket` does with the first `packet.getLength()` octets `p`:
      header checks, the option scan (which may underflow), then `Dispatch`. */
  function Handle(p: seq<byte>, cfg: Config): (o: Outcome)
    ensures o != Dropped ==> Accepted(p)
  {
    if !Accepted(p) then Dropped
    else match Scan(p, OptionsOffset, Initial)
      case Underflow => BufferUnderflow
      case Scanned(st) => Dispatch(p, cfg, st)
  }

  /** `ZES_handlePacket` over the receive buffer `data`, of which the first
      `length` octets were received: the header reads, the option loop with its
      cursor, and the dispatch. */
  method HandlePacket(data: array<byte>, length: nat, cfg: Config) returns (o: Outcome)
    requires length <= data.Length
    ensures o == Handle(data[..length], cfg)
  {
    ghost var p := data[..length];
    if length < MinPacketSize {
      return Dropped;
    }
    var op := data[0];
    if op != OpBootRequest {
      return Dropped;
    }
    var htype := data[1];
    var hlen := data[2];
    var xid := ReadInt32(data[4..8]);
    var chaddr := data[28..44];
    var cookie := ReadInt32(data[CookieOffset .. CookieOffset + 4]);
    assert p[4..8] == data[4..8] && p[28..44] == chaddr;
    assert p[CookieOffset .. CookieOffset + 4] == data[CookieOffset .. CookieOffset + 4];
    if cookie != MagicCookie {
      return Dropped;
    }

    var scanned := ScanOptions(data, length);
    if scanned == Underflow {
      return BufferUnderflow;
    }
    var messageType, requestedIp := scanned.state.messageType, scanned.state.requestedIp;

    if htype != HtypeEthernet || hlen != HlenEthernet {
      return Dropped;
    }
    if messageType == DhcpDiscover {
      var datagram, note := SendReply(cfg, xid, chaddr, DhcpOffer);
      return Replied(datagram, false, note);
    } else if messageType == DhcpRequest {
      var mismatch := requestedIp != None && requestedIp.value != cfg.offerIp;
      var datagram, note := SendReply(cfg, xid, chaddr, DhcpAck);
      return Replied(datagram, mismatch, note);
    }
    return Dropped;
  }

  /** The option loop of `ZES_handlePacket`: a cursor from offset 240 to
      `length`, stopping at End, skipping Pad, and reading a length octet and a
      value for every other tag. The `return` of `Underflow` is the point where
      `buffer.get()` throws. */
  method ScanOptions(data: array<byte>, length: nat) returns (r: ScanResult)
    requires OptionsOffset <= length <= data.Length
    ensures r == Scan(data[..length], OptionsOffset, Initial)
  {
    ghost var p := data[..length];
    var messageType: byte := 0;
    var requestedIp: Option<Addr> := None;
    var pos := OptionsOffset;
    while pos < length
      invariant OptionsOffset <= pos <= length
      invariant Scan(p, pos, ScanState(messageType, requestedIp)) == Scan(p, OptionsOffset, Initial)
      decreases length - pos
    {
      var option := data[pos];
      if option == OptEnd {
        break;
      }
      if option == OptPad {
        pos := pos + 1;
        continue;
      }
      if pos + 1 == length {
        return Underflow;
      }
      var len := data[pos + 1] as nat;
      if length - (pos + 2) < len {
        break;
      }
      var value := data[pos + 2 .. pos + 2 + len];
      assert value == p[pos + 2 .. pos + 2 + len];
      RecordAtValue(ScanState(messageType, requestedIp), p, pos);
      if option == OptMessageType && len == 1 {
        messageType := value[0];
      } else if option == OptRequestedIp && len == 4 {
        requestedIp := Some(value);
      }
      pos := pos + 2 + len;
    }
    return Scanned(ScanState(messageType, requestedIp));
  }

  /** Which datagrams are answered: exactly the accepted ones from Ethernet
      clients whose scan finishes with type DISCOVER or REQUEST. */
  lemma RepliedExactly(p: seq<byte>, cfg: Config)
    ensures Handle(p, cfg).Replied? <==>
      && Accepted(p) && p[1] == HtypeEthernet && p[2] == HlenEthernet
      && Scan(p, OptionsOffset, Initial).Scanned?
      && (Scan(p, OptionsOffset, Initial).state.messageType == DhcpDiscover
          || Scan(p, OptionsOffset, Initial).state.messageType == DhcpRequest)
  {
  }

  /** Dropped without a reply and without the warning: too short, not a
      BOOTREQUEST, a wrong cookie, or (once the scan has finished) a hardware
      type or address length other than Ethernet's. */
  lemma MalformedDropped(p: seq<byte>, cfg: Config)
    requires |p| < MinPacketSize || p[0] != OpBootRequest
      || ReadInt32(p[CookieOffset .. CookieOffset + 4]) != MagicCookie
      || (Scan(p, OptionsOffset, Initial).Scanned? && (p[1] != HtypeEthernet || p[2] != HlenEthernet))
    ensures Handle(p, cfg) == Dropped
  {
  }

  /** The exception is thrown only for an accepted datagram whose option scan
      reads a tag other than Pad and End as its very last octet; the hardware
      check after the scan is then never made. */
  lemma UnderflowExactly(p: seq<byte>, cfg: Config)
    ensures Handle(p, cfg) == BufferUnderflow <==> Accepted(p) && Scan(p, OptionsOffset, Initial) == Underflow
    ensures Handle(p, cfg) == BufferUnderflow ==>
      |p| > MinPacketSize && p[|p| - 1] != OptPad && p[|p| - 1] != OptEnd
  {
    if Handle(p, cfg) == BufferUnderflow {
      UnderflowOnlyAtLastOctet(p, OptionsOffset, Initial);
    }
  }

  /** Every reply answers the request it was made for: it is a BOOTREPLY of 262
      or 268 octets, echoes the request's xid, chaddr and cookie octet for
      octet, offers the configured address, and its option scan finds OFFER
      for a DISCOVER and ACK for a REQUEST; the warning is logged only for a
      REQUEST naming an address other than the offer. */
  lemma ReplyAnswersRequest(p: seq<byte>, cfg: Config)
    requires Handle(p, cfg).Replied?
    ensures var d := Handle(p, cfg).datagram;
      var t := Scan(p, OptionsOffset, Initial).state.messageType;
      && |p| >= MinPacketSize && Scan(p, OptionsOffset, Initial).Scanned?
      && (|d| == 262 || |d| == 268) && |d| <= ReplyCapacity
      && d[0] == OpBootReply
      && d[4..8] == p[4..8]
      && d[16..20] == cfg.offerIp
      && d[28..44] == p[28..44]
      && d[CookieOffset .. CookieOffset + 4] == p[CookieOffset .. CookieOffset + 4]
      && Scan(d, OptionsOffset, Initial) == Scanned(ScanState(if t == DhcpDiscover then DhcpOffer else DhcpAck, None))
      && (Handle(p, cfg).mismatch <==> t == DhcpRequest && Mismatch(Scan(p, OptionsOffset, Initial).state, cfg))
  {
    var st := Scan(p, OptionsOffset, Initial).state;
    var r := if st.messageType == DhcpDiscover then DhcpOffer else DhcpAck;
    assert Handle(p, cfg).datagram == EncodeReply(cfg, Xid(p), Chaddr(p), r);
    AnswerEchoes(p, cfg, r);
  }

  /** The reply built for an accepted request `p`, whatever its type `t`. */
  lemma AnswerEchoes(p: seq<byte>, cfg: Config, t: byte)
    requires Accepted(p)
    ensures var d := EncodeReply(cfg, Xid(p), Chaddr(p), t);
      && (|d| == 262 || |d| == 268) && |d| <= ReplyCapacity
      && d[0] == OpBootReply
      && d[4..8] == p[4..8]
      && d[16..20] == cfg.offerIp
      && d[28..44] == p[28..44]
      && d[CookieOffset .. CookieOffset + 4] == p[CookieOffset .. CookieOffset + 4]
      && Scan(d, OptionsOffset, Initial) == Scanned(ScanState(t, None))
  {
    var xid, chaddr := Xid(p), Chaddr(p);
    var d := EncodeReply(cfg, xid, chaddr, t);
    ReplyLayout(cfg, xid, chaddr, t);
    HeaderLayout(cfg, xid, chaddr);
    ReplyRoundTrip(cfg, xid, chaddr, t);
    var h := ReplyHeader(cfg, xid, chaddr);
    assert d[..OptionsOffset] == h;
    assert d[4..8] == h[4..8] && d[16..20] == h[16..20] && d[28..44] == h[28..44];
    assert d[CookieOffset .. CookieOffset + 4] == h[236..240];
    BigEndianReadInt32(p[4..8]);
    assert CopyOf16(chaddr) == chaddr;
    ReadBigEndian32(MagicCookie);
    ReadInt32Injective(p[CookieOffset .. CookieOffset + 4], BigEndian32(MagicCookie));
  }

  /** The server never answers a reply, its own broadcasts included. */
  lemma RepliesAreNotAnswered(cfg: Config, xid: int32, chaddr: seq<byte>, t: byte, cfg': Config)
    ensures Handle(EncodeReply(cfg, xid, chaddr, t), cfg') == Dropped
  {
    HeaderLayout(cfg, xid, chaddr);
    ReplyLayout(cfg, xid, chaddr, t);
    var d := EncodeReply(cfg, xid, chaddr, t);
    assert d[0] == ReplyHeader(cfg, xid, chaddr)[..4][0];
  }

  /** A request as a client lays it out: BOOTREQUEST from Ethernet, the xid,
      zero secs, flags and addresses, the 16 chaddr octets, zero sname and file,
      and the cookie. */
  function RequestHeader(xid: int32, chaddr: seq<byte>): (r: seq<byte>)
    requires |chaddr| == 16
    ensures |r| == MinPacketSize
  {
    [OpBootRequest, HtypeEthernet, HlenEthernet, 0] + BigEndian32(xid) + Zeros(20)
    + chaddr + Zeros(192) + BigEndian32(MagicCookie)
  }

  /** A request header, well-formed options, and End. */
  function ClientRequest(xid: int32, chaddr: seq<byte>, os: seq<OptionEntry>): seq<byte>
    requires |chaddr| == 16 && AllWellFormed(os)
  {
    RequestHeader(xid, chaddr) + EncodeOptions(os) + [OptEnd]
  }

  lemma RequestHeaderLayout(xid: int32, chaddr: seq<byte>, rest: seq<byte>)
    requires |chaddr| == 16
    ensures var p := RequestHeader(xid, chaddr) + rest;
      && Accepted(p) && p[1] == HtypeEthernet && p[2] == HlenEthernet
      && Xid(p) == xid && Chaddr(p) == chaddr
  {
    var h := RequestHeader(xid, chaddr);
    var p := h + rest;
    var front := [OpBootRequest, HtypeEthernet, HlenEthernet, 0] + BigEndian32(xid);
    var middle := Zeros(20) + chaddr + Zeros(192);
    assert h == front + middle + BigEndian32(MagicCookie);
    assert p[4..8] == front[4..8] == BigEndian32(xid);
    assert p[28..44] == middle[20..36] == chaddr;
    assert p[CookieOffset .. CookieOffset + 4] == h[236..240] == BigEndian32(MagicCookie);
    ReadBigEndian32(xid);
    ReadBigEndian32(MagicCookie);
  }

  /** The scan of a client request finds what its options say, in order. */
  lemma ClientRequestScan(xid: int32, chaddr: seq<byte>, os: seq<OptionEntry>)
    requires |chaddr| == 16 && AllWellFormed(os)
    ensures var p := ClientRequest(xid, chaddr, os);
      && Accepted(p) && p[1] == HtypeEthernet && p[2] == HlenEthernet
      && Xid(p) == xid && Chaddr(p) == chaddr
      && Scan(p, OptionsOffset, Initial) == Scanned(Fold(os, Initial))
  {
    var h := RequestHeader(xid, chaddr);
    RequestHeaderLayout(xid, chaddr, EncodeOptions(os) + [OptEnd]);
    assert ClientRequest(xid, chaddr, os) == h + (EncodeOptions(os) + [OptEnd]);
    ScanEncodedArea(h, os, [], Initial);
    assert h + EncodeOptions(os) + [OptEnd] + [] == ClientRequest(xid, chaddr, os);
  }

  /** A DISCOVER is answered with an OFFER carrying its xid and chaddr, and
      without the warning. */
  lemma DiscoverIsOffered(cfg: Config, xid: int32, chaddr: seq<byte>, os: seq<OptionEntry>)
    requires |chaddr| == 16 && AllWellFormed(os)
    requires Fold(os, Initial).messageType == DhcpDiscover
    ensures Handle(ClientRequest(xid, chaddr, os), cfg)
      == Replied(EncodeReply(cfg, xid, chaddr, DhcpOffer), false, SentNote(DhcpOffer, chaddr))
  {
    ClientRequestScan(xid, chaddr, os);
  }

  /** A REQUEST is always acknowledged; the warning is logged exactly when it
      names an address other than the one on offer. */
  lemma RequestIsAcked(cfg: Config, xid: int32, chaddr: seq<byte>, os: seq<OptionEntry>)
    requires |chaddr| == 16 && AllWellFormed(os)
    requires Fold(os, Initial).messageType == DhcpRequest
    ensures var ip := Fold(os, Initial).requestedIp;
      Handle(ClientRequest(xid, chaddr, os), cfg)
      == Replied(EncodeReply(cfg, xid, chaddr, DhcpAck), ip.Some? && ip.value != cfg.offerIp,
                 SentNote(DhcpAck, chaddr))
  {
    ClientRequestScan(xid, chaddr, os);
  }

  /** Every other message type, including none at all, is ignored. */
  lemma OtherTypesIgnored(cfg: Config, xid: int32, chaddr: seq<byte>, os: seq<OptionEntry>)
    requires |chaddr| == 16 && AllWellFormed(os)
    requires Fold(os, Initial).messageType != DhcpDiscover && Fold(os, Initial).messageType != DhcpRequest
    ensures Handle(ClientRequest(xid, chaddr, os), cfg) == Dropped
  {
    ClientRequestScan(xid, chaddr, os);
  }

  /** As written: a well-formed request whose datagram ends with one more tag,
      with no length octet after it, raises the exception; `run` catches only
      `IOException`, so the server thread ends and the socket is closed. */
  lemma LoneTagStopsServer(cfg: Config, xid: int32, chaddr: seq<byte>, os: seq<OptionEntry>, tag: byte)
    requires |chaddr| == 16 && AllWellFormed(os)
    requires tag != OptPad && tag != OptEnd
    ensures Handle(RequestHeader(xid, chaddr) + EncodeOptions(os) + [tag], cfg) == BufferUnderflow
  {
    var h := RequestHeader(xid, chaddr);
    RequestHeaderLayout(xid, chaddr, EncodeOptions(os) + [tag]);
    assert h + EncodeOptions(os) + [tag] == h + (EncodeOptions(os) + [tag]);
    LoneTagUnderflows(h, os, tag, Initial);
  }

  /** `Handle` with the tolerant scan: a missing length octet ends the option
      area as a truncated value does. */
  function HandleTolerant(p: seq<byte>, cfg: Config): (o: Outcome)
    ensures o != BufferUnderflow
  {
    if !Accepted(p) then Dropped
    else Dispatch(p, cfg, ScanTolerant(p, OptionsOffset, Initial))
  }

  /** The tolerant handler answers every datagram the handler as written
      answers, in the same way, and where that one throws it answers as if the
      lone last octet had not been received. */
  lemma HandleTolerantAgrees(p: seq<byte>, cfg: Config)
    ensures Handle(p, cfg) != BufferUnderflow ==> HandleTolerant(p, cfg) == Handle(p, cfg)
    ensures Handle(p, cfg) == BufferUnderflow ==>
      |p| > MinPacketSize && HandleTolerant(p, cfg) == HandleTolerant(p[..|p| - 1], cfg)
  {
    if Accepted(p) {
      ScanTolerantAgrees(p, OptionsOffset, Initial);
      if Handle(p, cfg) == BufferUnderflow {
        UnderflowExactly(p, cfg);
        var q := p[..|p| - 1];
        assert q[0] == p[0] && q[1] == p[1] && q[2] == p[2];
        assert q[CookieOffset .. CookieOffset + 4] == p[CookieOffset .. CookieOffset + 4];
        assert q[4..8] == p[4..8] && q[28..44] == p[28..44];
      }
    }
  }

  /** The finding's input, answered: with the tolerant scan, the request with a
      trailing lone tag gets the same reply as the request without it. */
  lemma LoneTagTolerated(cfg: Config, xid: int32, chaddr: seq<byte>, os: seq<OptionEntry>, tag: byte)
    requires |chaddr| == 16 && AllWellFormed(os)
    requires tag != OptPad && tag != OptEnd
    ensures HandleTolerant(RequestHeader(xid, chaddr) + EncodeOptions(os) + [tag], cfg)
      == HandleTolerant(RequestHeader(xid, chaddr) + EncodeOptions(os), cfg)
  {
    var p := RequestHeader(xid, chaddr) + EncodeOptions(os) + [tag];
    LoneTagStopsServer(cfg, xid, chaddr, os, tag);
    HandleTolerantAgrees(p, cfg);
    assert p[..|p| - 1] == RequestHeader(xid, chaddr) + EncodeOptions(os);
  }
}
