/** The reply side of `ZES_DhcpServer`: the OFFER/ACK layout `ZES_sendReply`
    writes into a 300-octet `ByteBuffer`, the fixed BOOTP header of section 2 of
    RFC 2131, the magic cookie of section 3 of RFC 2131, and the options Message
    Type, Server Identifier (section 9.7 of RFC 2132), Subnet Mask (section 3.3),
    Router (section 3.5), IP Address Lease Time (section 9.2) and End. */
module DhcpReply {
  import opened Wire
  import opened Text
  import opened DhcpOptions

  const OpBootRequest: byte := 1
  const OpBootReply: byte := 2
  const HtypeEthernet: byte := 1
  const HlenEthernet: byte := 6
  const MagicCookie: int32 := 0x63825363
  const DhcpDiscover: byte := 1
  const DhcpOffer: byte := 2
  const DhcpRequest: byte := 3
  const DhcpAck: byte := 5
  const OptSubnetMask: byte := 1
  const OptRouter: byte := 3
  const OptLeaseTime: byte := 51
  const OptServerId: byte := 54

  /** Size of the buffer `ZES_sendReply` allocates. */
  const ReplyCapacity: nat := 300
  /** Offset of the option area: 236 header octets and the 4-octet cookie. */
  const OptionsOffset: nat := 240

  /** The server's immutable parameters; every address is IPv4. */
  datatype Config = Config(serverIp: Addr, offerIp: Addr, subnetMask: Addr,
                           gateway: Option<Addr>, leaseSeconds: int32)

  /** `Arrays.copyOf(chaddr, 16)`: cut to 16 octets or padded with zeros. */
  function CopyOf16(chaddr: seq<byte>): (r: seq<byte>)
    ensures |r| == 16
    ensures forall i :: 0 <= i < 16 ==> r[i] == if i < |chaddr| then chaddr[i] else 0
  {
    if |chaddr| >= 16 then chaddr[..16] else chaddr + Zeros(16 - |chaddr|)
  }

  /** op, htype, hlen, hops, xid, secs, flags and ciaddr. */
  function HeaderFront(xid: int32): (r: seq<byte>)
    ensures |r| == 16
  {
    [OpBootReply, HtypeEthernet, HlenEthernet, 0] + BigEndian32(xid) + [0, 0] + [0, 0] + BigEndian32(0)
  }

  /** yiaddr (the offered address), siaddr (the server) and giaddr. */
  function HeaderAddresses(cfg: Config): (r: seq<byte>)
    ensures |r| == 12
  {
    cfg.offerIp + cfg.serverIp + BigEndian32(0)
  }

  /** The 240 octets before the options: the fields above, chaddr, the sname
      and file fields, and the magic cookie. */
  function ReplyHeader(cfg: Config, xid: int32, chaddr: seq<byte>): (r: seq<byte>)
    ensures |r| == OptionsOffset
  {
    HeaderFront(xid) + HeaderAddresses(cfg) + CopyOf16(chaddr) + Zeros(64) + Zeros(128) + BigEndian32(MagicCookie)
  }

  /** One option as the reply carries it: tag, length octet, value. */
  function OptionOctets(tag: byte, value: seq<byte>): (r: seq<byte>)
    requires |value| < 256
    ensures |r| == 2 + |value| && r[0] == tag && r[1] as int == |value| && r[2..] == value
  {
    [tag, |value| as byte] + value
  }

  /** The Router option, present only when a gateway is configured. */
  function RouterOption(cfg: Config): (r: seq<byte>)
    ensures |r| == if cfg.gateway.Some? then 6 else 0
  {
    if cfg.gateway.Some? then OptionOctets(OptRouter, cfg.gateway.value) else []
  }

  /** The option area of a reply, End included. */
  function ReplyOptions(cfg: Config, messageType: byte): (r: seq<byte>)
    ensures |r| == 22 + |RouterOption(cfg)|
  {
    OptionOctets(OptMessageType, [messageType]) + OptionOctets(OptServerId, cfg.serverIp)
    + OptionOctets(OptSubnetMask, cfg.subnetMask) + RouterOption(cfg)
    + OptionOctets(OptLeaseTime, BigEndian32(cfg.leaseSeconds)) + [OptEnd]
  }

  /** The datagram `ZES_sendReply` sends: the first `position()` octets of its buffer. */
  function EncodeReply(cfg: Config, xid: int32, chaddr: seq<byte>, messageType: byte): (r: seq<byte>)
    ensures |r| <= ReplyCapacity
  {
    ReplyHeader(cfg, xid, chaddr) + ReplyOptions(cfg, messageType)
  }

  lemma HeaderFrontLayout(xid: int32)
    ensures var f := HeaderFront(xid);
      f[..4] == [OpBootReply, HtypeEthernet, HlenEthernet, 0] && f[4..8] == BigEndian32(xid)
      && forall i :: 8 <= i < 16 ==> f[i] == 0
  {
  }

  /** The fixed header of a reply: the request's xid and chaddr are echoed, the
      offered address is yiaddr, the server address is siaddr, every other field
      is zero, and the cookie closes it. */
  lemma HeaderLayout(cfg: Config, xid: int32, chaddr: seq<byte>)
    ensures var h := ReplyHeader(cfg, xid, chaddr);
      && h[..4] == [OpBootReply, HtypeEthernet, HlenEthernet, 0]
      && h[4..8] == BigEndian32(xid)
      && (forall i :: 8 <= i < 16 ==> h[i] == 0)
      && h[16..20] == cfg.offerIp
      && h[20..24] == cfg.serverIp
      && (forall i :: 24 <= i < 28 ==> h[i] == 0)
      && h[28..44] == CopyOf16(chaddr)
      && (forall i :: 44 <= i < 236 ==> h[i] == 0)
      && h[236..240] == [0x63, 0x82, 0x53, 0x63]
  {
    var h := ReplyHeader(cfg, xid, chaddr);
    var f, a, c := HeaderFront(xid), HeaderAddresses(cfg), CopyOf16(chaddr);
    var z, k := Zeros(64) + Zeros(128), BigEndian32(MagicCookie);
    assert h == f + a + c + (Zeros(64) + Zeros(128)) + k;
    HeaderFrontLayout(xid);
    assert h[..16] == f;
    assert h[16..28] == a;
    assert a[..4] == cfg.offerIp && a[4..8] == cfg.serverIp;
    assert h[28..44] == c;
    assert h[44..236] == z;
    assert h[236..240] == k;
  }

  /** The option area of a reply: Message Type, Server Identifier, Subnet Mask,
      Router only with a gateway, Lease Time (big-endian) and End, each with the
      length its value has. */
  lemma OptionsLayout(cfg: Config, messageType: byte)
    ensures var o := ReplyOptions(cfg, messageType);
      && o[..3] == [OptMessageType, 1, messageType]
      && o[3..9] == [OptServerId, 4] + cfg.serverIp
      && o[9..15] == [OptSubnetMask, 4] + cfg.subnetMask
      && (cfg.gateway.Some? ==> o[15..21] == [OptRouter, 4] + cfg.gateway.value)
      && o[|o| - 7 .. |o| - 1] == [OptLeaseTime, 4] + BigEndian32(cfg.leaseSeconds)
      && o[|o| - 1] == OptEnd
  {
    var o := ReplyOptions(cfg, messageType);
    var m := [OptMessageType, 1, messageType];
    var sid := [OptServerId, 4] + cfg.serverIp;
    var mask := [OptSubnetMask, 4] + cfg.subnetMask;
    var router := RouterOption(cfg);
    var lease := [OptLeaseTime, 4] + BigEndian32(cfg.leaseSeconds);
    assert o == m + sid + mask + router + lease + [OptEnd];
    assert o[..3] == m by {
      Pieces(m, sid + mask + router + lease, [OptEnd]);
    }
    assert o[3..9] == sid by {
      Pieces(m, sid, mask + router + lease + [OptEnd]);
    }
    assert o[9..15] == mask by {
      Pieces(m + sid, mask, router + lease + [OptEnd]);
    }
    assert o[15..15 + |router|] == router by {
      Pieces(m + sid + mask, router, lease + [OptEnd]);
    }
    assert o[|o| - 7 .. |o| - 1] == lease by {
      Pieces(m + sid + mask + router, lease, [OptEnd]);
    }
  }

  /** The layout of every reply: 262 octets without a gateway and 268 with one,
      so it always fits the 300-octet buffer, the header of `HeaderLayout`
      followed by the options of `OptionsLayout`. */
  lemma ReplyLayout(cfg: Config, xid: int32, chaddr: seq<byte>, messageType: byte)
    ensures var r := EncodeReply(cfg, xid, chaddr, messageType);
      && |r| == (if cfg.gateway.Some? then 268 else 262) && |r| <= ReplyCapacity
      && r[..OptionsOffset] == ReplyHeader(cfg, xid, chaddr)
      && r[OptionsOffset..] == ReplyOptions(cfg, messageType)
  {
    var r := EncodeReply(cfg, xid, chaddr, messageType);
    assert r[..OptionsOffset] == ReplyHeader(cfg, xid, chaddr);
    assert r[OptionsOffset..] == ReplyOptions(cfg, messageType);
  }

  /** Round trip: the xid read back from octets 4..7 of a reply is the one it
      was built with, and the option scan of the request path, run over the
      reply from offset 240, finds the message type it was built with and no
      requested address. */
  lemma ReplyRoundTrip(cfg: Config, xid: int32, chaddr: seq<byte>, messageType: byte)
    ensures var r := EncodeReply(cfg, xid, chaddr, messageType);
      && ReadInt32(r[4..8]) == xid
      && Scan(r, OptionsOffset, Initial) == Scanned(ScanState(messageType, None))
  {
    var r := EncodeReply(cfg, xid, chaddr, messageType);
    ReplyLayout(cfg, xid, chaddr, messageType);
    HeaderLayout(cfg, xid, chaddr);
    assert r[4..8] == ReplyHeader(cfg, xid, chaddr)[4..8];
    ReadBigEndian32(xid);
    ScanReplyOptions(r, cfg, messageType, Initial);
  }

  /** The scan over a reply's option area records its message type and nothing else. */
  lemma ScanReplyOptions(r: seq<byte>, cfg: Config, messageType: byte, st: ScanState)
    requires |r| >= OptionsOffset && r[OptionsOffset..] == ReplyOptions(cfg, messageType)
    ensures Scan(r, OptionsOffset, st) == Scanned(st.(messageType := messageType))
  {
    var o := ReplyOptions(cfg, messageType);
    OptionsLayout(cfg, messageType);
    var st' := st.(messageType := messageType);
    assert r[240] == OptMessageType && r[241] == 1 && r[242] == messageType;
    assert r[242..243] == [messageType];
    assert Scan(r, 240, st) == Scan(r, 243, st');
    assert r[243] == OptServerId && r[244] == 4;
    assert Scan(r, 243, st') == Scan(r, 249, st');
    assert r[249] == OptSubnetMask && r[250] == 4;
    assert Scan(r, 249, st') == Scan(r, 255, st');
    var q := 255 + |RouterOption(cfg)|;
    if cfg.gateway.Some? {
      assert r[255] == OptRouter && r[256] == 4;
      assert Scan(r, 255, st') == Scan(r, q, st');
    }
    assert |r| == q + 7;
    assert r[q] == OptLeaseTime && r[q + 1] == 4;
    assert Scan(r, q, st') == Scan(r, q + 6, st');
    assert r[q + 6] == OptEnd;
  }

  /** `ByteBuffer.allocate(n)` as far as `ZES_sendReply` uses it: a zeroed
      array and a write position. */
  class ReplyWriter {
    const data: array<byte>
    var position: nat
    /** The octets put so far. */
    ghost var Contents: seq<byte>

    ghost predicate Valid()
      reads this, data
    {
      position <= data.Length && Contents == data[..position]
    }

    constructor Allocate(capacity: nat)
      ensures Valid() && fresh(data) && data.Length == capacity && Contents == []
    {
      data := new byte[capacity](_ => 0);
      position := 0;
      Contents := [];
    }

    /** `put(byte)`. */
    method Put(b: byte)
      requires Valid() && position < data.Length
      modifies this, data
      ensures Valid() && position == old(position) + 1 && Contents == old(Contents) + [b]
    {
      data[position] := b;
      position := position + 1;
      Contents := Contents + [b];
    }

    /** `put(byte[])`: a bulk copy. */
    method PutBytes(bs: seq<byte>)
      requires Valid() && position + |bs| <= data.Length
      modifies this, data
      ensures Valid() && position == old(position) + |bs| && Contents == old(Contents) + bs
    {
      forall k | 0 <= k < |bs| {
        data[position + k] := bs[k];
      }
      assert data[position .. position + |bs|] == bs;
      assert data[..position + |bs|] == Contents + bs;
      position := position + |bs|;
      Contents := Contents + bs;
    }

    /** `putInt`: four big-endian octets. */
    method PutInt(v: int32)
      requires Valid() && position + 4 <= data.Length
      modifies this, data
      ensures Valid() && position == old(position) + 4 && Contents == old(Contents) + BigEndian32(v)
    {
      PutBytes(BigEndian32(v));
    }
  }

  /** The header half of `ZES_sendReply`: the fixed fields, put in wire order. */
  method PutHeader(reply: ReplyWriter, cfg: Config, xid: int32, chaddr: seq<byte>)
    requires reply.Valid() && reply.position + OptionsOffset <= reply.data.Length
    modifies reply, reply.data
    ensures reply.Valid() && reply.Contents == old(reply.Contents) + ReplyHeader(cfg, xid, chaddr)
  {
    ghost var start := reply.Contents;
    PutHeaderFront(reply, xid);
    PutHeaderAddresses(reply, cfg);
    PutHeaderTail(reply, chaddr);
    assert reply.Contents == start + HeaderFront(xid) + HeaderAddresses(cfg)
      + (CopyOf16(chaddr) + Zeros(64) + Zeros(128) + BigEndian32(MagicCookie));
  }

  /** op, htype, hlen, hops, xid, secs, flags, ciaddr. */
  method PutHeaderFront(reply: ReplyWriter, xid: int32)
    requires reply.Valid() && reply.position + 16 <= reply.data.Length
    modifies reply, reply.data
    ensures reply.Valid() && reply.Contents == old(reply.Contents) + HeaderFront(xid)
  {
    ghost var start := reply.Contents;
    reply.Put(OpBootReply);
    reply.Put(HtypeEthernet);
    reply.Put(HlenEthernet);
    reply.Put(0);               // hops
    ghost var fixed: seq<byte> := [OpBootReply, HtypeEthernet, HlenEthernet, 0];
    assert reply.Contents == start + fixed;
    reply.PutInt(xid);
    Regroup(start, fixed, BigEndian32(xid));
    reply.PutBytes([0, 0]);     // secs, putShort
    Regroup(start, fixed + BigEndian32(xid), [0, 0]);
    reply.PutBytes([0, 0]);     // flags, putShort
    Regroup(start, fixed + BigEndian32(xid) + [0, 0], [0, 0]);
    reply.PutInt(0);            // ciaddr
    Regroup(start, fixed + BigEndian32(xid) + [0, 0] + [0, 0], BigEndian32(0));
  }

  /** yiaddr, siaddr, giaddr. */
  method PutHeaderAddresses(reply: ReplyWriter, cfg: Config)
    requires reply.Valid() && reply.position + 12 <= reply.data.Length
    modifies reply, reply.data
    ensures reply.Valid() && reply.Contents == old(reply.Contents) + HeaderAddresses(cfg)
  {
    ghost var start := reply.Contents;
    reply.PutBytes(cfg.offerIp);
    reply.PutBytes(cfg.serverIp);
    Regroup(start, cfg.offerIp, cfg.serverIp);
    reply.PutInt(0);            // giaddr
    Regroup(start, cfg.offerIp + cfg.serverIp, BigEndian32(0));
  }

  /** chaddr, sname, file and the magic cookie. */
  method PutHeaderTail(reply: ReplyWriter, chaddr: seq<byte>)
    requires reply.Valid() && reply.position + 212 <= reply.data.Length
    modifies reply, reply.data
    ensures reply.Valid()
    ensures reply.Contents == old(reply.Contents) + (CopyOf16(chaddr) + Zeros(64) + Zeros(128) + BigEndian32(MagicCookie))
  {
    ghost var start := reply.Contents;
    reply.PutBytes(CopyOf16(chaddr));
    reply.PutBytes(Zeros(64));  // sname
    Regroup(start, CopyOf16(chaddr), Zeros(64));
    reply.PutBytes(Zeros(128)); // file
    Regroup(start, CopyOf16(chaddr) + Zeros(64), Zeros(128));
    reply.PutInt(MagicCookie);
    Regroup(start, CopyOf16(chaddr) + Zeros(64) + Zeros(128), BigEndian32(MagicCookie));
  }

  /** One option as `ZES_sendReply` puts it: the tag, the length octet, the value. */
  method PutOption(reply: ReplyWriter, tag: byte, value: seq<byte>)
    requires |value| < 256
    requires reply.Valid() && reply.position + 2 + |value| <= reply.data.Length
    modifies reply, reply.data
    ensures reply.Valid() && reply.position == old(reply.position) + 2 + |value|
    ensures reply.Contents == old(reply.Contents) + OptionOctets(tag, value)
  {
    reply.Put(tag);
    reply.Put(|value| as byte);
    reply.PutBytes(value);
  }

  lemma Regroup(a: seq<byte>, b: seq<byte>, c: seq<byte>)
    ensures a + b + c == a + (b + c)
  {
  }

  /** The option half of `ZES_sendReply`, End included. */
  method PutOptions(reply: ReplyWriter, cfg: Config, messageType: byte)
    requires reply.Valid() && reply.position + 28 <= reply.data.Length
    modifies reply, reply.data
    ensures reply.Valid() && reply.Contents == old(reply.Contents) + ReplyOptions(cfg, messageType)
  {
    ghost var start := reply.Contents;
    ghost var m := OptionOctets(OptMessageType, [messageType]);
    ghost var sid := OptionOctets(OptServerId, cfg.serverIp);
    ghost var mask := OptionOctets(OptSubnetMask, cfg.subnetMask);
    ghost var router := RouterOption(cfg);
    ghost var lease := OptionOctets(OptLeaseTime, BigEndian32(cfg.leaseSeconds));
    PutOption(reply, OptMessageType, [messageType]);
    PutOption(reply, OptServerId, cfg.serverIp);
    Regroup(start, m, sid);
    PutOption(reply, OptSubnetMask, cfg.subnetMask);
    Regroup(start, m + sid, mask);
    if cfg.gateway.Some? {
      PutOption(reply, OptRouter, cfg.gateway.value);
    }
    Regroup(start, m + sid + mask, router);
    PutOption(reply, OptLeaseTime, BigEndian32(cfg.leaseSeconds));
    Regroup(start, m + sid + mask + router, lease);
    reply.Put(OptEnd);
    Regroup(start, m + sid + mask + router + lease, [OptEnd]);
  }

  /** The datagram `ZES_sendReply` sends: the fields are put one by one into a
      fresh 300-octet buffer and the datagram is the buffer up to the final
      position. */
  method BuildReply(cfg: Config, xid: int32, chaddr: seq<byte>, messageType: byte)
    returns (datagram: seq<byte>)
    ensures datagram == EncodeReply(cfg, xid, chaddr, messageType)
  {
    var reply := new ReplyWriter.Allocate(ReplyCapacity);
    PutHeader(reply, cfg, xid, chaddr);
    ghost var header := ReplyHeader(cfg, xid, chaddr);
    assert reply.Contents == header by {
      assert [] + header == header;
    }
    PutOptions(reply, cfg, messageType);
    var length := reply.position;
    datagram := reply.data[..length];
  }

  /** `ZES_sendReply` up to the datagram it sends and the line it logs. */
  method SendReply(cfg: Config, xid: int32, chaddr: seq<byte>, messageType: byte)
    returns (datagram: seq<byte>, note: string)
    ensures datagram == EncodeReply(cfg, xid, chaddr, messageType)
    ensures note == SentNote(messageType, chaddr)
  {
    datagram := BuildReply(cfg, xid, chaddr, messageType);
    var mac := FormatMac(chaddr);
    note := "Sent DHCP " + MessageTypeLabel(messageType) + " to " + mac;
  }

  /** `ZES_messageTypeLabel`: the name of the two reply types, "UNKNOWN" otherwise. */
  function MessageTypeLabel(t: byte): (name: string)
    ensures name == "OFFER" <==> t == DhcpOffer
    ensures name == "ACK" <==> t == DhcpAck
    ensures name == "UNKNOWN" <==> t != DhcpOffer && t != DhcpAck
  {
    if t == DhcpOffer then "OFFER" else if t == DhcpAck then "ACK" else "UNKNOWN"
  }

  /** The number of hardware-address octets `ZES_formatMac` prints. */
  function MacLength(chaddr: seq<byte>): nat {
    if |chaddr| < 6 then |chaddr| else 6
  }

  /** The first `n` octets of `chaddr` as colon-separated hex pairs. */
  function MacPrefix(chaddr: seq<byte>, n: nat): string
    requires n <= |chaddr|
  {
    if n == 0 then ""
    else if n == 1 then Hex2(chaddr[0] as nat)
    else MacPrefix(chaddr, n - 1) + ":" + Hex2(chaddr[n - 1] as nat)
  }

  function MacText(chaddr: seq<byte>): string {
    MacPrefix(chaddr, MacLength(chaddr))
  }

  /** Layout of the hardware-address text: `n` hex pairs, octet `k` at
      characters `3k` and `3k+1`, a colon before every pair but the first. */
  lemma {:induction false} MacPrefixLayout(chaddr: seq<byte>, n: nat)
    requires n <= |chaddr|
    ensures var s := MacPrefix(chaddr, n);
      && |s| == (if n == 0 then 0 else 3 * n - 1)
      && (forall k :: 0 <= k < n ==> s[3 * k .. 3 * k + 2] == Hex2(chaddr[k] as nat))
      && (forall k :: 0 < k < n ==> s[3 * k - 1] == ':')
  {
    if n > 1 {
      MacPrefixLayout(chaddr, n - 1);
      var t, h := MacPrefix(chaddr, n - 1), Hex2(chaddr[n - 1] as nat);
      var s := t + ":" + h;
      assert MacPrefix(chaddr, n) == s;
      forall k | 0 <= k < n - 1
        ensures s[3 * k .. 3 * k + 2] == Hex2(chaddr[k] as nat)
      {
        assert s[3 * k .. 3 * k + 2] == t[3 * k .. 3 * k + 2];
      }
      assert s[3 * (n - 1) .. 3 * (n - 1) + 2] == h;
      forall k | 0 < k < n - 1
        ensures s[3 * k - 1] == ':'
      {
        assert s[3 * k - 1] == t[3 * k - 1];
      }
    }
  }

  /** `ZES_formatMac`: hex pairs of at most the first six octets, joined by ':'. */
  method FormatMac(chaddr: seq<byte>) returns (s: string)
    ensures s == MacText(chaddr)
  {
    s := "";
    var i := 0;
    while i < 6 && i < |chaddr|
      invariant 0 <= i <= MacLength(chaddr)
      invariant s == MacPrefix(chaddr, i)
    {
      if i > 0 {
        s := s + ":";
      }
      s := s + Hex2(chaddr[i] as nat);
      i := i + 1;
    }
  }

  /** The info line logged after a reply is sent. */
  function SentNote(messageType: byte, chaddr: seq<byte>): string {
    "Sent DHCP " + MessageTypeLabel(messageType) + " to " + MacText(chaddr)
  }
}
