/** The option area of a DHCP message (section 2 of RFC 2132): tag/length/value
    entries after the magic cookie, with Pad (tag 0, section 3.1) and End
    (tag 255, section 3.2). This module holds the scanner `ZES_handlePacket` runs
    over the area, as a function, and what it recovers from well-formed areas. */
module DhcpOptions {
  import opened Wire

  const OptPad: byte := 0
  const OptEnd: byte := 255
  /** Requested IP Address, section 9.1 of RFC 2132. */
  const OptRequestedIp: byte := 50
  /** DHCP Message Type, section 9.6 of RFC 2132. */
  const OptMessageType: byte := 53

  /** An IPv4 address as the four octets `InetAddress.getAddress` returns. */
  type Addr = s: seq<byte> | |s| == 4 witness [0, 0, 0, 0]

  /** What the scan keeps: `messageType` (0 until a Message Type option is seen)
      and `requestedIp` (`null` in Java until a Requested IP option is seen). */
  datatype ScanState = ScanState(messageType: byte, requestedIp: Option<Addr>)

  const Initial: ScanState := ScanState(0, None)

  /** A scan either finishes with its state, or the `buffer.get()` of a length
      byte finds nothing left and throws `BufferUnderflowException`. */
  datatype ScanResult = Scanned(state: ScanState) | Underflow

  /** The effect of one complete option on the state: only a Message Type with a
      one-octet value and a Requested IP with a four-octet value are kept. */
  function Record(st: ScanState, tag: byte, value: seq<byte>): ScanState {
    if tag == OptMessageType && |value| == 1 then st.(messageType := value[0])
    else if tag == OptRequestedIp && |value| == 4 then st.(requestedIp := Some(value))
    else st
  }

  /** There is a complete option at `pos`: its length octet and all the value
      octets it declares lie in `p`. */
  predicate WholeOptionAt(p: seq<byte>, pos: nat) {
    pos + 2 <= |p| && |p| - (pos + 2) >= p[pos + 1] as int
  }

  /** `Record` of the complete option at `pos`, reading its value in place. */
  function RecordAt(st: ScanState, p: seq<byte>, pos: nat): ScanState
    requires WholeOptionAt(p, pos)
  {
    var tag, len := p[pos], p[pos + 1];
    if tag == OptMessageType && len == 1 then st.(messageType := p[pos + 2])
    else if tag == OptRequestedIp && len == 4 then
      st.(requestedIp := Some([p[pos + 2], p[pos + 3], p[pos + 4], p[pos + 5]]))
    else st
  }

  /** Reading the option in place records what its value does. */
  lemma RecordAtValue(st: ScanState, p: seq<byte>, pos: nat)
    requires WholeOptionAt(p, pos)
    ensures RecordAt(st, p, pos) == Record(st, p[pos], p[pos + 2 .. pos + 2 + p[pos + 1] as int])
  {
    if p[pos + 1] == 4 {
      assert p[pos + 2 .. pos + 6] == [p[pos + 2], p[pos + 3], p[pos + 4], p[pos + 5]];
    }
  }

  /** The option loop of `ZES_handlePacket`, from cursor `pos` in the received
      octets `p`: stop at End or at the end of the buffer, skip Pad, read a
      length (underflow if there is none), stop if the value would run past the
      buffer, otherwise consume the value and record it. */
  function Scan(p: seq<byte>, pos: nat, st: ScanState): ScanResult
    requires pos <= |p|
    decreases |p| - pos
  {
    if pos == |p| || p[pos] == OptEnd then Scanned(st)
    else if p[pos] == OptPad then Scan(p, pos + 1, st)
    else if pos + 1 == |p| then Underflow
    else
      var len := p[pos + 1] as nat;
      if |p| - (pos + 2) < len then Scanned(st)
      else Scan(p, pos + 2 + len, RecordAt(st, p, pos))
  }

  /** An underflow happens only when the very last octet of the buffer is read
      as a tag that is neither Pad nor End. */
  lemma {:induction false} UnderflowOnlyAtLastOctet(p: seq<byte>, pos: nat, st: ScanState)
    requires pos <= |p|
    requires Scan(p, pos, st) == Underflow
    ensures pos < |p| && p[|p| - 1] != OptPad && p[|p| - 1] != OptEnd
    decreases |p| - pos
  {
    if p[pos] == OptPad {
      UnderflowOnlyAtLastOctet(p, pos + 1, st);
    } else if pos + 1 < |p| {
      var len := p[pos + 1] as nat;
      UnderflowOnlyAtLastOctet(p, pos + 2 + len, RecordAt(st, p, pos));
    }
  }

  /** What a finished scan holds came from the buffer: a message type other than
      the one it started with is the value of some tag 53 of length 1, and a
      requested address other than the one it started with is the value of some
      tag 50 of length 4, both at or after `pos`. */
  lemma {:induction false} ScanRecordsOnlyRecognised(p: seq<byte>, pos: nat, st: ScanState)
    requires pos <= |p|
    requires Scan(p, pos, st).Scanned?
    ensures var r := Scan(p, pos, st).state;
      && (r.messageType == st.messageType
          || exists k :: pos <= k && k + 3 <= |p| && p[k] == OptMessageType && p[k + 1] == 1 && p[k + 2] == r.messageType)
      && (r.requestedIp == st.requestedIp
          || exists k :: pos <= k && k + 6 <= |p| && p[k] == OptRequestedIp && p[k + 1] == 4 && r.requestedIp == Some(p[k + 2 .. k + 6]))
    decreases |p| - pos
  {
    if pos == |p| || p[pos] == OptEnd {
    } else if p[pos] == OptPad {
      ScanRecordsOnlyRecognised(p, pos + 1, st);
    } else {
      var len := p[pos + 1] as nat;
      if |p| - (pos + 2) >= len {
        var st' := RecordAt(st, p, pos);
        RecordAtValue(st, p, pos);
        ScanRecordsOnlyRecognised(p, pos + 2 + len, st');
      }
    }
  }

  /** The scan with the missing length octet treated like the truncated value
      two lines below it in the source: the scan stops and keeps what it has.
      This is the behaviour the truncation check shows was intended. */
  function ScanTolerant(p: seq<byte>, pos: nat, st: ScanState): ScanState
    requires pos <= |p|
    decreases |p| - pos
  {
    if pos == |p| || p[pos] == OptEnd then st
    else if p[pos] == OptPad then ScanTolerant(p, pos + 1, st)
    else if pos + 1 == |p| then st
    else
      var len := p[pos + 1] as nat;
      if |p| - (pos + 2) < len then st
      else ScanTolerant(p, pos + 2 + len, RecordAt(st, p, pos))
  }

  /** The tolerant scan agrees with the scan as written wherever that one
      finishes, and where that one underflows it keeps the state reached before
      the lone tag. */
  lemma {:induction false} ScanTolerantAgrees(p: seq<byte>, pos: nat, st: ScanState)
    requires pos <= |p|
    ensures Scan(p, pos, st).Scanned? ==> ScanTolerant(p, pos, st) == Scan(p, pos, st).state
    ensures Scan(p, pos, st) == Underflow ==> ScanTolerant(p, pos, st) == ScanTolerant(p[..|p| - 1], pos, st)
    decreases |p| - pos
  {
    if pos == |p| || p[pos] == OptEnd {
    } else if p[pos] == OptPad {
      ScanTolerantAgrees(p, pos + 1, st);
      if Scan(p, pos, st) == Underflow {
        assert p[..|p| - 1][pos] == p[pos];
      }
    } else if pos + 1 == |p| {
      assert p[..|p| - 1] == p[..pos];
    } else {
      var len := p[pos + 1] as nat;
      if |p| - (pos + 2) >= len {
        var st' := RecordAt(st, p, pos);
        ScanTolerantAgrees(p, pos + 2 + len, st');
        if Scan(p, pos, st) == Underflow {
          var q := p[..|p| - 1];
          UnderflowOnlyAtLastOctet(p, pos + 2 + len, st');
          assert q[pos] == p[pos] && q[pos + 1] == p[pos + 1];
          assert q[pos + 2 .. pos + 2 + len] == p[pos + 2 .. pos + 2 + len];
        }
      }
    }
  }

  /** One entry of an option area as a sender lays it out. */
  datatype OptionEntry = Pad | Tlv(tag: byte, value: seq<byte>)

  /** A tag/length/value entry whose tag is not Pad or End and whose value fits
      the one-octet length. */
  predicate WellFormed(o: OptionEntry) {
    o.Pad? || (o.tag != OptPad && o.tag != OptEnd && |o.value| < 256)
  }

  predicate AllWellFormed(os: seq<OptionEntry>) {
    forall i :: 0 <= i < |os| ==> WellFormed(os[i])
  }

  function EncodeEntry(o: OptionEntry): (r: seq<byte>)
    requires WellFormed(o)
    ensures |r| == if o.Pad? then 1 else 2 + |o.value|
  {
    match o
    case Pad => [OptPad]
    case Tlv(tag, value) => [tag, |value| as byte] + value
  }

  /** The octets of a sequence of entries, in order, without the End tag. */
  function EncodeOptions(os: seq<OptionEntry>): seq<byte>
    requires AllWellFormed(os)
  {
    if os == [] then [] else EncodeEntry(os[0]) + EncodeOptions(os[1..])
  }

  /** The effect of one entry on the state. */
  function Apply(o: OptionEntry, st: ScanState): ScanState {
    if o.Pad? then st else Record(st, o.tag, o.value)
  }

  /** The state after the entries in order: later entries overwrite earlier ones. */
  function Fold(os: seq<OptionEntry>, st: ScanState): ScanState {
    if os == [] then st else Fold(os[1..], Apply(os[0], st))
  }

  /** `w` sits in `p` from `pos` onwards, octet for octet. */
  predicate At(p: seq<byte>, pos: nat, w: seq<byte>) {
    pos + |w| <= |p| && forall i :: 0 <= i < |w| ==> p[pos + i] == w[i]
  }

  /** Where `a + b` sits, `a` sits, and `b` right after it. */
  lemma AtSplit(p: seq<byte>, pos: nat, a: seq<byte>, b: seq<byte>)
    requires At(p, pos, a + b)
    ensures At(p, pos, a) && At(p, pos + |a|, b)
  {
    forall i | 0 <= i < |a| ensures p[pos + i] == a[i] {
      assert (a + b)[i] == a[i];
    }
    forall i | 0 <= i < |b| ensures p[pos + |a| + i] == b[i] {
      assert (a + b)[|a| + i] == b[i];
    }
  }

  /** The scan steps over one well-formed entry as `Apply` does. */
  lemma ScanOneEntry(p: seq<byte>, pos: nat, o: OptionEntry, st: ScanState)
    requires WellFormed(o) && At(p, pos, EncodeEntry(o))
    ensures Scan(p, pos, st) == Scan(p, pos + |EncodeEntry(o)|, Apply(o, st))
  {
    var e := EncodeEntry(o);
    assert p[pos + 0] == e[0];
    if o.Tlv? {
      assert p[pos + 1] == e[1];
      assert RecordAt(st, p, pos) == Apply(o, st) by {
        if o.tag == OptMessageType && |o.value| == 1 {
          assert p[pos + 2] == e[2];
        } else if o.tag == OptRequestedIp && |o.value| == 4 {
          assert p[pos + 2] == e[2] && p[pos + 3] == e[3] && p[pos + 4] == e[4] && p[pos + 5] == e[5];
          assert e[2..] == o.value;
          assert [p[pos + 2], p[pos + 3], p[pos + 4], p[pos + 5]] == o.value;
        }
      }
    }
  }

  /** The first entry of a run and the rest of it. */
  lemma OptionsCons(os: seq<OptionEntry>)
    requires AllWellFormed(os) && os != []
    ensures AllWellFormed(os[1..])
    ensures EncodeOptions(os) == EncodeEntry(os[0]) + EncodeOptions(os[1..])
  {
    forall i | 0 <= i < |os| - 1 ensures WellFormed(os[1..][i]) {
      assert os[1..][i] == os[i + 1];
    }
  }

  /** The scan walks a well-formed run of entries exactly as `Fold` does. */
  lemma {:induction false} ScanThroughOptions(p: seq<byte>, pos: nat, os: seq<OptionEntry>, st: ScanState)
    requires AllWellFormed(os) && At(p, pos, EncodeOptions(os))
    ensures Scan(p, pos, st) == Scan(p, pos + |EncodeOptions(os)|, Fold(os, st))
    decreases os
  {
    if os != [] {
      OptionsCons(os);
      var a := EncodeEntry(os[0]);
      AtSplit(p, pos, a, EncodeOptions(os[1..]));
      ScanOneEntry(p, pos, os[0], st);
      ScanThroughOptions(p, pos + |a|, os[1..], Apply(os[0], st));
    }
  }

  /** The middle of a concatenation sits where the first part ends. */
  lemma AtMiddle(a: seq<byte>, w: seq<byte>, b: seq<byte>)
    ensures At(a + w + b, |a|, w)
  {
    forall i | 0 <= i < |w| ensures (a + w + b)[|a| + i] == w[i] {
      assert (a + w + b)[|a| + i] == (a + w)[|a| + i];
    }
  }

  /** Octets appended after a window leave it in place. */
  lemma AtExtend(p: seq<byte>, c: seq<byte>, pos: nat, w: seq<byte>)
    requires At(p, pos, w)
    ensures At(p + c, pos, w)
  {
    forall i | 0 <= i < |w| ensures (p + c)[pos + i] == w[i] {
      assert (p + c)[pos + i] == p[pos + i];
    }
  }

  /** Well-formed entries at `pos` followed by End: the scan finishes with the
      state the entries give. */
  lemma ScanToEnd(p: seq<byte>, pos: nat, os: seq<OptionEntry>, st: ScanState)
    requires AllWellFormed(os) && At(p, pos, EncodeOptions(os))
    requires pos + |EncodeOptions(os)| < |p| && p[pos + |EncodeOptions(os)|] == OptEnd
    ensures Scan(p, pos, st) == Scanned(Fold(os, st))
  {
    ScanThroughOptions(p, pos, os, st);
  }

  /** An option area made of well-formed entries and then End yields the state
      the entries give, whatever follows the End tag. */
  lemma ScanEncodedArea(prefix: seq<byte>, os: seq<OptionEntry>, trailer: seq<byte>, st: ScanState)
    requires AllWellFormed(os)
    ensures Scan(prefix + EncodeOptions(os) + [OptEnd] + trailer, |prefix|, st) == Scanned(Fold(os, st))
  {
    var e := EncodeOptions(os);
    var p := prefix + e + [OptEnd] + trailer;
    AtMiddle(prefix, e, [OptEnd]);
    AtExtend(prefix + e + [OptEnd], trailer, |prefix|, e);
    assert p[|prefix| + |e|] == OptEnd;
    ScanToEnd(p, |prefix|, os, st);
  }

  /** Truncation tolerance: when well-formed entries at `pos` are followed by
      an option whose declared length runs past the end of the buffer, the
      scan stops there and the entries before it are kept. */
  lemma TruncatedOptionKeepsEarlier(p: seq<byte>, pos: nat, os: seq<OptionEntry>, st: ScanState)
    requires AllWellFormed(os) && At(p, pos, EncodeOptions(os))
    requires var q := pos + |EncodeOptions(os)|;
      q + 1 < |p| && p[q] != OptPad && p[q] != OptEnd && |p| - (q + 2) < p[q + 1] as int
    ensures Scan(p, pos, st) == Scanned(Fold(os, st))
  {
    ScanThroughOptions(p, pos, os, st);
  }

  /** Well-formed entries at `pos` followed by a tag that is the last octet of
      the buffer: reading its length underflows. */
  lemma ScanToLoneTag(p: seq<byte>, pos: nat, os: seq<OptionEntry>, st: ScanState)
    requires AllWellFormed(os) && At(p, pos, EncodeOptions(os))
    requires pos + |EncodeOptions(os)| + 1 == |p| && p[|p| - 1] != OptPad && p[|p| - 1] != OptEnd
    ensures Scan(p, pos, st) == Underflow
  {
    ScanThroughOptions(p, pos, os, st);
  }

  /** A tag that is the last octet of the buffer, after well-formed entries,
      makes the length read underflow. */
  lemma LoneTagUnderflows(prefix: seq<byte>, os: seq<OptionEntry>, tag: byte, st: ScanState)
    requires AllWellFormed(os)
    requires tag != OptPad && tag != OptEnd
    ensures Scan(prefix + EncodeOptions(os) + [tag], |prefix|, st) == Underflow
  {
    var e := EncodeOptions(os);
    AtMiddle(prefix, e, [tag]);
    ScanToLoneTag(prefix + e + [tag], |prefix|, os, st);
  }

  /** Later occurrences overwrite earlier ones: the last entry decides. */
  lemma {:induction false} FoldLast(os: seq<OptionEntry>, o: OptionEntry, st: ScanState)
    ensures Fold(os + [o], st) == Apply(o, Fold(os, st))
    decreases os
  {
    if os != [] {
      assert (os + [o])[1..] == os[1..] + [o];
      FoldLast(os[1..], o, Apply(os[0], st));
    }
  }

  /** A Message Type option with a one-octet value at the end of a run of
      entries sets the message type, whatever came before it. */
  lemma LastMessageTypeWins(os: seq<OptionEntry>, t: byte, st: ScanState)
    ensures Fold(os + [Tlv(OptMessageType, [t])], st).messageType == t
    ensures Fold(os + [Tlv(OptMessageType, [t])], st).requestedIp == Fold(os, st).requestedIp
  {
    FoldLast(os, Tlv(OptMessageType, [t]), st);
  }
}
