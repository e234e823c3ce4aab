/** The reply the raw UDP server builds for a client: IP header, UDP header, text and both checksums. */
module UdpReply {
  import opened Options
  import opened Decimal
  import opened Checksum

  const BUFFER_SIZE: nat := 1024  // of the reply text and of the packet
  const IPPROTO_UDP: Byte := 17
  const REPLY_ID: Word := 54321
  const REPLY_TTL: Byte := 64

  type Address = a: seq<Byte> | |a| == 4 witness [0, 0, 0, 0]
  type Field16 = a: seq<Byte> | |a| == 2 witness [0, 0]

  /** htons followed by a store, on any machine. */
  function Htons(w: Word): Field16 {
    StoreBig(w)
  }

  /** Version 4, header length 5 words, no options; `check` is the checksum field. */
  function IpHeader(saddr: Address, daddr: Address, totLen: Word, check: Field16): (h: seq<Byte>)
    ensures |h| == 20
  {
    [0x45, 0] + Htons(totLen) + Htons(REPLY_ID) + [0, 0] + [REPLY_TTL, IPPROTO_UDP] + check + saddr + daddr
  }

  function UdpHeader(source: Field16, dest: Field16, len: Word, check: Field16): (h: seq<Byte>)
    ensures |h| == 8
  {
    source + dest + Htons(len) + check
  }

  function PseudoHeader(saddr: Address, daddr: Address, len: Word): (h: seq<Byte>)
    ensures |h| == 12
  {
    saddr + daddr + [0, IPPROTO_UDP] + Htons(len)
  }

  /** The bytes the UDP checksum covers. */
  function Covered(saddr: Address, daddr: Address, udp: seq<Byte>, len: Word): (b: seq<Byte>)
    ensures b == saddr + daddr + [0, 17] + StoreBig(len) + udp
  {
    PseudoHeader(saddr, daddr, len) + udp
  }

  /** What a receiver sums by RFC 768, from the bytes of a packet without IP options: addresses, zero, protocol and
      UDP length, then the datagram. */
  function ReceiverBytes(p: seq<Byte>): seq<Byte>
    requires |p| >= 28
  {
    p[12..20] + [0, p[9]] + p[24..26] + p[20..]
  }

  /** The pseudo-header of RFC 768: both addresses, a zero byte, the protocol and the UDP length. */
  lemma PseudoHeaderLayout(saddr: Address, daddr: Address, len: Word)
    ensures var h := PseudoHeader(saddr, daddr, len);
            h[..4] == saddr && h[4..8] == daddr && h[8] == 0 && h[9] == 17 && Big(h[10], h[11]) == len
  {
    StoredBig(len);
  }

  /** `past` is the byte that lies behind the allocated buffer. */
  method UdpChecksum(saddr: Address, daddr: Address, udph: seq<Byte>, len: Word, data: seq<Byte>, past: Byte)
    returns (c: Word)
    ensures c == Complement(LittleWords(Read(saddr + daddr + [0, 17] + StoreBig(len) + (udph + data), past)))
    ensures c == Complement(LittleWords(Read(Covered(saddr, daddr, udph + data, len), past)))
  {
    var buf := PseudoHeader(saddr, daddr, len);
    buf := buf + udph;
    buf := buf + data;
    c := Csum(LittleWords(Read(buf, past)));
    assert buf == Covered(saddr, daddr, udph + data, len);
  }

  // ---------- The text of the reply ----------

  function Ascii(s: string): seq<Byte> {
    seq(|s|, i requires 0 <= i < |s| => s[i] as int % 0x100)
  }

  /** The data of the request, a blank and the client's count, as snprintf leaves them in the text buffer. */
  function ReplyText(data: seq<Byte>, count: int): (t: seq<Byte>)
    ensures |t| < BUFFER_SIZE
  {
    Fitted(data + Ascii(" " + Print(count)), BUFFER_SIZE)
  }

  /** A text that fits its buffer is the data, a blank and the digits of the count; one that does not is the first
      1023 bytes of that. */
  lemma ReplyTextCarries(data: seq<Byte>, count: nat)
    ensures var whole, t := |data| + 1 + |Print(count)|, ReplyText(data, count);
            && |t| == (if whole < 1024 then whole else 1023)
            && (forall i :: 0 <= i < |t| && i < |data| ==> t[i] == data[i])
            && (|data| < |t| ==> t[|data|] == 0x20)
            && (forall i :: |data| < i < |t| ==> t[i] == Print(count)[i - |data| - 1] as int)
    ensures |data| + 1 + |Print(count)| < 1024 ==>
              exists digits: string ::
                && (forall i :: 0 <= i < |digits| ==> IsDigit(digits[i]))
                && ReplyText(data, count)[|data| + 1..] == Ascii(digits)
                && ValueOf(digits) == count
  {
    var whole := data + Ascii(" " + Print(count));
    assert ' ' as int == 0x20;
    assert forall i :: 0 <= i < |Print(count)| ==> IsDigit(Print(count)[i]);
    assert forall i :: |data| < i < |whole| ==> whole[i] == Print(count)[i - |data| - 1] as int;
    if |whole| < 1024 {
      assert ReplyText(data, count)[|data| + 1..] == Ascii(Print(count));
      ValueOfDigits(count);
    }
  }

  /** Headers, text and terminator stay inside the packet buffer. */
  predicate Fits(text: seq<Byte>) {
    20 + 8 + |text| + 1 <= BUFFER_SIZE
  }

  /** A reply fits iff its text has at most 995 characters, that is, iff data, blank and count have. */
  lemma ReplyFits(data: seq<Byte>, count: int)
    ensures Fits(ReplyText(data, count)) <==> |data| + 1 + |Print(count)| <= 995
  {
  }

  /** The first message of a client with 994 bytes of data is answered past the end of the packet buffer. */
  lemma LongRequestCounterexample(data: seq<Byte>)
    requires |data| == 994
    ensures |ReplyText(data, 1)| == 996 && !Fits(ReplyText(data, 1))
  {
    assert Print(1) == [Digit(1)];
    ReplyFits(data, 1);
  }

  // ---------- The packet ----------

  method Memcpy(dst: array<Byte>, at: nat, src: seq<Byte>)
    requires at + |src| <= dst.Length
    modifies dst
    ensures forall i :: 0 <= i < dst.Length ==> dst[i] == if at <= i < at + |src| then src[i - at] else old(dst[i])
  {
    forall i | 0 <= i < |src| {
      dst[at + i] := src[i];
    }
  }

  /** The reply to a request from `from`/`fromPort` to `to`/`toPort` (addresses and ports as they stood in the
      request); None when the copy of the text runs past the packet buffer.  Otherwise the packet goes back the
      way the request came and carries the text and its terminating NUL.  A receiver that recomputes the
      header checksum gets 0, and so it does with the UDP checksum iff the datagram has even length or the
      byte csum read past its buffer was zero. */
  method BuildReply(from: Address, to: Address, fromPort: Field16, toPort: Field16, text: seq<Byte>, past: Byte)
    returns (reply: Option<seq<Byte>>)
    requires |text| < BUFFER_SIZE
    ensures reply.Some? <==> Fits(text)
    ensures reply.Some? ==> |reply.value| == |text| + 29 && Addressed(reply.value, from, to, fromPort, toPort)
    ensures reply.Some? ==> reply.value[28..] == text + [0]
    ensures reply.Some? ==>
              Complement(BigWords(reply.value[..20])) == 0 && Complement(LittleWords(reply.value[..20])) == 0
    ensures reply.Some? ==>
              var summed := ReceiverBytes(reply.value);
              && (Complement(BigWords(summed)) == 0 <==> |text| % 2 == 1 || past == 0)
              && (Complement(LittleWords(summed)) == 0 <==> |text| % 2 == 1 || past == 0)
  {
    hide IpHeader;
    hide UdpHeader;
    hide IpCheck;
    hide UdpCheck;
    hide Covered;
    hide LittleWords;
    hide BigWords;
    hide Complement;
    hide Addressed;
    var packet := new Byte[BUFFER_SIZE](_ => 0);
    var totLen, len := |text| + 29, |text| + 9;
    PutIpHeader(packet, to, from, totLen);
    if 28 + |text| + 1 > packet.Length {
      return None;
    }
    PutDatagram(packet, to, from, toPort, fromPort, len, text + [0], past);
    reply := Some(packet[..totLen]);
    ghost var p := Reply(from, to, fromPort, toPort, text, past);
    assert packet[..totLen] == packet[..20] + packet[20..totLen] == p;
    ReplyAddressed(from, to, fromPort, toPort, text, past);
    ReplyVerifies(from, to, fromPort, toPort, text, past);
    ReceiverCovers(p, from, to, fromPort, toPort);
  }

  function IpCheck(saddr: Address, daddr: Address, totLen: Word): Field16 {
    StoreLittle(Complement(LittleWords(IpHeader(saddr, daddr, totLen, [0, 0]))))
  }

  /** The header with a zero checksum field, its checksum, and the checksum stored in the field. */
  method PutIpHeader(packet: array<Byte>, saddr: Address, daddr: Address, totLen: Word)
    requires packet.Length == BUFFER_SIZE
    modifies packet
    ensures packet[..20] == IpHeader(saddr, daddr, totLen, IpCheck(saddr, daddr, totLen))
  {
    hide IpHeader;
    hide LittleWords;
    hide Complement;
    hide StoreLittle;
    ghost var h := IpHeader(saddr, daddr, totLen, [0, 0]);
    Memcpy(packet, 0, IpHeader(saddr, daddr, totLen, [0, 0]));
    assert packet[..20] == h;
    var check := Csum(LittleWords(packet[..20]));
    Memcpy(packet, 10, StoreLittle(check));
    assert packet[..20] == h[..10] + StoreLittle(check) + h[12..];
    IpHeaderStored(saddr, daddr, totLen, StoreLittle(check));
  }

  function UdpCheck(saddr: Address, daddr: Address, source: Field16, dest: Field16, len: Word, data: seq<Byte>,
                    past: Byte): Field16
  {
    StoreLittle(Complement(LittleWords(
      Read(Covered(saddr, daddr, UdpHeader(source, dest, len, [0, 0]) + data, len), past))))
  }

  /** The UDP header and the data behind the IP header, and the checksum of both stored in its field. */
  method PutDatagram(packet: array<Byte>, saddr: Address, daddr: Address, source: Field16, dest: Field16, len: Word,
                     data: seq<Byte>, past: Byte)
    requires packet.Length == BUFFER_SIZE && 28 + |data| <= BUFFER_SIZE
    modifies packet
    ensures packet[..20] == old(packet[..20])
    ensures packet[20..28 + |data|]
         == UdpHeader(source, dest, len, UdpCheck(saddr, daddr, source, dest, len, data, past)) + data
  {
    hide Covered;
    hide UdpHeader;
    hide LittleWords;
    hide Complement;
    hide StoreLittle;
    var udph := UdpHeader(source, dest, len, [0, 0]);
    Memcpy(packet, 20, udph);
    Memcpy(packet, 28, data);
    assert packet[20..28 + |data|] == udph + data;
    var check := UdpChecksum(saddr, daddr, udph, len, data, past);
    Memcpy(packet, 26, StoreLittle(check));
    assert packet[20..28 + |data|] == udph[..6] + StoreLittle(check) + data;
    UdpHeaderStored(source, dest, len, StoreLittle(check));
    assert StoreLittle(check) == UdpCheck(saddr, daddr, source, dest, len, data, past);
  }

  lemma UdpHeaderStored(source: Field16, dest: Field16, len: Word, check: Field16)
    ensures UdpHeader(source, dest, len, [0, 0])[..6] + check == UdpHeader(source, dest, len, check)
  {
  }

  /** The whole packet, checksums filled in. */
  ghost function Reply(from: Address, to: Address, fromPort: Field16, toPort: Field16, text: seq<Byte>, past: Byte)
    : (p: seq<Byte>)
    requires |text| < BUFFER_SIZE
    ensures |p| == |text| + 29
  {
    var totLen, len, data := |text| + 29, |text| + 9, text + [0];
    IpHeader(to, from, totLen, IpCheck(to, from, totLen))
    + UdpHeader(toPort, fromPort, len, UdpCheck(to, from, toPort, fromPort, len, data, past)) + data
  }

  lemma ReplyAddressed(from: Address, to: Address, fromPort: Field16, toPort: Field16, text: seq<Byte>, past: Byte)
    requires |text| < BUFFER_SIZE
    ensures Addressed(Reply(from, to, fromPort, toPort, text, past), from, to, fromPort, toPort)
  {
    hide IpHeader;
    hide UdpHeader;
    hide IpCheck;
    hide UdpCheck;
    hide Addressed;
    var totLen, len, data := |text| + 29, |text| + 9, text + [0];
    var ipCheck, check := IpCheck(to, from, totLen), UdpCheck(to, from, toPort, fromPort, len, data, past);
    IpHeaderLayout(to, from, totLen, ipCheck);
    UdpHeaderLayout(toPort, fromPort, len, check);
    PacketAddressed(IpHeader(to, from, totLen, ipCheck), UdpHeader(toPort, fromPort, len, check), data,
                    from, to, fromPort, toPort);
  }

  lemma ReplyVerifies(from: Address, to: Address, fromPort: Field16, toPort: Field16, text: seq<Byte>, past: Byte)
    requires |text| < BUFFER_SIZE
    ensures var p := Reply(from, to, fromPort, toPort, text, past);
            && p[28..] == text + [0]
            && Complement(BigWords(p[..20])) == 0 && Complement(LittleWords(p[..20])) == 0
            && (Complement(BigWords(Covered(to, from, p[20..], |text| + 9))) == 0 <==> |text| % 2 == 1 || past == 0)
            && (Complement(LittleWords(Covered(to, from, p[20..], |text| + 9))) == 0 <==> |text| % 2 == 1 || past == 0)
  {
    hide IpHeader;
    hide UdpHeader;
    hide IpCheck;
    hide UdpCheck;
    hide Covered;
    hide LittleWords;
    hide BigWords;
    hide Complement;
    var totLen, len, data := |text| + 29, |text| + 9, text + [0];
    var check := UdpCheck(to, from, toPort, fromPort, len, data, past);
    IpHeaderVerifies(to, from, totLen);
    UdpVerifies(to, from, toPort, fromPort, len, data, past);
    PacketLayout(IpHeader(to, from, totLen, IpCheck(to, from, totLen)), UdpHeader(toPort, fromPort, len, check), data);
    assert |data| % 2 == 0 <==> |text| % 2 == 1;
  }

  lemma PacketAddressed(iph: seq<Byte>, udph: seq<Byte>, data: seq<Byte>, from: Address, to: Address,
                        fromPort: Field16, toPort: Field16)
    requires |iph| == 20 && |udph| == 8
    requires iph[0] == 0x45 && iph[1] == 0 && iph[6] == 0 && iph[7] == 0 && iph[8] == 64 && iph[9] == 17
    requires Big(iph[2], iph[3]) == 28 + |data| && Big(iph[4], iph[5]) == 54321
    requires iph[12..16] == to && iph[16..20] == from
    requires udph[..2] == toPort && udph[2..4] == fromPort && Big(udph[4], udph[5]) == 8 + |data|
    ensures Addressed(iph + udph + data, from, to, fromPort, toPort)
  {
    PacketLayout(iph, udph, data);
  }

  /** The receiver sums just the bytes the sender's checksum covered. */
  lemma ReceiverCovers(p: seq<Byte>, from: Address, to: Address, fromPort: Field16, toPort: Field16)
    requires |p| < 0x1_0000 && Addressed(p, from, to, fromPort, toPort)
    ensures ReceiverBytes(p) == Covered(to, from, p[20..], |p| - 20)
  {
    var len := |p| - 20;
    assert p[12..20] == p[12..16] + p[16..20];
    assert StoreBig(Big(p[24], p[25])) == [p[24], p[25]];
    assert p[24..26] == StoreBig(len);
  }

  /** The fields of the packet where the standards put them. */
  predicate Addressed(packet: seq<Byte>, from: Address, to: Address, fromPort: Field16, toPort: Field16) {
    && |packet| >= 28
    && packet[0] == 0x45 && packet[1] == 0 && packet[6] == 0 && packet[7] == 0
    && Big(packet[4], packet[5]) == 54321 && packet[8] == 64 && packet[9] == 17
    && Big(packet[2], packet[3]) == |packet| && Big(packet[24], packet[25]) == |packet| - 20
    && packet[12..16] == to && packet[16..20] == from
    && packet[20..22] == toPort && packet[22..24] == fromPort
  }

  lemma IpHeaderStored(saddr: Address, daddr: Address, totLen: Word, check: Field16)
    ensures var h := IpHeader(saddr, daddr, totLen, [0, 0]);
            h[..10] + check + h[12..] == IpHeader(saddr, daddr, totLen, check)
  {
  }

  lemma PacketLayout(iph: seq<Byte>, udph: seq<Byte>, data: seq<Byte>)
    requires |iph| == 20 && |udph| == 8
    ensures var p := iph + udph + data;
            && p[..20] == iph && p[20..] == udph + data && p[28..] == data
            && (forall i :: 0 <= i < 10 ==> p[i] == iph[i])
            && p[12..16] == iph[12..16] && p[16..20] == iph[16..20]
            && p[20..22] == udph[..2] && p[22..24] == udph[2..4] && p[24] == udph[4] && p[25] == udph[5]
  {
  }

  lemma StoredBig(w: Word)
    ensures Big(StoreBig(w)[0], StoreBig(w)[1]) == w
  {
  }

  lemma IpHeaderLayout(saddr: Address, daddr: Address, totLen: Word, check: Field16)
    ensures var h := IpHeader(saddr, daddr, totLen, check);
            && h[0] == 0x45 && h[1] == 0 && h[6] == 0 && h[7] == 0 && h[8] == 64 && h[9] == 17
            && Big(h[2], h[3]) == totLen && Big(h[4], h[5]) == 54321
            && h[12..16] == saddr && h[16..20] == daddr
  {
    StoredBig(totLen);
    StoredBig(REPLY_ID);
  }

  lemma UdpHeaderLayout(source: Field16, dest: Field16, len: Word, check: Field16)
    ensures var h := UdpHeader(source, dest, len, check);
            h[..2] == source && h[2..4] == dest && Big(h[4], h[5]) == len
  {
    StoredBig(len);
  }

  lemma IpHeaderVerifies(saddr: Address, daddr: Address, totLen: Word)
    ensures var h := IpHeader(saddr, daddr, totLen, IpCheck(saddr, daddr, totLen));
            Complement(LittleWords(h)) == 0 && Complement(BigWords(h)) == 0
  {
    var h0 := IpHeader(saddr, daddr, totLen, [0, 0]);
    IpHeaderStored(saddr, daddr, totLen, IpCheck(saddr, daddr, totLen));
    assert Read(h0, 0) == h0;
    StoredChecksumVerifies(h0, 10, 0);
  }

  lemma CoveredStored(saddr: Address, daddr: Address, source: Field16, dest: Field16, len: Word, data: seq<Byte>,
                      check: Field16)
    ensures var b := Covered(saddr, daddr, UdpHeader(source, dest, len, [0, 0]) + data, len);
            && |b| == 20 + |data| && b[18] == 0 && b[19] == 0
            && b[..18] + check + b[20..] == Covered(saddr, daddr, UdpHeader(source, dest, len, check) + data, len)
  {
    var front := PseudoHeader(saddr, daddr, len) + (source + dest + Htons(len));
    var b := Covered(saddr, daddr, UdpHeader(source, dest, len, [0, 0]) + data, len);
    assert b == front + [0, 0] + data;
    assert Covered(saddr, daddr, UdpHeader(source, dest, len, check) + data, len) == front + check + data;
  }

  /** The UDP checksum the code stores checks to zero iff the datagram is even or the byte past it was zero. */
  lemma UdpVerifies(saddr: Address, daddr: Address, source: Field16, dest: Field16, len: Word, data: seq<Byte>,
                    past: Byte)
    ensures var c := UdpCheck(saddr, daddr, source, dest, len, data, past);
            var covered := Covered(saddr, daddr, UdpHeader(source, dest, len, c) + data, len);
            && (Complement(LittleWords(covered)) == 0 <==> |data| % 2 == 0 || past == 0)
            && (Complement(BigWords(covered)) == 0 <==> |data| % 2 == 0 || past == 0)
  {
    hide Covered;
    hide UdpHeader;
    hide LittleWords;
    hide BigWords;
    var b := Covered(saddr, daddr, UdpHeader(source, dest, len, [0, 0]) + data, len);
    CoveredStored(saddr, daddr, source, dest, len, data, UdpCheck(saddr, daddr, source, dest, len, data, past));
    StoredChecksumVerifies(b, 18, past);
  }

  /** An empty text, whose NUL makes the datagram odd, with a 1 behind the buffer: the checksum is wrong. */
  lemma PastByteCounterexample(saddr: Address, daddr: Address, source: Field16, dest: Field16)
    ensures var c := UdpCheck(saddr, daddr, source, dest, 9, [0], 1);
            Complement(BigWords(Covered(saddr, daddr, UdpHeader(source, dest, 9, c) + [0], 9))) != 0
  {
    UdpVerifies(saddr, daddr, source, dest, 9, [0], 1);
  }
}
