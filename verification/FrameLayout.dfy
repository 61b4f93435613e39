/** Where everything lies in a frame on the wire (RFC 894, RFC 791, RFC 9293, RFC 768). */
module FrameLayout {
  import opened Words
  import opened Wrappers
  import opened Sequences
  import opened Checksums
  import opened TcpListener
  import opened TcpConnection
  import opened FrameCodec

  // Printer and decoder agree with each other (`FrameCodec.TcpRoundTrip`); here the bytes are
  // compared with the formats themselves, so that both being wrong in the same way is not
  // enough.

  /** `s` holds the word `x` at `at`, most significant byte first. */
  predicate WordIs(s: seq<byte>, at: nat, x: u16) {
    at + 1 < |s| && s[at] as int == x / 256 && s[at + 1] as int == x % 256
  }

  /** The same for 32 bits. */
  predicate LongIs(s: seq<byte>, at: nat, x: u32) {
    && at + 3 < |s|
    && s[at] as int * 0x100_0000 + s[at + 1] as int * 0x1_0000 + s[at + 2] as int * 0x100 + s[at + 3] as int == x
  }

  lemma WordByGet(s: seq<byte>, at: nat, x: u16)
    requires at + 1 < |s| && Get16(s, at) == x
    ensures WordIs(s, at, x)
  {
  }

  lemma LongByGet(s: seq<byte>, at: nat, x: u32)
    requires at + 3 < |s| && Get32(s, at) == x
    ensures LongIs(s, at, x)
  {
  }

  /** Ethernet and IP: the peer's MAC first, then the own one; type IPv4; version 4 with five
      words of header; the length without the Ethernet header; not to be fragmented; 64 hops;
      the protocol; the two addresses. */
  lemma FrontLayout(total: u16, protocol: byte, source: Address, destination: Address, to: Mac, from: Mac, rest: seq<byte>)
    ensures var f := Ethernet(to, from) + IpHeader(total, protocol, source, destination) + rest;
            && |f| == 34 + |rest| && f[0..6] == to && f[6..12] == from && f[12] == 8 && f[13] == 0
            && f[14] == 0x45 && f[15] == 0 && WordIs(f, 16, total) && f[18] == 0 && f[19] == 0
            && f[20] == 0x40 && f[21] == 0 && f[22] == 64 && f[23] == protocol
            && f[26..30] == source && f[30..34] == destination && f[34..] == rest
  {
    var front := Ethernet(to, from) + IpHeader(total, protocol, source, destination);
    EthernetLayout(to, from);
    HeaderLayout(total, protocol, source, destination);
    var e, ip := Ethernet(to, from), IpHeader(total, protocol, source, destination);
    hide Ethernet, IpHeader;
    SliceBefore(front, rest, 0, 6);
    SliceBefore(e, ip, 0, 6);
    SliceBefore(front, rest, 6, 12);
    SliceBefore(e, ip, 6, 12);
    SliceBefore(front, rest, 26, 30);
    SliceBehind(e, ip, 12, 16);
    SliceBefore(front, rest, 30, 34);
    SliceBehind(e, ip, 16, 20);
  }

  lemma EthernetLayout(to: Mac, from: Mac)
    ensures var e := Ethernet(to, from);
            |e| == 14 && e[0..6] == to && e[6..12] == from && e[12] == 8 && e[13] == 0
  {
  }

  lemma HeaderLayout(total: u16, protocol: byte, source: Address, destination: Address)
    ensures var ip := IpHeader(total, protocol, source, destination);
            && |ip| == 20 && ip[0] == 0x45 && ip[1] == 0 && ip[2] as int == total / 256 && ip[3] as int == total % 256
            && ip[4] == 0 && ip[5] == 0 && ip[6] == 0x40 && ip[7] == 0 && ip[8] == 64 && ip[9] == protocol
            && ip[12..16] == source && ip[16..20] == destination
  {
    hide WordSum, Complement;
    IpHeaderReads(total, protocol, source, destination);
  }

  /** TCP: ports, sequence and acknowledgement number, header length in words, flags, window,
      no urgent data; on a SYN the option that offers segments of 1024 bytes; the payload. */
  lemma TcpLayout(s: Segment, window: u16, payload: seq<byte>, sum: u16)
    ensures var t := TcpBytes(s, window, payload, sum);
            && |t| == HeaderLength(s.flags) + |payload|
            && WordIs(t, 0, s.sourcePort) && WordIs(t, 2, s.destinationPort)
            && LongIs(t, 4, s.sequence) && LongIs(t, 8, s.acknowledgement)
            && t[12] as int == (if HasSyn(s.flags) then 0x60 else 0x50) && t[13] == s.flags && WordIs(t, 14, window)
            && WordIs(t, 16, sum) && t[18] == 0 && t[19] == 0
            && (HasSyn(s.flags) ==> t[20] == 2 && t[21] == 4 && t[22] == 4 && t[23] == 0)
            && t[HeaderLength(s.flags)..] == payload
  {
    var rest := MssOption(s.flags) + payload;
    TcpFieldsRead(s, window, sum, rest);
    TcpSealPlace(s, window, payload, sum);
    var t := TcpBytes(s, window, payload, sum);
    FieldsEnd(s, window, sum);
    OptionLayout(s.flags, payload);
    hide TcpFields, MssOption, Big16, Big32, Get16, Get32;
    WordByGet(t, 0, s.sourcePort);
    WordByGet(t, 2, s.destinationPort);
    LongByGet(t, 4, s.sequence);
    LongByGet(t, 8, s.acknowledgement);
    WordByGet(t, 14, window);
    SealWord(t, sum);
    SliceBehind(TcpFields(s, window, sum), rest, HeaderLength(s.flags) - 20, |rest|);
    assert t[18] == TcpFields(s, window, sum)[18] && t[19] == TcpFields(s, window, sum)[19];
  }

  lemma SealWord(t: seq<byte>, sum: u16)
    requires |t| >= 20 && t[16..18] == Big16(sum)
    ensures WordIs(t, 16, sum)
  {
    assert t[16] == t[16..18][0] && t[17] == t[16..18][1];
  }

  lemma FieldsEnd(s: Segment, window: u16, sum: u16)
    ensures var t := TcpFields(s, window, sum);
            |t| == 20 && t[16..18] == Big16(sum) && t[18] == 0 && t[19] == 0
  {
    hide Big32;
    Lengths(sum, s.sequence);
    Lengths(sum, s.acknowledgement);
  }

  lemma OptionLayout(flags: byte, payload: seq<byte>)
    ensures var r := MssOption(flags) + payload;
            && (HasSyn(flags) ==> r[0] == 2 && r[1] == 4 && r[2] == 4 && r[3] == 0 && r[4..] == payload)
            && (!HasSyn(flags) ==> r == payload)
  {
  }

  /** UDP: ports, length with the header, checksum, payload. */
  lemma UdpLayout(d: Datagram, sum: u16)
    requires |d.payload| <= UDP_PAYLOAD_CAPACITY
    ensures var u := UdpBytes(d, sum);
            && WordIs(u, 0, d.sourcePort) && WordIs(u, 2, d.destinationPort)
            && WordIs(u, 4, 8 + |d.payload|) && WordIs(u, 6, sum) && u[8..] == d.payload
  {
    hide Get16, UdpBytes;
    UdpRead(d, sum);
    var u := UdpBytes(d, sum);
    WordByGet(u, 0, d.sourcePort);
    WordByGet(u, 2, d.destinationPort);
    WordByGet(u, 4, 8 + |d.payload|);
    WordByGet(u, 6, sum);
  }

  /** The whole frame: for the peer's MAC, with the segment behind the two headers, and at
      least 60 bytes long. */
  lemma FrameIsLaidOut(s: Segment, window: u16, payload: seq<byte>, to: Mac, from: Mac)
    requires IsSendable(s, payload)
    ensures var f := TcpFrame(s, window, payload, to, from);
            var t := TcpBytes(s, window, payload, TcpSum(s, window, payload));
            && |f| == (if 34 + |t| < 60 then 60 else 34 + |t|) && f[0..6] == to && f[6..12] == from
            && WordIs(f, 16, 20 + |t|) && f[22] == 64 && f[23] == 6
            && f[26..30] == s.source && f[30..34] == s.destination && f[34..34 + |t|] == t
            && forall k :: 34 + |t| <= k < |f| ==> f[k] == 0
  {
    hide TcpBytes, TcpSum, IpHeader, Ethernet, WordIs;
    var t := TcpBytes(s, window, payload, TcpSum(s, window, payload));
    TcpSealPlace(s, window, payload, TcpSum(s, window, payload));
    var pad := Padding(34 + |t|);
    FrontLayout(20 + |t|, TCP, s.source, s.destination, to, from, t + pad);
    var front := Ethernet(to, from) + IpHeader(20 + |t|, TCP, s.source, s.destination);
    assert |front| == 34 by { FrontLength(20 + |t|, TCP, s.source, s.destination, to, from); }
    Associative(front, t, pad);
    SliceBehind(front, t + pad, 0, |t|);
    SliceBefore(t, pad, 0, |t|);
  }

  lemma FrontLength(total: u16, protocol: byte, source: Address, destination: Address, to: Mac, from: Mac)
    ensures |Ethernet(to, from) + IpHeader(total, protocol, source, destination)| == 34
  {
    hide WordSum, Complement;
  }
}
