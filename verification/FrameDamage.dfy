/** Frames with one damaged word are not taken. */
module FrameDamage {
  import opened Words
  import opened Wrappers
  import opened Checksums
  import opened TcpListener
  import opened TcpConnection
  import opened FrameCodec

  // The one exception of RFC 1071, the exchange of 0x0000 and 0xffff, is excluded by name.

  /** The word at `at`; an odd last byte is a high byte. */
  function WordOf(s: seq<byte>, at: nat): u16
    requires at < |s|
  {
    if at + 1 < |s| then Get16(s, at) else s[at] as int * 256
  }

  /** `s` with the word, or the odd last byte, at `at` replaced. */
  function Damaged(s: seq<byte>, at: nat, word: u16): (d: seq<byte>)
    requires at < |s|
    ensures |d| == |s|
  {
    if at + 1 < |s| then s[..at] + Big16(word) + s[at + 2..] else s[..at] + [word / 256]
  }

  /** A change the Internet checksum is meant to see. */
  predicate Visible(s: seq<byte>, at: nat, word: u16)
    requires at < |s|
  {
    && at % 2 == 0 && word != WordOf(s, at) && {word, WordOf(s, at)} != {0, 0xffff}
    && (at + 1 == |s| ==> word % 256 == 0)
  }

  lemma WordAt(s: seq<byte>, at: nat)
    requires at + 1 < |s|
    ensures s == s[..at] + Big16(Get16(s, at)) + s[at + 2..]
  {
    var w := Get16(s, at);
    assert s[at] as int == w / 256 && s[at + 1] as int == w % 256;
    assert s == s[..at] + s[at..at + 2] + s[at + 2..] && s[at..at + 2] == Big16(w);
  }

  lemma DamageChangesSum(extra: nat, s: seq<byte>, at: nat, word: u16)
    requires at < |s| && Visible(s, at, word) && Complement(extra + WordSum(s)) == 0
    ensures Complement(extra + WordSum(Damaged(s, at, word))) != 0
  {
    hide WordSum, Complement, Get16, Big16;
    if at + 1 < |s| {
      WordAt(s, at);
      OneDamagedWord(extra, s[..at], Get16(s, at), word, s[at + 2..]);
    } else {
      assert s == s[..at] + [s[at]];
      LastByte(s[..at], s[at]);
      LastByte(s[..at], word / 256);
      OneDamagedWord(extra, s[..at], WordOf(s, at), word, []);
    }
  }

  /** An odd last byte adds what the word with a zero behind it adds. */
  lemma LastByte(a: seq<byte>, x: byte)
    requires |a| % 2 == 0
    ensures WordSum(a + [x]) == WordSum(a + Big16(x as int * 256) + [])
  {
    hide Big16;
    WordSumAppend(a, [x]);
    WordInside(a, x as int * 256, []);
  }

  /** Damage anywhere in the TCP segment: header, options or payload, its last byte
      included. */
  lemma DamagedSegmentIsDropped(s: Segment, window: u16, payload: seq<byte>, to: Mac, from: Mac, at: nat, word: u16)
    requires IsSendable(s, payload)
    requires var tcp := TcpBytes(s, window, payload, TcpSum(s, window, payload));
             at < |tcp| && Visible(tcp, at, word)
    ensures var tcp := TcpBytes(s, window, payload, TcpSum(s, window, payload));
            DecodeTcp(Ethernet(to, from) + IpHeader(20 + |tcp|, TCP, s.source, s.destination) + Damaged(tcp, at, word)
                      + Padding(34 + |tcp|), s.destination) == None
  {
    hide WordSum, Complement, PseudoSum, IpHeader, IpPacket, TcpFields, TcpSum, Get16, Get32, MssFrom;
    var tcp := TcpBytes(s, window, payload, TcpSum(s, window, payload));
    TcpFieldsRead(s, window, TcpSum(s, window, payload), []);
    var bad := Damaged(tcp, at, word);
    TcpAccepted(s, window, payload);
    DamageChangesSum(PseudoSum(TCP, |tcp|, s.source, s.destination), tcp, at, word);
    PacketFound(20 + |tcp|, TCP, s.source, s.destination, bad, Padding(34 + |tcp|), to, from);
    IpHeaderReads(20 + |tcp|, TCP, s.source, s.destination);
    var ip := IpHeader(20 + |tcp|, TCP, s.source, s.destination);
    Behind(ip, bad);
  }

  /** Damage to a word of a datagram other than its length and checksum fields; a
      checksum field damaged to zero would switch the check off. */
  lemma DamagedDatagramIsDropped(d: Datagram, to: Mac, from: Mac, at: nat, word: u16)
    requires |d.payload| <= UDP_PAYLOAD_CAPACITY
    requires var udp := UdpBytes(d, UdpSum(d));
             at < |udp| && Visible(udp, at, word) && at != 4 && at != 6
    ensures var udp := UdpBytes(d, UdpSum(d));
            DecodeUdp(Ethernet(to, from) + IpHeader(20 + |udp|, UDP, d.source, d.destination) + Damaged(udp, at, word)
                      + Padding(34 + |udp|), d.destination) == None
  {
    hide WordSum, Complement, PseudoSum, IpHeader, IpPacket, UdpSum, UdpBytes;
    var udp := UdpBytes(d, UdpSum(d));
    UdpRead(d, UdpSum(d));
    var bad := Damaged(udp, at, word);
    UdpAccepted(d);
    DamageChangesSum(PseudoSum(UDP, |udp|, d.source, d.destination), udp, at, word);
    PacketFound(20 + |udp|, UDP, d.source, d.destination, bad, Padding(34 + |udp|), to, from);
    IpHeaderReads(20 + |udp|, UDP, d.source, d.destination);
    var ip := IpHeader(20 + |udp|, UDP, d.source, d.destination);
    var packet := ip + bad;
    Behind(ip, bad);
    assert bad[4] == udp[4] && bad[5] == udp[5] && bad[6] == udp[6] && bad[7] == udp[7];
    assert Get16(packet, 24) == Get16(bad, 4) == |udp|;
    assert Get16(bad, 6) == Get16(udp, 6) == UdpSum(d);
    UdpRoundTrip(d, to, from);
  }

  lemma Behind(ip: seq<byte>, data: seq<byte>)
    requires |ip| == 20
    ensures var packet := ip + data;
            && packet[20..] == packet[20..20 + |data|] == data
            && packet[12..16] == ip[12..16] && packet[16..20] == ip[16..20]
  {
  }

  /** Damage to a word of the IP header. */
  lemma DamagedHeaderIsDropped(total: u16, protocol: byte, source: Address, destination: Address,
                               data: seq<byte>, to: Mac, from: Mac, at: nat, word: u16)
    requires at < 20 && Visible(IpHeader(total, protocol, source, destination), at, word)
    ensures var ip := IpHeader(total, protocol, source, destination);
            forall p: byte, a: Address :: IpPacket(Ethernet(to, from) + Damaged(ip, at, word) + data, p, a) == None
  {
    hide WordSum, Complement, IpHeader, Get16;
    IpHeaderReads(total, protocol, source, destination);
    var ip := IpHeader(total, protocol, source, destination);
    IpHeaderAccepted(total, protocol, source, destination);
    DamageChangesSum(0, ip, at, word);
    var frame := Ethernet(to, from) + Damaged(ip, at, word) + data;
    assert |Ethernet(to, from)| == 14;
    assert frame[14..][..20] == Damaged(ip, at, word);
  }
}
