/** The bytes of TCP and UDP frames, and how they are read back. */
module FrameCodec {
  import opened Words
  import opened Sequences
  import opened Wrappers
  import opened Checksums
  import opened TcpListener
  import opened TcpConnection

  type Mac = m: seq<byte> | |m| == 6 witness [0, 0, 0, 0, 0, 0]

  const TCP: byte := 6
  const UDP: byte := 17
  const UDP_PAYLOAD_CAPACITY := 512

  function Big32(x: u32): seq<byte> {
    Big16(x / 0x1_0000) + Big16(x % 0x1_0000)
  }

  function Get32(s: seq<byte>, at: nat): u32
    requires at + 3 < |s|
  {
    Get16(s, at) as int * 0x1_0000 + Get16(s, at + 2) as int
  }

  // ----- printing: `send_tcp_segment_to`, `arwill_ipv4_udp_send`

  function Ethernet(destination: Mac, source: Mac): seq<byte> {
    destination + source + Big16(0x0800)
  }

  function IpFields(total: u16, protocol: byte, source: Address, destination: Address, sum: u16): seq<byte> {
    [0x45, 0, total / 256, total % 256, 0, 0, 0x40, 0, 64, protocol, sum / 256, sum % 256,
     source[0], source[1], source[2], source[3],
     destination[0], destination[1], destination[2], destination[3]]
  }

  function IpHeader(total: u16, protocol: byte, source: Address, destination: Address): seq<byte> {
    IpFields(total, protocol, source, destination,
             Complement(WordSum(IpFields(total, protocol, source, destination, 0))))
  }

  /** What the transport checksums add for the addresses, protocol and length. */
  function PseudoSum(protocol: byte, length: nat, source: Address, destination: Address): nat {
    protocol as int + length
    + Get16(source, 0) + Get16(source, 2) + Get16(destination, 0) + Get16(destination, 2)
  }

  /** The first 20 bytes of the TCP header. */
  function TcpFields(s: Segment, window: u16, sum: u16): seq<byte> {
    Big16(s.sourcePort) + Big16(s.destinationPort) + Big32(s.sequence) + Big32(s.acknowledgement)
    + [HeaderLength(s.flags) / 4 * 16, s.flags] + Big16(window) + Big16(sum) + [0, 0]
  }

  function MssOption(flags: byte): seq<byte> {
    if HasSyn(flags) then [2, 4] + Big16(LOCAL_MSS) else []
  }

  function TcpBytes(s: Segment, window: u16, payload: seq<byte>, sum: u16): seq<byte> {
    TcpFields(s, window, sum) + (MssOption(s.flags) + payload)
  }

  function TcpSum(s: Segment, window: u16, payload: seq<byte>): u16 {
    var unsealed := TcpBytes(s, window, payload, 0);
    Complement(PseudoSum(TCP, |unsealed|, s.source, s.destination) + WordSum(unsealed))
  }

  /** Frames are padded with zeros to the Ethernet minimum. */
  function Padding(length: nat): seq<byte> {
    Zeros(if length < 60 then 60 - length else 0)
  }

  function TcpFrame(s: Segment, window: u16, payload: seq<byte>, destination: Mac, source: Mac): seq<byte>
    requires IsSendable(s, payload)
  {
    var tcp := TcpBytes(s, window, payload, TcpSum(s, window, payload));
    Ethernet(destination, source) + IpHeader(20 + |tcp|, TCP, s.source, s.destination) + tcp
    + Padding(34 + |tcp|)
  }

  datatype Datagram = Datagram(source: Address, destination: Address, sourcePort: u16, destinationPort: u16,
                               payload: seq<byte>)

  function UdpBytes(d: Datagram, sum: u16): seq<byte>
    requires |d.payload| <= UDP_PAYLOAD_CAPACITY
  {
    Big16(d.sourcePort) + Big16(d.destinationPort) + Big16(8 + |d.payload|) + Big16(sum) + d.payload
  }

  /** RFC 768: a computed zero is sent as all ones, since zero means "no checksum". */
  function UdpSum(d: Datagram): u16
    requires |d.payload| <= UDP_PAYLOAD_CAPACITY
  {
    var unsealed := UdpBytes(d, 0);
    var sum := Complement(PseudoSum(UDP, |unsealed|, d.source, d.destination) + WordSum(unsealed));
    if sum == 0 then 0xffff else sum
  }

  function UdpFrame(d: Datagram, destination: Mac, source: Mac): seq<byte>
    requires |d.payload| <= UDP_PAYLOAD_CAPACITY
  {
    var udp := UdpBytes(d, UdpSum(d));
    Ethernet(destination, source) + IpHeader(20 + |udp|, UDP, d.source, d.destination) + udp
    + Padding(34 + |udp|)
  }

  // ----- parsing: `arwill_ipv4_poll_tcp`, `handle_udp_frame`

  /** The options from `offset`: the value of the first MSS option, 0 if there is none
      or if an option does not fit. */
  function MssFrom(tcp: seq<byte>, offset: nat, headerLength: nat): u16
    requires headerLength <= |tcp|
    decreases headerLength - offset
  {
    if offset >= headerLength || tcp[offset] == 0 then 0
    else if tcp[offset] == 1 then MssFrom(tcp, offset + 1, headerLength)
    else if offset + 1 >= headerLength then 0
    else
      var length := tcp[offset + 1];
      if length < 2 || offset + length > headerLength then 0
      else if tcp[offset] == 2 && length == 4 then Get16(tcp, offset + 2)
      else MssFrom(tcp, offset + length, headerLength)
  }

  /** The IP packet of an Ethernet frame that carries `protocol`, is addressed to
      `address`, has no IP options and a good header checksum. */
  function IpPacket(frame: seq<byte>, protocol: byte, address: Address): Option<seq<byte>> {
    if |frame| < 34 then None
    else
      var ip := frame[14..];
      if Get16(frame, 12) != 0x0800 || ip[0] != 0x45 || ip[9] != protocol || ip[16..20] != address then None
      else if Complement(WordSum(ip[..20])) != 0 then None
      else if Get16(ip, 2) < 20 || Get16(ip, 2) > |ip| then None
      else Some(ip[..Get16(ip, 2)])
  }

  function DecodeTcp(frame: seq<byte>, address: Address): Option<Frame> {
    if |frame| < 54 then None
    else match IpPacket(frame, TCP, address)
      case None => None
      case Some(packet) =>
        var headerLength := frame[46] / 16 * 4;
        if headerLength < 20 || |packet| < 20 + headerLength then None
        else
          var tcp := packet[20..];
          var source, destination := packet[12..16], packet[16..20];
          if Complement(PseudoSum(TCP, |tcp|, source, destination) + WordSum(tcp)) != 0 then None
          else
            var flags := tcp[13];
            Some(Frame(
              Segment(source, destination, Get16(tcp, 0), Get16(tcp, 2), Get32(tcp, 4), Get32(tcp, 8),
                      flags, Get16(tcp, 14), if HasSyn(flags) then MssFrom(tcp, 20, headerLength) else 0,
                      |tcp| - headerLength),
              tcp[headerLength..]))
  }

  function DecodeUdp(frame: seq<byte>, address: Address): Option<Datagram> {
    if |frame| < 42 then None
    else match IpPacket(frame, UDP, address)
      case None => None
      case Some(packet) =>
        if |packet| < 28 then None
        else
          var length := Get16(packet, 24);
          if length < 8 || length > |packet| - 20 then None
          else
            var udp := packet[20..20 + length];
            var source, destination := packet[12..16], packet[16..20];
            if Get16(udp, 6) != 0
               && Complement(PseudoSum(UDP, length, source, destination) + WordSum(udp)) != 0 then None
            else Some(Datagram(source, destination, Get16(udp, 0), Get16(udp, 2), udp[8..]))
  }

  // ----- the IP header

  lemma Read32(x: u32)
    ensures Get32(Big32(x), 0) == x
  {
  }

  lemma IpHeaderAccepted(total: u16, protocol: byte, source: Address, destination: Address)
    ensures Complement(WordSum(IpHeader(total, protocol, source, destination))) == 0
  {
    hide WordSum, Complement, IpFields, Big16;
    var zero := IpFields(total, protocol, source, destination, 0);
    SealPlace(total, protocol, source, destination, 0);
    SealPlace(total, protocol, source, destination, Complement(WordSum(zero)));
    SealedIsAccepted(0, zero[..10], zero[12..]);
  }

  /** The header checksum is the word at offset 10. */
  lemma SealPlace(total: u16, protocol: byte, source: Address, destination: Address, sum: u16)
    ensures var zero := IpFields(total, protocol, source, destination, 0);
            |zero| == 20 && IpFields(total, protocol, source, destination, sum) == zero[..10] + Big16(sum) + zero[12..]
  {
    var zero := IpFields(total, protocol, source, destination, 0);
    var sealed := IpFields(total, protocol, source, destination, sum);
    assert |zero| == |sealed| == 20 && sealed[10..12] == Big16(sum);
    assert sealed[..10] == zero[..10] && sealed[12..] == zero[12..];
    assert sealed == sealed[..10] + sealed[10..12] + sealed[12..];
  }

  /** The packet inside a printed frame is found, whole, and without the padding. */
  lemma PacketFound(total: u16, protocol: byte, source: Address, destination: Address,
                    data: seq<byte>, pad: seq<byte>, to: Mac, from: Mac)
    requires total == 20 + |data|
    ensures var ip := IpHeader(total, protocol, source, destination);
            IpPacket(Ethernet(to, from) + ip + data + pad, protocol, destination) == Some(ip + data)
  {
    hide WordSum, Complement, IpHeader;
    var ip := IpHeader(total, protocol, source, destination);
    IpHeaderReads(total, protocol, source, destination);
    var frame := Ethernet(to, from) + ip + data + pad;
    assert frame[14..] == ip + data + pad;
    assert frame[12..14] == Big16(0x0800);
    assert frame[14..][..20] == ip;
    assert frame[14..][16..20] == ip[16..20];
    assert frame[14..][..total] == ip + data;
    assert Get16(frame[14..], 2) == Get16(ip, 2);
    assert Get16(frame, 12) == Get16(Big16(0x0800), 0);
    IpHeaderAccepted(total, protocol, source, destination);
  }

  lemma IpHeaderReads(total: u16, protocol: byte, source: Address, destination: Address)
    ensures var ip := IpHeader(total, protocol, source, destination);
            && |ip| == 20 && ip[0] == 0x45 && ip[9] == protocol && Get16(ip, 2) == total
            && ip[12..16] == source && ip[16..20] == destination
  {
    hide WordSum, Complement;
    var ip := IpHeader(total, protocol, source, destination);
    assert ip[12..16] == source && ip[16..20] == destination;
  }

  /** A frame for somebody else is not taken. */
  lemma OtherAddress(frame: seq<byte>, protocol: byte, address: Address)
    requires IpPacket(frame, protocol, address).Some?
    ensures IpPacket(frame, protocol, address).value[16..20] == address
    ensures forall other: Address :: other != address ==> IpPacket(frame, protocol, other) == None
  {
    hide WordSum, Complement;
    var ip := frame[14..];
    var total := Get16(ip, 2);
    SliceInside(ip, total, 16, 20);
  }

  // ----- TCP

  lemma Lengths(x: u16, y: u32)
    ensures |Big16(x)| == 2 && |Big32(y)| == 4
  {
  }

  lemma EightFields(a: seq<byte>, b: seq<byte>, c: seq<byte>, d: seq<byte>, e: seq<byte>, f: seq<byte>,
                    g: seq<byte>, h: seq<byte>)
    requires |a| == |b| == |e| == |f| == |g| == |h| == 2 && |c| == |d| == 4
    ensures var t := a + b + c + d + e + f + g + h;
            && |t| == 20 && t[0..2] == a && t[2..4] == b && t[4..8] == c && t[8..12] == d
            && t[12..14] == e && t[14..16] == f
  {
  }

  lemma Get16At(t: seq<byte>, rest: seq<byte>, at: nat)
    requires at + 2 <= |t|
    ensures Get16(t + rest, at) == Get16(t[at..at + 2], 0)
  {
  }

  lemma Get32At(t: seq<byte>, rest: seq<byte>, at: nat)
    requires at + 4 <= |t|
    ensures Get32(t + rest, at) == Get32(t[at..at + 4], 0)
  {
  }

  lemma TcpFieldsRead(s: Segment, window: u16, sum: u16, rest: seq<byte>)
    ensures var t := TcpFields(s, window, sum);
            var tcp := t + rest;
            && |t| == 20 && Get16(tcp, 0) == s.sourcePort && Get16(tcp, 2) == s.destinationPort
            && Get32(tcp, 4) == s.sequence && Get32(tcp, 8) == s.acknowledgement
            && tcp[12] == HeaderLength(s.flags) / 4 * 16 && tcp[13] == s.flags && Get16(tcp, 14) == window
  {
    hide Big16, Big32;
    var t := TcpFields(s, window, sum);
    Lengths(s.sourcePort, s.sequence);
    Lengths(s.destinationPort, s.acknowledgement);
    Lengths(window, 0);
    Lengths(sum, 0);
    EightFields(Big16(s.sourcePort), Big16(s.destinationPort), Big32(s.sequence), Big32(s.acknowledgement),
                [HeaderLength(s.flags) / 4 * 16, s.flags], Big16(window), Big16(sum), [0, 0]);
    assert t[12] == t[12..14][0] && t[13] == t[12..14][1];
    Get16At(t, rest, 0);
    Get16At(t, rest, 2);
    Get32At(t, rest, 4);
    Get32At(t, rest, 8);
    Get16At(t, rest, 14);
    Read16(s.sourcePort);
    Read16(s.destinationPort);
    Read32(s.sequence);
    Read32(s.acknowledgement);
    Read16(window);
  }

  lemma TcpAccepted(s: Segment, window: u16, payload: seq<byte>)
    ensures var tcp := TcpBytes(s, window, payload, TcpSum(s, window, payload));
            Complement(PseudoSum(TCP, |tcp|, s.source, s.destination) + WordSum(tcp)) == 0
  {
    hide WordSum, Complement, PseudoSum, TcpBytes, Big16;
    var zero := TcpBytes(s, window, payload, 0);
    TcpSealPlace(s, window, payload, 0);
    TcpSealPlace(s, window, payload, TcpSum(s, window, payload));
    SealedIsAccepted(PseudoSum(TCP, |zero|, s.source, s.destination), zero[..16], zero[18..]);
  }

  /** The TCP checksum is the word at offset 16. */
  lemma TcpSealPlace(s: Segment, window: u16, payload: seq<byte>, sum: u16)
    ensures var zero := TcpBytes(s, window, payload, 0);
            && |zero| == HeaderLength(s.flags) + |payload| >= 20
            && TcpBytes(s, window, payload, sum) == zero[..16] + Big16(sum) + zero[18..]
            && |TcpBytes(s, window, payload, sum)| == |zero|
  {
    hide Big32;
    Lengths(sum, s.sequence);
    Lengths(sum, s.acknowledgement);
    var a := Big16(s.sourcePort) + Big16(s.destinationPort) + Big32(s.sequence) + Big32(s.acknowledgement)
             + [HeaderLength(s.flags) / 4 * 16, s.flags] + Big16(window);
    var c := MssOption(s.flags) + payload;
    assert |a| == 16;
    assert TcpBytes(s, window, payload, 0) == a + Big16(0) + [0, 0] + c;
    assert TcpBytes(s, window, payload, sum) == a + Big16(sum) + [0, 0] + c;
    SealInside(a, Big16(0), Big16(sum), [0, 0], c);
  }

  lemma SealInside(a: seq<byte>, w: seq<byte>, v: seq<byte>, b: seq<byte>, c: seq<byte>)
    requires |w| == |v| == 2
    ensures var s := a + w + b + c;
            a + v + b + c == s[..|a|] + v + s[|a| + 2..]
  {
    var s := a + w + b + c;
    assert s[..|a|] == a && s[|a| + 2..] == b + c;
  }

  lemma MssRead(s: Segment, window: u16, payload: seq<byte>, sum: u16)
    requires HasSyn(s.flags)
    ensures MssFrom(TcpBytes(s, window, payload, sum), 20, 24) == LOCAL_MSS
  {
    var tcp := TcpBytes(s, window, payload, sum);
    assert tcp[20] == 2 && tcp[21] == 4 && tcp[22..24] == Big16(LOCAL_MSS);
    Read16(LOCAL_MSS);
  }

  /** Decoding a printed segment yields the segment, with the window and MSS that go
      on the wire and the payload without padding. */
  lemma TcpRoundTrip(c: Connection, s: Segment, payload: seq<byte>, destination: Mac, source: Mac)
    requires IsSendable(s, payload)
    ensures DecodeTcp(TcpFrame(s, Window(c), payload, destination, source), s.destination)
            == Some(OnWire(c, s, payload))
  {
    hide WordSum, Complement, PseudoSum, IpHeader, IpPacket, TcpFields, TcpSum, Get16, Get32, MssFrom;
    var window := Window(c);
    var sum := TcpSum(s, window, payload);
    var tcp := TcpBytes(s, window, payload, sum);
    var header := HeaderLength(s.flags);
    TcpFieldsRead(s, window, sum, MssOption(s.flags) + payload);
    var pad := Padding(34 + |tcp|);
    PacketFound(20 + |tcp|, TCP, s.source, s.destination, tcp, pad, destination, source);
    IpHeaderReads(20 + |tcp|, TCP, s.source, s.destination);
    var ip := IpHeader(20 + |tcp|, TCP, s.source, s.destination);
    var frame := TcpFrame(s, window, payload, destination, source);
    assert |frame| >= 54 && frame[46] == tcp[12];
    var packet := ip + tcp;
    assert packet[20..] == tcp && packet[12..16] == s.source && packet[16..20] == s.destination;
    TcpAccepted(s, window, payload);
    if HasSyn(s.flags) { MssRead(s, window, payload, sum); }
    assert tcp[header..] == payload;
  }

  // ----- UDP

  lemma UdpRead(d: Datagram, sum: u16)
    requires |d.payload| <= UDP_PAYLOAD_CAPACITY
    ensures var udp := UdpBytes(d, sum);
            && |udp| == 8 + |d.payload|
            && Get16(udp, 0) == d.sourcePort && Get16(udp, 2) == d.destinationPort
            && Get16(udp, 4) == |udp| && Get16(udp, 6) == sum && udp[8..] == d.payload
  {
    var udp := UdpBytes(d, sum);
    assert udp[0..2] == Big16(d.sourcePort) && udp[2..4] == Big16(d.destinationPort);
    assert udp[4..6] == Big16(8 + |d.payload|) && udp[6..8] == Big16(sum);
    Read16(d.sourcePort);
    Read16(d.destinationPort);
    Read16(8 + |d.payload|);
    Read16(sum);
  }

  lemma UdpAccepted(d: Datagram)
    requires |d.payload| <= UDP_PAYLOAD_CAPACITY
    ensures var udp := UdpBytes(d, UdpSum(d));
            Complement(PseudoSum(UDP, |udp|, d.source, d.destination) + WordSum(udp)) == 0
  {
    hide WordSum, Complement, Get16;
    var zero := UdpBytes(d, 0);
    var seal := UdpSum(d);
    var extra := PseudoSum(UDP, |zero|, d.source, d.destination);
    assert zero == zero[..6] + Big16(0) + d.payload;
    assert UdpBytes(d, seal) == zero[..6] + Big16(seal) + d.payload;
    if Complement(extra + WordSum(zero)) == 0 {
      InvertedZeroIsAccepted(extra, zero[..6], d.payload);
    } else {
      SealedIsAccepted(extra, zero[..6], d.payload);
    }
  }

  /** A datagram round-trips, and its checksum is never the "unchecked" zero. */
  lemma UdpRoundTrip(d: Datagram, destination: Mac, source: Mac)
    requires |d.payload| <= UDP_PAYLOAD_CAPACITY
    ensures UdpSum(d) != 0
    ensures DecodeUdp(UdpFrame(d, destination, source), d.destination) == Some(d)
  {
    hide WordSum, Complement, PseudoSum, IpHeader, IpPacket, UdpBytes;
    var udp := UdpBytes(d, UdpSum(d));
    UdpRead(d, UdpSum(d));
    var pad := Padding(34 + |udp|);
    PacketFound(20 + |udp|, UDP, d.source, d.destination, udp, pad, destination, source);
    IpHeaderReads(20 + |udp|, UDP, d.source, d.destination);
    var ip := IpHeader(20 + |udp|, UDP, d.source, d.destination);
    var packet := ip + udp;
    assert packet[20..] == udp && packet[12..16] == d.source && packet[16..20] == d.destination;
    assert Get16(packet, 24) == Get16(udp, 4);
    assert packet[20..20 + |udp|] == udp;
    assert udp[..|udp|] == udp;
    UdpAccepted(d);
  }
}
