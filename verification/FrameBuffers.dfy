/** The frame buffer of kernel/ipv4.c.  A frame is zeroed, filled field by field, sealed
    with its checksums and padded in one array; an arriving frame is checked and taken
    apart where it lies.  Each method is proved against the printer or parser of
    FrameCodec. */
module FrameBuffers {
  import opened Words
  import opened Wrappers
  import opened Checksums
  import opened TcpListener
  import opened TcpConnection
  import opened FrameCodec

  method Clear(frame: array<byte>)
    modifies frame
    ensures frame[..] == Zeros(frame.Length)
  {
    var index := 0;
    while index < frame.Length
      invariant index <= frame.Length && forall k :: 0 <= k < index ==> frame[k] == 0
    {
      frame[index] := 0;
      index := index + 1;
    }
  }

  /** Copies `bytes` into the buffer at `at` and touches nothing else. */
  method Put(frame: array<byte>, at: nat, bytes: seq<byte>)
    requires at + |bytes| <= frame.Length
    modifies frame
    ensures frame[..] == old(frame[..at]) + bytes + old(frame[at + |bytes|..])
  {
    var index := 0;
    while index < |bytes|
      invariant index <= |bytes|
      invariant forall k :: 0 <= k < index ==> frame[at + k] == bytes[k]
      invariant forall k :: 0 <= k < frame.Length && !(at <= k < at + index) ==> frame[k] == old(frame[k])
    {
      frame[at + index] := bytes[index];
      index := index + 1;
    }
    assert frame[..] == frame[..at] + frame[at..at + |bytes|] + frame[at + |bytes|..];
    assert frame[at..at + |bytes|] == bytes;
  }

  /** Fields written one behind the other extend what is already written. */
  method Append(frame: array<byte>, ghost done: seq<byte>, at: nat, bytes: seq<byte>)
    requires |done| == at && at + |bytes| <= frame.Length
    requires frame[..] == done + Zeros(frame.Length - at)
    modifies frame
    ensures frame[..] == done + bytes + Zeros(frame.Length - at - |bytes|)
  {
    Put(frame, at, bytes);
    assert old(frame[..at]) == old(frame[..])[..at] == done;
    assert old(frame[at + |bytes|..]) == old(frame[..])[at + |bytes|..] == Zeros(frame.Length - at - |bytes|);
  }

  method PutEthernet(frame: array<byte>, to: Mac, from: Mac)
    requires frame.Length == FRAME_CAPACITY
    modifies frame
    ensures |Ethernet(to, from)| == 14
    ensures frame[..] == Ethernet(to, from) + Zeros(FRAME_CAPACITY - 14)
  {
    hide Zeros;
    Clear(frame);
    Append(frame, [], 0, to);
    Append(frame, to, 6, from);
    Append(frame, to + from, 12, Big16(0x0800));
  }

  method PutHeaders(frame: array<byte>, total: u16, protocol: byte, source: Address, destination: Address,
                    to: Mac, from: Mac)
    requires frame.Length == FRAME_CAPACITY
    modifies frame
    ensures frame[..] == Ethernet(to, from) + IpHeader(total, protocol, source, destination)
                         + Zeros(FRAME_CAPACITY - 34)
  {
    hide WordSum, Complement, Zeros, Ethernet;
    PutEthernet(frame, to, from);
    ghost var ethernet := Ethernet(to, from);
    var front := [0x45, 0] + Big16(total) + [0, 0, 0x40, 0, 64, protocol];
    Append(frame, ethernet, 14, front);
    Append(frame, ethernet + front, 24, [0, 0]);
    Append(frame, ethernet + front + [0, 0], 26, source);
    Append(frame, ethernet + front + [0, 0] + source, 30, destination);
    ghost var zero := IpFields(total, protocol, source, destination, 0);
    assert front + [0, 0] + source + destination == zero;
    assert frame[..] == ethernet + zero + Zeros(FRAME_CAPACITY - 34);
    assert frame[14..34] == frame[..][14..34] == zero;
    var sum := ComputeChecksum(frame[14..34], 0);
    Put(frame, 24, Big16(sum));
    SealHeader(ethernet, total, protocol, source, destination, Zeros(FRAME_CAPACITY - 34));
  }

  lemma SealHeader(ethernet: seq<byte>, total: u16, protocol: byte, source: Address, destination: Address,
                   rest: seq<byte>)
    requires |ethernet| == 14
    ensures var zero := IpFields(total, protocol, source, destination, 0);
            var before := ethernet + zero + rest;
            before[..24] + Big16(Complement(WordSum(zero))) + before[26..]
            == ethernet + IpHeader(total, protocol, source, destination) + rest
  {
    hide WordSum, Complement;
    var zero := IpFields(total, protocol, source, destination, 0);
    var sum := Complement(WordSum(zero));
    var before := ethernet + zero + rest;
    assert before[..24] == ethernet + zero[..10];
    assert before[26..] == zero[12..] + rest;
    assert zero[..10] + Big16(sum) + zero[12..] == IpHeader(total, protocol, source, destination);
  }

  /** `send_tcp_segment_to` up to the device call: the number of bytes to send, or 0
      when the segment is not sendable and the buffer stays as it was. */
  method BuildTcp(frame: array<byte>, s: Segment, window: u16, payload: seq<byte>, to: Mac, from: Mac)
    returns (length: nat)
    requires frame.Length == FRAME_CAPACITY
    modifies frame
    ensures !IsSendable(s, payload) ==> length == 0 && frame[..] == old(frame[..])
    ensures IsSendable(s, payload) ==> length <= frame.Length && frame[..length] == TcpFrame(s, window, payload, to, from)
  {
    hide WordSum, Complement, IpHeader, PseudoSum, Ethernet, TcpFields;
    var header := HeaderLength(s.flags);
    if s.flags == 0 || |payload| > FRAME_CAPACITY - 34 - header { return 0; }
    var size := header + |payload|;
    PutHeaders(frame, 20 + size, TCP, s.source, s.destination, to, from);
    ghost var front := Ethernet(to, from) + IpHeader(20 + size, TCP, s.source, s.destination);
    assert |front| == 34 by { FrontLength(20 + size, TCP, s.source, s.destination, to, from); }
    PutTcp(frame, front, s, window, payload);
    TcpFieldsRead(s, window, 0, []);
    TcpFieldsRead(s, window, TcpSum(s, window, payload), []);
    SealBuffer(frame, s, window, payload, to, from);
    length := if 34 + size < 60 then 60 else 34 + size;
    ghost var tcp := TcpBytes(s, window, payload, TcpSum(s, window, payload));
    assert frame[..] == front + tcp + Zeros(FRAME_CAPACITY - 34 - size);
    assert frame[..length] == front + tcp + Padding(34 + size);
  }

  /** The checksum over the finished segment goes into its field. */
  method SealBuffer(frame: array<byte>, s: Segment, window: u16, payload: seq<byte>, ghost to: Mac, ghost from: Mac)
    requires frame.Length == FRAME_CAPACITY && IsSendable(s, payload)
    requires var zero := TcpBytes(s, window, payload, 0);
             frame[..] == Ethernet(to, from) + IpHeader(20 + |zero|, TCP, s.source, s.destination) + zero
                          + Zeros(FRAME_CAPACITY - 34 - |zero|)
    modifies frame
    ensures var tcp := TcpBytes(s, window, payload, TcpSum(s, window, payload));
            frame[..] == Ethernet(to, from) + IpHeader(20 + |tcp|, TCP, s.source, s.destination) + tcp
                         + Zeros(FRAME_CAPACITY - 34 - |tcp|)
  {
    hide IpHeader, Ethernet, TcpBytes, TcpSum, Zeros, Big16;
    var size := HeaderLength(s.flags) + |payload|;
    ghost var front := Ethernet(to, from) + IpHeader(20 + size, TCP, s.source, s.destination);
    TcpSealPlace(s, window, payload, 0);
    FrontAddresses(20 + size, TCP, s.source, s.destination, to, from);
    var sum := SumSegment(frame, front, s, window, payload, size);
    TcpSealPlace(s, window, payload, sum);
    Lengths(sum, 0);
    Put(frame, 50, Big16(sum));
    SealTcp(front, s, window, payload, sum);
  }

  /** The TCP checksum, computed over the segment and the addresses in the buffer. */
  method SumSegment(frame: array<byte>, ghost front: seq<byte>, s: Segment, ghost window: u16,
                    ghost payload: seq<byte>, size: nat) returns (sum: u16)
    requires frame.Length == FRAME_CAPACITY && |front| == 34
    requires front[26..30] == s.source && front[30..34] == s.destination
    requires size == |TcpBytes(s, window, payload, 0)| <= FRAME_CAPACITY - 34
    requires frame[..] == front + TcpBytes(s, window, payload, 0) + Zeros(FRAME_CAPACITY - 34 - size)
    ensures sum == TcpSum(s, window, payload)
  {
    hide WordSum, Complement, PseudoSum, TcpBytes, Zeros;
    SlicesOf(frame[..], front, TcpBytes(s, window, payload, 0));
    assert frame[26..30] == front[26..30] && frame[30..34] == front[30..34];
    assert frame[34..34 + size] == TcpBytes(s, window, payload, 0);
    PseudoBound(TCP, size, s.source, s.destination);
    sum := ComputeChecksum(frame[34..34 + size], PseudoSum(TCP, size, frame[26..30], frame[30..34]));
  }

  lemma FrontLength(total: u16, protocol: byte, source: Address, destination: Address, to: Mac, from: Mac)
    ensures |Ethernet(to, from) + IpHeader(total, protocol, source, destination)| == 34
  {
    IpHeaderReads(total, protocol, source, destination);
  }

  lemma FrontAddresses(total: u16, protocol: byte, source: Address, destination: Address, to: Mac, from: Mac)
    ensures var front := Ethernet(to, from) + IpHeader(total, protocol, source, destination);
            |front| == 34 && front[26..30] == source && front[30..34] == destination
  {
    hide IpHeader;
    IpHeaderReads(total, protocol, source, destination);
    var ip := IpHeader(total, protocol, source, destination);
    var front := Ethernet(to, from) + ip;
    assert front[26..30] == ip[12..16] && front[30..34] == ip[16..20];
  }

  lemma SlicesOf(whole: seq<byte>, front: seq<byte>, middle: seq<byte>)
    requires |front| == 34 && front + middle <= whole
    ensures whole[34..34 + |middle|] == middle && whole[..34] == front
  {
  }

  lemma PseudoBound(protocol: byte, length: nat, source: Address, destination: Address)
    ensures PseudoSum(protocol, length, source, destination) <= 0x4_0100 + length
  {
  }

  /** The twenty fixed bytes of the header, checksum zero. */
  method PutTcpFields(frame: array<byte>, ghost front: seq<byte>, s: Segment, window: u16)
    requires frame.Length == FRAME_CAPACITY && |front| == 34
    requires frame[..] == front + Zeros(FRAME_CAPACITY - 34)
    modifies frame
    ensures |TcpFields(s, window, 0)| == 20
    ensures frame[..] == front + TcpFields(s, window, 0) + Zeros(FRAME_CAPACITY - 54)
  {
    hide Zeros, Big32, Big16, TcpFields;
    Lengths(s.sourcePort, s.sequence);
    Lengths(s.destinationPort, s.acknowledgement);
    Lengths(window, 0);
    var ports := Big16(s.sourcePort) + Big16(s.destinationPort);
    var numbers := Big32(s.sequence) + Big32(s.acknowledgement);
    var control := [HeaderLength(s.flags) / 4 * 16, s.flags] + Big16(window);
    Append(frame, front, 34, ports);
    Append(frame, front + ports, 38, numbers);
    Append(frame, front + ports + numbers, 46, control);
    Append(frame, front + ports + numbers + control, 50, [0, 0, 0, 0]);
    FieldsInOrder(front, s, window);
  }

  /** The TCP header with a zero checksum, its option and the payload. */
  method PutTcp(frame: array<byte>, ghost front: seq<byte>, s: Segment, window: u16, payload: seq<byte>)
    requires frame.Length == FRAME_CAPACITY && IsSendable(s, payload) && |front| == 34
    requires frame[..] == front + Zeros(FRAME_CAPACITY - 34)
    modifies frame
    ensures var zero := TcpBytes(s, window, payload, 0);
            frame[..] == front + zero + Zeros(FRAME_CAPACITY - 34 - |zero|)
  {
    hide Zeros, TcpFields, MssOption, Big16;
    PutTcpFields(frame, front, s, window);
    ghost var fields := TcpFields(s, window, 0);
    var at := 54;
    MssOptionIs(s.flags);
    if HasSyn(s.flags) {
      Append(frame, front + fields, 54, [2, 4] + Big16(LOCAL_MSS));
      at := 58;
    }
    Append(frame, front + fields + MssOption(s.flags), at, payload);
    assert front + fields + MssOption(s.flags) + payload == front + TcpBytes(s, window, payload, 0);
  }

  lemma MssOptionIs(flags: byte)
    ensures MssOption(flags) == if HasSyn(flags) then [2, 4] + Big16(LOCAL_MSS) else []
    ensures |MssOption(flags)| == if HasSyn(flags) then 4 else 0
  {
  }

  lemma FieldsInOrder(front: seq<byte>, s: Segment, window: u16)
    ensures var ports := Big16(s.sourcePort) + Big16(s.destinationPort);
            var numbers := Big32(s.sequence) + Big32(s.acknowledgement);
            var control := [HeaderLength(s.flags) / 4 * 16, s.flags] + Big16(window);
            && front + ports + numbers + control + [0, 0, 0, 0] == front + TcpFields(s, window, 0)
            && |TcpFields(s, window, 0)| == 20
  {
    hide Big32;
    Lengths(s.sourcePort, s.sequence);
    Lengths(s.destinationPort, s.acknowledgement);
    assert Big16(0) + [0, 0] == [0, 0, 0, 0];
  }

  lemma SealTcp(front: seq<byte>, s: Segment, window: u16, payload: seq<byte>, sum: u16)
    requires |front| == 34 && IsSendable(s, payload)
    ensures var zero := TcpBytes(s, window, payload, 0);
            var rest := Zeros(FRAME_CAPACITY - 34 - |zero|);
            var before := front + zero + rest;
            before[..50] + Big16(sum) + before[52..] == front + TcpBytes(s, window, payload, sum) + rest
  {
    hide TcpBytes, Zeros, Big16;
    var zero := TcpBytes(s, window, payload, 0);
    TcpSealPlace(s, window, payload, sum);
    Lengths(sum, 0);
    SealAt(front, zero, Zeros(FRAME_CAPACITY - 34 - |zero|), Big16(sum));
  }

  lemma SealAt(front: seq<byte>, zero: seq<byte>, rest: seq<byte>, w: seq<byte>)
    requires |front| == 34 && |zero| >= 20 && |w| == 2
    ensures var before := front + zero + rest;
            before[..50] + w + before[52..] == front + (zero[..16] + w + zero[18..]) + rest
  {
    var before := front + zero + rest;
    assert before[..50] == front + zero[..16];
    assert before[52..] == zero[18..] + rest;
  }

  /** `parse_tcp_maximum_segment_size` */
  method ParseMss(tcp: seq<byte>, headerLength: nat) returns (mss: u16)
    requires headerLength <= |tcp|
    ensures mss == MssFrom(tcp, 20, headerLength)
  {
    var offset := 20;
    while offset < headerLength
      invariant MssFrom(tcp, 20, headerLength) == MssFrom(tcp, offset, headerLength)
      decreases headerLength - offset
    {
      var kind := tcp[offset];
      if kind == 0 { break; }
      if kind == 1 {
        offset := offset + 1;
        continue;
      }
      if offset + 1 >= headerLength { break; }
      var length := tcp[offset + 1];
      if length < 2 || offset + length > headerLength { break; }
      if kind == 2 && length == 4 { return Get16(tcp, offset + 2); }
      offset := offset + length;
    }
    return 0;
  }

  method SameBytes(left: seq<byte>, right: seq<byte>) returns (same: bool)
    requires |left| == |right|
    ensures same == (left == right)
  {
    var index := 0;
    while index < |left|
      invariant index <= |left| && left[..index] == right[..index]
    {
      if left[index] != right[index] { return false; }
      index := index + 1;
    }
    assert left == left[..index] && right == right[..index];
    return true;
  }

  lemma ShiftRead(s: seq<byte>, from: nat, at: nat)
    requires from + at + 1 < |s|
    ensures Get16(s[from..], at) == Get16(s, from + at)
  {
  }

  lemma HeaderSlices(f: seq<byte>)
    requires |f| >= 34
    ensures f[14..][..20] == f[14..34] && f[14..][16..20] == f[30..34]
    ensures f[14..][0] == f[14] && f[14..][9] == f[23]
  {
  }

  lemma PacketSlices(f: seq<byte>, total: nat)
    requires 20 <= total && 14 + total <= |f|
    ensures var packet := f[14..][..total];
            packet[20..] == f[34..14 + total] && packet[12..16] == f[26..30] && packet[16..20] == f[30..34]
  {
    var packet := f[14..][..total];
    assert packet == f[14..14 + total];
  }

  /** The TCP branch of `arwill_ipv4_poll_tcp`, on the `length` bytes that arrived. */
  method ReceiveTcp(frame: array<byte>, length: nat, address: Address) returns (r: Option<Frame>)
    requires length <= frame.Length <= 0x1_0000
    ensures r == DecodeTcp(frame[..length], address)
  {
    hide WordSum, Complement, PseudoSum, MssFrom, Get16, Get32;
    var f := frame[..length];
    if length < 54 || Get16(f, 12) != 0x0800 || f[14] != 0x45 || f[23] != TCP { return None; }
    var ours := SameBytes(f[30..34], address);
    HeaderSlices(f);
    if !ours { return None; }
    var headerSum := ComputeChecksum(f[14..34], 0);
    if headerSum != 0 { return None; }
    var headerLength := f[46] / 16 * 4;
    var total := Get16(f, 16);
    ShiftRead(f, 14, 2);
    if headerLength < 20 || total < 20 + headerLength || 14 + total > length { return None; }
    var tcp := f[34..14 + total];
    var source, destination := f[26..30], f[30..34];
    ghost var packet := f[14..][..total];
    assert IpPacket(f, TCP, address) == Some(packet);
    PacketSlices(f, total);
    PseudoBound(TCP, |tcp|, source, destination);
    var sum := ComputeChecksum(tcp, PseudoSum(TCP, |tcp|, source, destination));
    if sum != 0 { return None; }
    var flags := tcp[13];
    var mss := 0;
    if HasSyn(flags) { mss := ParseMss(tcp, headerLength); }
    r := Some(Frame(
      Segment(source, destination, Get16(tcp, 0), Get16(tcp, 2), Get32(tcp, 4), Get32(tcp, 8), flags,
              Get16(tcp, 14), mss, |tcp| - headerLength),
      tcp[headerLength..]));
  }
}
