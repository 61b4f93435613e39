/** kernel/tcp.c: sequence comparison and the ten-state connection machine. */
module TcpListener {
  import opened Words

  type Address = a: seq<byte> | |a| == 4 witness [0, 0, 0, 0]

  datatype State =
    | Listen | SynSent | SynReceived | Established | CloseWait
    | LastAck | FinWait1 | FinWait2 | Closing | TimeWait

  const FIN: byte := 1
  const SYN: byte := 2
  const RST: byte := 4
  const PSH: byte := 8
  const ACK: byte := 16

  predicate HasFin(flags: byte) { flags % 2 == 1 }
  predicate HasSyn(flags: byte) { flags / 2 % 2 == 1 }
  predicate HasRst(flags: byte) { flags / 4 % 2 == 1 }
  predicate HasAck(flags: byte) { flags / 16 % 2 == 1 }

  datatype Segment = Segment(
    source: Address, destination: Address, sourcePort: u16, destinationPort: u16,
    sequence: u32, acknowledgement: u32, flags: byte, window: u16, mss: u16, length: nat)

  datatype Listener = Listener(
    port: u16, peerPort: u16, local: Address, peer: Address,
    sequence: u32, acknowledgement: u32, peerWindow: u16, peerMss: u16, state: State)

  /** `reply.flags == 0` means that there is nothing to send. */
  datatype Received = Received(ok: bool, listener: Listener, reply: Segment)

  /** Wrapping "earlier than": true when the forward distance from `left` to
      `right` is positive and less than 2^31. */
  predicate Before(left: u32, right: u32) {
    left != right && U32(left - right) > 0x8000_0000
  }

  predicate After(left: u32, right: u32) {
    Before(right, left)
  }

  predicate IsConnected(s: State) {
    s == Established || s == CloseWait
  }

  function Init(port: u16, initialSequence: u32): Listener {
    Listener(port, 0, [0, 0, 0, 0], [0, 0, 0, 0], initialSequence, 0, 0, 536, Listen)
  }

  predicate Matches(l: Listener, s: Segment) {
    && s.destinationPort == l.port
    && (l.state == Listen ||
        (s.sourcePort == l.peerPort && s.destination == l.local && s.source == l.peer))
  }

  predicate Covers(l: Listener, acknowledgement: u32) {
    acknowledgement == l.sequence || After(acknowledgement, l.sequence)
  }

  function EmptyReply(s: Segment): Segment {
    Segment(s.destination, s.source, s.destinationPort, s.sourcePort, 0, 0, 0, 0, 0, 0)
  }

  /** The reply `blank`, turned into one that carries `flags` and the current
      sequence and acknowledgement numbers. */
  function ReplyWith(blank: Segment, l: Listener, flags: byte): Segment {
    blank.(sequence := l.sequence, acknowledgement := l.acknowledgement, flags := flags)
  }

  predicate InWindowAck(l: Listener, s: Segment) {
    HasAck(s.flags) && !After(s.acknowledgement, l.sequence)
  }

  /** ESTABLISHED, with the tuple already matched and no RST. */
  function ReceiveEstablished(l: Listener, s: Segment, blank: Segment): Received
  {
    if !InWindowAck(l, s) then
      Received(false, l, blank)
    else if s.sequence != l.acknowledgement then
      Received(true, l, ReplyWith(blank, l, ACK))
    else
      var consumed := s.length + if HasFin(s.flags) then 1 else 0;
      if consumed > 0xffff_ffff then
        Received(false, l, blank)
      else
        var l1 := l.(acknowledgement := U32(l.acknowledgement + consumed));
        var l2 := if HasFin(s.flags) then l1.(state := CloseWait) else l1;
        Received(true, l2, if consumed != 0 then ReplyWith(blank, l1, ACK) else blank)
  }

  function ReceiveFinWait1(l: Listener, s: Segment, blank: Segment): Received {
    var acknowledged := HasAck(s.flags) && Covers(l, s.acknowledgement);
    var finished := HasFin(s.flags) && s.sequence == l.acknowledgement;
    if finished then
      var l1 := l.(acknowledgement := U32(l.acknowledgement + 1),
                   state := if acknowledged then TimeWait else Closing);
      Received(true, l1, ReplyWith(blank, l1, ACK))
    else if acknowledged then
      Received(true, l.(state := FinWait2), blank)
    else
      Received(false, l, blank)
  }

  function ReceiveSynReceived(l: Listener, s: Segment, blank: Segment): Received {
    if HasSyn(s.flags) && U32(s.sequence + 1) == l.acknowledgement then
      Received(true, l, ReplyWith(blank, l, SYN + ACK))
    else if HasAck(s.flags) && s.acknowledgement == U32(l.sequence + 1) then
      Received(true, l.(sequence := U32(l.sequence + 1), state := Established), blank)
    else
      Received(false, l, blank)
  }

  function ReceiveSynSent(l: Listener, s: Segment, blank: Segment): Received {
    if HasSyn(s.flags) && HasAck(s.flags) && s.acknowledgement == U32(l.sequence + 1) then
      var l1 := l.(sequence := U32(l.sequence + 1),
                   acknowledgement := U32(s.sequence + 1),
                   peerMss := if s.mss != 0 then s.mss else l.peerMss,
                   state := Established);
      Received(true, l1, ReplyWith(blank, l1, ACK))
    else
      Received(false, l, blank)
  }

  function ReceiveListen(l: Listener, s: Segment, blank: Segment): Received {
    if HasSyn(s.flags) then
      var l1 := l.(local := s.destination, peer := s.source, peerPort := s.sourcePort,
                   peerMss := if s.mss != 0 then s.mss else l.peerMss,
                   acknowledgement := U32(s.sequence + 1),
                   state := SynReceived);
      Received(true, l1, ReplyWith(blank, l1, SYN + ACK))
    else
      Received(false, l, blank)
  }

  /** One arriving segment.  The peer's window is recorded before anything is
      checked, so it changes even when the segment is then refused. */
  function Receive(l0: Listener, s: Segment): (r: Received)
  {
    var blank := EmptyReply(s);
    if !Matches(l0, s) then
      Received(false, l0, blank)
    else
      var l := l0.(peerWindow := s.window);
      if HasRst(s.flags) then
        if l.state != Listen then Received(true, Init(l.port, l.sequence), blank)
        else Received(false, l, blank)
      else match l.state
        case SynSent => ReceiveSynSent(l, s, blank)
        case Listen => ReceiveListen(l, s, blank)
        case SynReceived => ReceiveSynReceived(l, s, blank)
        case Established => ReceiveEstablished(l, s, blank)
        case CloseWait => Received(InWindowAck(l, s), l, blank)
        case LastAck =>
          if HasAck(s.flags) && Covers(l, s.acknowledgement)
          then Received(true, Init(l.port, l.sequence), blank)
          else Received(false, l, blank)
        case FinWait1 => ReceiveFinWait1(l, s, blank)
        case FinWait2 =>
          if HasFin(s.flags) && s.sequence == l.acknowledgement then
            var l1 := l.(acknowledgement := U32(l.acknowledgement + 1), state := TimeWait);
            Received(true, l1, ReplyWith(blank, l1, ACK))
          else Received(false, l, blank)
        case Closing =>
          if HasAck(s.flags) && Covers(l, s.acknowledgement)
          then Received(true, l.(state := TimeWait), blank)
          else Received(false, l, blank)
        case TimeWait =>
          if HasFin(s.flags) then Received(true, l, ReplyWith(blank, l, ACK))
          else Received(false, l, blank)
  }

  /** Active open: the listener and the SYN to send. */
  function Connect(local: Address, localPort: u16, peer: Address, peerPort: u16,
                   initialSequence: u32): (Listener, Segment)
  {
    (Init(localPort, initialSequence).(local := local, peer := peer, peerPort := peerPort,
                                       state := SynSent),
     Segment(local, peer, localPort, peerPort, initialSequence, 0, SYN, 0, 0, 0))
  }

  /** Local close: the listener and the FIN to send. */
  function BeginClose(l: Listener): (Listener, Segment)
    requires IsConnected(l.state)
  {
    (l.(sequence := U32(l.sequence + 1),
        state := if l.state == CloseWait then LastAck else FinWait1),
     Segment(l.local, l.peer, l.port, l.peerPort, l.sequence, l.acknowledgement,
             FIN + ACK, 0, 0, 0))
  }

  /** Section 3.4 of RFC 9293: for two positions at most 2^31 apart in the
      unbounded stream, the wrapping comparison is the true order, except that
      at a distance of exactly 2^31 neither is before the other. */
  lemma BeforeIsTrueOrder(a: int, b: int)
    requires -0x8000_0000 <= a - b <= 0x8000_0000
    ensures Before(U32(a), U32(b)) <==> a < b && b - a < 0x8000_0000
  {
    WordDistance(a, b);
    U32Near(a - b);
    if U32(a) == U32(b) { U32Injective(a, b); }
  }

  lemma WordDistance(a: int, b: int)
    ensures U32(U32(a) - U32(b)) == U32(a - b)
  {
    U32Sub(U32(a), b);
    U32Add(a, -b);
  }

  /** The reading of an acknowledgement word against an unbounded send point:
      the largest position not after `next` that wraps to `word`. */
  function Unwrap(next: int, word: u32): (a: int)
    ensures a <= next && U32(a) == word && next - a < M32
  {
    assert U32(next - U32(next - word)) == word by {
      U32Sub(next, next - word);
      U32Near(word);
    }
    next - U32(next - word)
  }

  /** An acknowledgement that ESTABLISHED and CLOSE-WAIT accept is one that reads
      as a position at most 2^31 behind the send point, and for any position
      `point` less than 2^31 behind the send point "equal or after" is the true order. */
  lemma AcceptedAcknowledgement(next: int, word: u32, point: int)
    requires point <= next && next - point < 0x8000_0000
    requires !After(word, U32(next))
    ensures next - Unwrap(next, word) <= 0x8000_0000
    ensures (word == U32(point) || After(word, U32(point))) <==> point <= Unwrap(next, word)
  {
    var a := Unwrap(next, word);
    WordDistance(next, a);
    U32Near(next - a);
    WordDistance(point, a);
    U32Near(point - a);
    if word == U32(point) { U32Injective(point, a); }
  }
}
