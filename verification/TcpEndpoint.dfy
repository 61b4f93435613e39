/** The endpoint of kernel/ipv4.c as an object: rings with a head and a count,
    fields that the methods update in place.  Every method is proved against the
    function of the same name in `TcpConnection` or `TcpListener`. */
module TcpEndpoint {
  import opened Words
  import opened Wrappers
  import opened Rings
  import opened TcpListener
  import opened TcpConnection
  import opened TcpSending

  const BLANK: Segment :=
    Segment([0, 0, 0, 0], [0, 0, 0, 0], 0, 0, 0, 0, 0, 0, 0, 0)

  /** `arwill_tcp_listener_receive`: the checks in the order in which the kernel
      makes them, on a listener that is updated field by field. */
  method ReceiveSegment(l0: Listener, s: Segment) returns (ok: bool, l: Listener, reply: Segment)
    ensures Received(ok, l, reply) == Receive(l0, s)
  {
    hide U32, HasFin, HasSyn, HasRst, HasAck, After;
    l := l0;
    reply := EmptyReply(s);
    if !Matches(l, s) {
      return false, l, reply;
    }
    l := l.(peerWindow := s.window);
    if HasRst(s.flags) {
      if l.state != Listen {
        l := Init(l.port, l.sequence);
        return true, l, reply;
      }
      return false, l, reply;
    }
    if l.state == SynSent && HasSyn(s.flags) && HasAck(s.flags) &&
       s.acknowledgement == U32(l.sequence + 1) {
      l := l.(sequence := U32(l.sequence + 1), acknowledgement := U32(s.sequence + 1));
      if s.mss != 0 {
        l := l.(peerMss := s.mss);
      }
      reply := ReplyWith(reply, l, ACK);
      l := l.(state := Established);
      return true, l, reply;
    }
    if l.state == Listen && HasSyn(s.flags) {
      l := l.(local := s.destination, peer := s.source, peerPort := s.sourcePort);
      if s.mss != 0 {
        l := l.(peerMss := s.mss);
      }
      l := l.(acknowledgement := U32(s.sequence + 1));
      reply := ReplyWith(reply, l, SYN + ACK);
      l := l.(state := SynReceived);
      return true, l, reply;
    }
    if l.state == SynReceived && s.sourcePort == l.peerPort && HasSyn(s.flags) &&
       U32(s.sequence + 1) == l.acknowledgement {
      return true, l, ReplyWith(reply, l, SYN + ACK);
    }
    if l.state == SynReceived && s.sourcePort == l.peerPort && HasAck(s.flags) &&
       s.acknowledgement == U32(l.sequence + 1) {
      l := l.(sequence := U32(l.sequence + 1), state := Established);
      return true, l, reply;
    }
    if l.state == Established && s.sourcePort == l.peerPort && HasAck(s.flags) &&
       !After(s.acknowledgement, l.sequence) && s.sequence == l.acknowledgement {
      var consumed := s.length;
      if HasFin(s.flags) {
        consumed := consumed + 1;
      }
      if consumed > 0xffff_ffff {
        return false, l, reply;
      }
      assert consumed == 0 ==> U32(l.acknowledgement + consumed) == l.acknowledgement by {
        U32Near(l.acknowledgement);
      }
      if consumed != 0 {
        l := l.(acknowledgement := U32(l.acknowledgement + consumed));
        reply := ReplyWith(reply, l, ACK);
      }
      if HasFin(s.flags) {
        l := l.(state := CloseWait);
      }
      return true, l, reply;
    }
    if l.state == Established && s.sourcePort == l.peerPort && HasAck(s.flags) &&
       !After(s.acknowledgement, l.sequence) && s.sequence != l.acknowledgement {
      return true, l, ReplyWith(reply, l, ACK);
    }
    if l.state == CloseWait && HasAck(s.flags) && !After(s.acknowledgement, l.sequence) {
      return true, l, reply;
    }
    if l.state == LastAck && HasAck(s.flags) && Covers(l, s.acknowledgement) {
      l := Init(l.port, l.sequence);
      return true, l, reply;
    }
    if l.state == FinWait1 {
      var acknowledged := HasAck(s.flags) && Covers(l, s.acknowledgement);
      var finished := HasFin(s.flags) && s.sequence == l.acknowledgement;
      if finished {
        l := l.(acknowledgement := U32(l.acknowledgement + 1));
        reply := ReplyWith(reply, l, ACK);
        l := l.(state := if acknowledged then TimeWait else Closing);
        return true, l, reply;
      }
      if acknowledged {
        l := l.(state := FinWait2);
        return true, l, reply;
      }
    }
    if l.state == FinWait2 && HasFin(s.flags) && s.sequence == l.acknowledgement {
      l := l.(acknowledgement := U32(l.acknowledgement + 1));
      reply := ReplyWith(reply, l, ACK);
      l := l.(state := TimeWait);
      return true, l, reply;
    }
    if l.state == Closing && HasAck(s.flags) && Covers(l, s.acknowledgement) {
      l := l.(state := TimeWait);
      return true, l, reply;
    }
    if l.state == TimeWait && HasFin(s.flags) {
      return true, l, ReplyWith(reply, l, ACK);
    }
    return false, l, reply;
  }

  lemma ChunkFits(c: Connection)
    ensures ChunkLength(c) <= |c.tx| && ChunkLength(c) <= PENDING_PAYLOAD
    ensures ChunkLength(c) <= c.l.peerWindow
  {
  }

  // The four effects of a delivered segment, in the order in which the kernel has them.

  function Counted(c: Connection, before: Listener): Connection {
    c.(connections := if (before.state == SynReceived || before.state == SynSent) && c.l.state == Established
                      then U32(c.connections + 1) else c.connections)
  }

  function Queued(c: Connection, before: Listener, payload: seq<byte>): Connection {
    c.(rx := if IsConnected(c.l.state) && payload != [] && c.l.acknowledgement != before.acknowledgement
             then Enqueue(c.rx, payload) else c.rx)
  }

  function Closed(c: Connection, before: Listener, flags: byte): Connection {
    c.(peerClosed := c.peerClosed || (HasFin(flags) && c.l.acknowledgement != before.acknowledgement))
  }

  function Waiting(c: Connection, before: Listener, now: u64): Connection {
    c.(timeWaitStarted := if c.l.state == TimeWait && before.state != TimeWait then now else c.timeWaitStarted)
  }

  lemma DeliverInSteps(c: Connection, before: Listener, f: Frame, now: u64)
    ensures Deliver(c, before, f, now) ==
            Waiting(Closed(Queued(Counted(c, before), before, f.payload), before, f.segment.flags), before, now)
  {
    hide Enqueue, U32, HasFin;
  }

  lemma ResetInSteps(c: Connection)
    ensures ResetStream(c) ==
            c.(l := Init(c.l.port, U32(0x4152_0000 + c.connections)), generation := c.generation + 1)
             .(rx := [], tx := [], pending := [])
             .(peerClosed := false, closeRequested := false, windowChanged := false)
             .(windowUpdate := false, closeStarted := 0, timeWaitStarted := 0)
  {
    hide U32;
  }

  class Endpoint {
    const dev: Device
    const receive: Ring<byte>
    const transmit: Ring<byte>
    const ring: Ring<Pending>
    var l: Listener
    var peerClosed: bool
    var closeRequested: bool
    var windowChanged: bool
    var connections: u32
    var closeStarted: u64
    var timeWaitStarted: u64
    var rtt: RoundTrip
    var lastWindow: u16
    var windowUpdate: bool
    var offers: nat
    ghost var generation: nat
    ghost var wire: seq<Frame>

    ghost const Repr: set<object> :=
      {this, receive, receive.data, transmit, transmit.data, ring, ring.data}

    ghost predicate Valid()
      reads Repr
    {
      && receive.Valid() && transmit.Valid() && ring.Valid()
      && receive != transmit && receive.data != transmit.data
      && receive.data.Length == RECEIVE_CAPACITY && transmit.data.Length == TRANSMIT_CAPACITY
      && ring.data.Length == PENDING_CAPACITY
    }

    ghost function View(): Connection
      requires Valid()
      reads Repr
    {
      Connection(l, receive.contents, transmit.contents,
                 peerClosed, closeRequested, windowChanged, connections, ring.contents,
                 closeStarted, timeWaitStarted, rtt, lastWindow, windowUpdate,
                 generation, wire, offers)
    }

    /** An endpoint that listens on `port`. */
    constructor (port: u16, device: Device)
      ensures Valid() && fresh(Repr) && dev == device
      ensures View() == Connection(Init(port, 0x4152_0000), [], [], false, false, false, 0, [],
                                   0, 0, RoundTrip(0, 0, RTO_INITIAL), RECEIVE_CAPACITY, false, 0, [], 0)
    {
      dev := device;
      receive := new Ring<byte>(RECEIVE_CAPACITY, 0);
      transmit := new Ring<byte>(TRANSMIT_CAPACITY, 0);
      ring := new Ring<Pending>(PENDING_CAPACITY, Pending(BLANK, [], 0, 0, RTO_INITIAL, 0));
      l := Init(port, 0x4152_0000);
      peerClosed, closeRequested, windowChanged, connections := false, false, false, 0;
      closeStarted, timeWaitStarted := 0, 0;
      rtt := RoundTrip(0, 0, RTO_INITIAL);
      lastWindow, windowUpdate, offers := RECEIVE_CAPACITY, false, 0;
      generation, wire := 0, [];
    }

    // ----- the stream interface

    method Read(data: array<byte>, capacity: nat) returns (n: nat)
      requires Valid() && capacity <= data.Length && data !in Repr
      modifies receive`head, receive`count, receive`contents, this`windowChanged, data
      ensures Valid() && n == ReadCount(old(View()), capacity)
      ensures View() == TcpConnection.Read(old(View()), capacity)
      ensures forall i :: 0 <= i < data.Length ==>
                data[i] == if i < n then old(receive.contents)[i] else old(data[i])
    {
      n := Drain(data, capacity);
      if n != 0 {
        windowChanged := true;
      }
    }

    /** The loop of `arwill_tcp_stream_read`. */
    method Drain(data: array<byte>, capacity: nat) returns (n: nat)
      requires Valid() && capacity <= data.Length && data !in Repr
      modifies receive`head, receive`count, receive`contents, data
      ensures Valid() && n == Min(capacity, |old(receive.contents)|)
      ensures receive.contents == old(receive.contents)[n..]
      ensures forall i :: 0 <= i < data.Length ==>
                data[i] == if i < n then old(receive.contents)[i] else old(data[i])
    {
      n := 0;
      ghost var rx := receive.contents;
      while n < capacity && receive.count != 0
        invariant Valid() && n <= capacity && n <= |rx| && receive.contents == rx[n..]
        invariant forall i :: 0 <= i < n ==> data[i] == rx[i]
        invariant forall i :: n <= i < data.Length ==> data[i] == old(data[i])
        decreases |rx| - n
      {
        var x := receive.Get(0);
        receive.Drop(1);
        data[n] := x;
        n := n + 1;
      }
    }

    method Write(data: seq<byte>) returns (n: nat)
      requires Valid()
      modifies transmit`count, transmit`contents, transmit.data
      ensures Valid() && View() == TcpConnection.Write(old(View()), data)
      ensures n == if CanWrite(old(View()), data) then |data| else 0
    {
      if !IsConnected(l.state) || |data| > TRANSMIT_CAPACITY - transmit.count {
        return 0;
      }
      n := 0;
      while n < |data|
        invariant Valid() && n <= |data| && transmit.contents == old(transmit.contents) + data[..n]
      {
        transmit.Push(data[n]);
        n := n + 1;
      }
    }

    method Close()
      requires Valid()
      modifies this`closeRequested
      ensures Valid() && View() == TcpConnection.Close(old(View()))
    {
      if IsConnected(l.state) {
        closeRequested := true;
      }
    }

    // ----- sending

    method Send(s: Segment, payload: seq<byte>) returns (ok: bool)
      requires Valid()
      modifies this`offers, this`wire, this`lastWindow
      ensures Valid() && (View(), ok) == TcpConnection.Send(old(View()), s, payload, dev)
    {
      hide HasSyn, OnWire;
      var header := if HasSyn(s.flags) then 24 else 20;
      if s.flags == 0 || |payload| > FRAME_CAPACITY - 14 - 20 - header {
        return true;
      }
      var window: u16 := RECEIVE_CAPACITY - receive.count;
      ok := dev(offers);
      ghost var frame := OnWire(View(), s, payload);
      offers := offers + 1;
      if !ok {
        return;
      }
      wire := wire + [frame];
      if s.sourcePort == l.port && s.destinationPort == l.peerPort {
        lastWindow := window;
      }
    }

    method ClearRings()
      requires Valid()
      modifies receive, transmit, ring
      ensures Valid() && View() == old(View()).(rx := [], tx := [], pending := [])
    {
      receive.Clear();
      transmit.Clear();
      ring.Clear();
    }

    method ClearFlags()
      requires Valid()
      modifies this`peerClosed, this`closeRequested, this`windowChanged
      ensures Valid()
      ensures View() == old(View()).(peerClosed := false, closeRequested := false, windowChanged := false)
    {
      peerClosed := false;
      closeRequested := false;
      windowChanged := false;
    }

    method ClearTimers()
      requires Valid()
      modifies this`windowUpdate, this`closeStarted, this`timeWaitStarted
      ensures Valid()
      ensures View() == old(View()).(windowUpdate := false, closeStarted := 0, timeWaitStarted := 0)
    {
      closeStarted := 0;
      timeWaitStarted := 0;
      windowUpdate := false;
    }

    method Relisten()
      requires Valid()
      modifies this`l, this`generation
      ensures Valid()
      ensures View() == old(View()).(l := Init(old(l).port, U32(0x4152_0000 + old(connections))),
                                     generation := old(generation) + 1)
    {
      hide U32;
      l := Init(l.port, U32(0x4152_0000 + connections));
      generation := generation + 1;
    }

    method ResetStream()
      requires Valid()
      modifies this, receive, transmit, ring
      ensures Valid() && View() == TcpConnection.ResetStream(old(View()))
    {
      hide U32, TcpConnection.ResetStream;
      ResetInSteps(View());
      Relisten();
      ClearRings();
      ClearFlags();
      ClearTimers();
    }

    method Remember(now: u64, s: Segment, payload: seq<byte>) returns (ok: bool)
      requires Valid()
      modifies ring`count, ring`contents, ring.data
      ensures Valid() && (View(), ok) == TcpConnection.Remember(old(View()), now, s, payload)
    {
      hide U32, HasSyn, HasFin;
      if |payload| > PENDING_PAYLOAD || ring.count >= PENDING_CAPACITY {
        return false;
      }
      var expected: u32 := U32(s.sequence + |payload|);
      if HasSyn(s.flags) || HasFin(s.flags) {
        U32Add(s.sequence + |payload|, 1);
        expected := U32(expected + 1);
      }
      ring.Push(Pending(s, payload, expected, now, rtt.timeout, 0));
      return true;
    }

    // ----- acknowledgements

    method UpdateTimeout(rawSample: u64)
      modifies this`rtt
      ensures rtt == UpdateRoundTrip(old(rtt), rawSample)
    {
      hide U64;
      var sample := rawSample;
      if sample == 0 {
        sample := 1;
      }
      if rtt.smoothed == 0 {
        rtt := rtt.(smoothed := sample, variance := sample / 2);
      } else {
        var difference := if rtt.smoothed > sample then rtt.smoothed - sample else sample - rtt.smoothed;
        rtt := rtt.(variance := U64(3 * rtt.variance + difference) / 4);
        rtt := rtt.(smoothed := U64(7 * rtt.smoothed + sample) / 8);
      }
      var spread := U64(4 * rtt.variance);
      if spread < 10 {
        spread := 10;
      }
      var timeout := U64(rtt.smoothed + spread);
      if timeout < RTO_MINIMUM {
        timeout := RTO_MINIMUM;
      }
      if timeout > RTO_MAXIMUM {
        timeout := RTO_MAXIMUM;
      }
      rtt := rtt.(timeout := timeout);
    }

    method Acknowledge(now: u64, s: Segment)
      requires Valid()
      modifies this`rtt, ring`head, ring`count, ring`contents
      ensures Valid() && View() == AcknowledgeFor(old(View()), s, now)
    {
      if !HasAck(s.flags) {
        return;
      }
      hide TcpConnection.Acknowledge, UpdateRoundTrip, Releases, Released;
      AcknowledgeTurn(View(), now, s.acknowledgement);
      while ring.count != 0
        invariant Valid()
        invariant TcpConnection.Acknowledge(View(), now, s.acknowledgement) ==
                  TcpConnection.Acknowledge(old(View()), now, s.acknowledgement)
        decreases ring.count
      {
        var p := ring.Get(0);
        AcknowledgeTurn(View(), now, s.acknowledgement);
        if !Releases(s.acknowledgement, p.expected) {
          break;
        }
        ReleaseOldest(now);
      }
      AcknowledgeTurn(View(), now, s.acknowledgement);
    }

    /** The oldest pending segment is acknowledged. */
    method ReleaseOldest(now: u64)
      requires Valid() && ring.count != 0
      modifies this`rtt, ring`head, ring`count, ring`contents
      ensures Valid() && ring.count == old(ring.count) - 1 && View() == Released(old(View()), now)
    {
      hide UpdateRoundTrip;
      var p := ring.Get(0);
      if p.retransmissions == 0 && now >= p.sentAt {
        UpdateTimeout(now - p.sentAt);
      }
      ring.Drop(1);
    }

    // ----- maintenance

    method MaintainPending(now: u64)
      requires Valid()
      modifies Repr
      ensures Valid() && View() == TcpConnection.MaintainPending(old(View()), now, dev)
    {
      hide TcpConnection.Send, Resent, Expired, TcpConnection.ResetStream;
      var offset := 0;
      while offset < ring.count
        invariant Valid() && offset <= ring.count
        invariant MaintainPendingFrom(View(), offset, now, dev) ==
                  MaintainPendingFrom(old(View()), 0, now, dev)
      {
        var p := ring.Get(offset);
        if Expired(p, now) {
          if p.retransmissions >= MAX_RETRANSMISSIONS {
            ResetStream();
            return;
          }
          ghost var before := View();
          var ok := Send(p.segment, p.payload);
          ring.Set(offset, Resent(p, now));
        }
        offset := offset + 1;
      }
    }

    /** Runs the close timer of the states after a FIN was sent. */
    method ExpireClose(now: u64)
      requires Valid() && IsClosing(l.state)
      modifies this, receive, transmit, ring
      ensures Valid() && View() == TcpConnection.MaintainClose(old(View()), now)
    {
      hide U64, TcpConnection.ResetStream;
      if closeStarted == 0 {
        closeStarted := now;
      }
      if U64(now - closeStarted) >= CLOSE_TIMEOUT_MS {
        ResetStream();
      }
    }

    /** Runs the timer of TIME-WAIT. */
    method ExpireTimeWait(now: u64)
      requires Valid() && l.state == TimeWait
      modifies this, receive, transmit, ring
      ensures Valid() && View() == TcpConnection.MaintainClose(old(View()), now)
    {
      hide U64, TcpConnection.ResetStream;
      if timeWaitStarted == 0 {
        timeWaitStarted := now;
      }
      if U64(now - timeWaitStarted) >= TIME_WAIT_MS {
        ResetStream();
      }
    }

    method MaintainClose(now: u64)
      requires Valid()
      modifies this, receive, transmit, ring
      ensures Valid() && View() == TcpConnection.MaintainClose(old(View()), now)
    {
      hide U64, TcpConnection.ResetStream;
      if l.state != Listen && l.state != SynSent && l.state != SynReceived &&
         l.state != Established && l.state != CloseWait && l.state != TimeWait {
        ExpireClose(now);
        return;
      }
      if l.state == TimeWait {
        ExpireTimeWait(now);
      }
    }

    method SendCurrentAck() returns (ok: bool)
      requires Valid()
      modifies this`offers, this`wire, this`lastWindow
      ensures Valid() && (View(), ok) == TcpConnection.Send(old(View()), CurrentAck(old(View())), [], dev)
    {
      ok := Send(Segment(l.local, l.peer, l.port, l.peerPort, l.sequence, l.acknowledgement, ACK,
                         RECEIVE_CAPACITY - receive.count, 0, 0), []);
    }

    /** A reader made room: was the window shut? */
    method NoteWindow()
      requires Valid()
      modifies this`windowUpdate, this`windowChanged
      ensures Valid()
      ensures View() == if old(windowChanged)
                        then old(View()).(windowUpdate := old(windowUpdate) || (lastWindow == 0 && Window(old(View())) != 0),
                                          windowChanged := false)
                        else old(View())
    {
      if windowChanged {
        if lastWindow == 0 && RECEIVE_CAPACITY - receive.count != 0 {
          windowUpdate := true;
        }
        windowChanged := false;
      }
    }

    method MaintainWindow()
      requires Valid()
      modifies this`offers, this`wire, this`lastWindow, this`windowUpdate, this`windowChanged
      ensures Valid() && View() == TcpConnection.MaintainWindow(old(View()), dev)
    {
      hide TcpConnection.Send;
      NoteWindow();
      if !windowUpdate || !IsConnected(l.state) {
        return;
      }
      var ok := SendCurrentAck();
      if ok {
        windowUpdate := false;
      }
    }

    /** The next `length` bytes of the transmit ring, copied out. */
    method PeekTransmit(length: nat) returns (payload: seq<byte>)
      requires Valid() && length <= transmit.count
      ensures payload == transmit.contents[..length]
    {
      payload := [];
      var index := 0;
      while index < length
        invariant index <= length && payload == transmit.contents[..index]
      {
        var x := transmit.Get(index);
        payload := payload + [x];
        index := index + 1;
      }
    }

    /** The length of the next segment. */
    method NextLength() returns (length: nat)
      requires Valid()
      ensures length == ChunkLength(View())
    {
      length := transmit.count;
      if length > PENDING_PAYLOAD {
        length := PENDING_PAYLOAD;
      }
      if length > l.peerMss {
        length := l.peerMss;
      }
      if length > l.peerWindow {
        length := l.peerWindow;
      }
    }

    /** Offers a data segment and, if the device takes it, moves on past it. */
    method FlushSegment(now: u64, s: Segment, payload: seq<byte>) returns (ok: bool)
      requires Valid() && |payload| <= transmit.count && |payload| <= l.peerWindow
      requires ring.count < PENDING_CAPACITY && |payload| <= PENDING_PAYLOAD
      modifies this`l, this`offers, this`wire, this`lastWindow,
               transmit`head, transmit`count, transmit`contents,
               ring`count, ring`contents, ring.data
      ensures Valid()
      ensures var (c1, sent) := TcpConnection.Send(old(View()), s, payload, dev);
              && ok == sent
              && c1.tx == old(View()).tx && c1.l == old(View()).l && |c1.pending| < PENDING_CAPACITY
              && View() == if sent
                           then Advance(c1.(pending := c1.pending + [PendingFor(c1, now, s, payload)]), |payload|)
                           else c1
    {
      hide U32, PendingFor, IsSendable, OnWire;
      ok := Send(s, payload);
      if !ok {
        return;
      }
      ok := Remember(now, s, payload);
      l := l.(sequence := U32(l.sequence + |payload|), peerWindow := l.peerWindow - |payload|);
      transmit.Drop(|payload|);
    }

    /** One turn of the transmit loop; `more` tells whether there is another. */
    method FlushNext(now: u64) returns (more: bool, ok: bool)
      requires Valid()
      modifies this`l, this`offers, this`wire, this`lastWindow,
               transmit`head, transmit`count, transmit`contents,
               ring`count, ring`contents, ring.data
      ensures Valid()
      ensures more ==> FlushLoop(View(), now, dev) == FlushLoop(old(View()), now, dev) &&
                       transmit.count < old(transmit.count)
      ensures !more ==> View() == FlushLoop(old(View()), now, dev)
    {
      hide FlushLoop, TcpConnection.Send, ChunkLength, PendingFor;
      FlushTurn(View(), now, dev);
      if ring.count >= PENDING_CAPACITY || transmit.count == 0 || l.peerWindow == 0 {
        return false, true;
      }
      var length := NextLength();
      if length == 0 {
        return false, true;
      }
      assert length <= transmit.count && length <= PENDING_PAYLOAD && length <= l.peerWindow by {
        ChunkFits(View());
      }
      var payload := PeekTransmit(length);
      var s := Segment(l.local, l.peer, l.port, l.peerPort, l.sequence, l.acknowledgement,
                       ACK + PSH, RECEIVE_CAPACITY - receive.count, 0, length);
      ok := FlushSegment(now, s, payload);
      more := ok;
    }

    method Flush(now: u64) returns (ok: bool)
      requires Valid()
      modifies this`l, this`offers, this`wire, this`lastWindow,
               transmit`head, transmit`count, transmit`contents,
               ring`count, ring`contents, ring.data
      ensures Valid() && View() == TcpConnection.Flush(old(View()), now, dev)
    {
      if !IsConnected(l.state) {
        return true;
      }
      hide FlushLoop;
      ok := true;
      var more := true;
      while more
        invariant Valid()
        invariant more ==> FlushLoop(View(), now, dev) == FlushLoop(old(View()), now, dev)
        invariant !more ==> View() == FlushLoop(old(View()), now, dev)
        decreases more, transmit.count
      {
        more, ok := FlushNext(now);
      }
    }

    method MaintainStreamClose(now: u64)
      requires Valid()
      modifies Repr
      ensures Valid() && View() == TcpConnection.MaintainStreamClose(old(View()), now, dev)
    {
      hide U64;
      if closeRequested {
        if closeStarted == 0 {
          closeStarted := now;
        } else if U64(now - closeStarted) >= CLOSE_TIMEOUT_MS {
          ResetStream();
          return;
        }
      }
      if !closeRequested || !IsConnected(l.state) || transmit.count != 0 || ring.count != 0 {
        return;
      }
      SendFin(now);
    }

    method SendFin(now: u64)
      requires Valid() && IsConnected(l.state) && ring.count == 0
      modifies Repr
      ensures Valid()
      ensures var (k, fin) := BeginClose(old(l));
              var (c2, ok) := TcpConnection.Send(old(View()).(l := k, closeRequested := false), fin, [], dev);
              View() == if ok then TcpConnection.Remember(c2, now, fin, []).0
                        else TcpConnection.ResetStream(c2)
    {
      hide TcpConnection.Send, TcpConnection.Remember, TcpConnection.ResetStream, BeginClose;
      var (k, fin) := BeginClose(l);
      l := k;
      closeRequested := false;
      var ok := Send(fin, []);
      if !ok {
        ResetStream();
        return;
      }
      ok := Remember(now, fin, []);
    }

    method Maintain(now: u64)
      requires Valid()
      modifies Repr
      ensures Valid() && View() == TcpConnection.Maintain(old(View()), now, dev)
    {
      hide TcpConnection.MaintainPending, TcpConnection.MaintainClose, TcpConnection.MaintainWindow,
           TcpConnection.Flush, TcpConnection.MaintainStreamClose;
      MaintainPending(now);
      MaintainClose(now);
      MaintainWindow();
      var ok := Flush(now);
      MaintainStreamClose(now);
    }

    // ----- arrivals

    /** Bytes that find the ring full are dropped. */
    method Enqueue(payload: seq<byte>)
      requires Valid()
      modifies receive`count, receive`contents, receive.data
      ensures Valid() && View() == old(View()).(rx := TcpConnection.Enqueue(old(View()).rx, payload))
    {
      var index := 0;
      while index < |payload|
        invariant Valid() && index <= |payload|
        invariant receive.contents == TcpConnection.Enqueue(old(receive.contents), payload[..index])
      {
        if receive.count < RECEIVE_CAPACITY {
          receive.Push(payload[index]);
        }
        index := index + 1;
      }
      assert payload[..index] == payload;
    }

    method QueuePayload(before: Listener, payload: seq<byte>)
      requires Valid()
      modifies receive`count, receive`contents, receive.data
      ensures Valid() && View() == Queued(old(View()), before, payload)
    {
      hide TcpConnection.Enqueue;
      if (l.state == Established || l.state == CloseWait) && payload != [] &&
         l.acknowledgement != before.acknowledgement {
        Enqueue(payload);
      }
    }

    method CountConnection(before: Listener)
      requires Valid()
      modifies this`connections
      ensures Valid()
      ensures View() == Counted(old(View()), before)
    {
      hide U32;
      if (before.state == SynReceived || before.state == SynSent) && l.state == Established {
        connections := U32(connections + 1);
      }
    }

    method NotePeerClosed(before: Listener, flags: byte)
      requires Valid()
      modifies this`peerClosed
      ensures Valid()
      ensures View() == Closed(old(View()), before, flags)
    {
      hide HasFin;
      if HasFin(flags) && l.acknowledgement != before.acknowledgement {
        peerClosed := true;
      }
    }

    method StartTimeWait(before: Listener, now: u64)
      requires Valid()
      modifies this`timeWaitStarted
      ensures Valid()
      ensures View() == Waiting(old(View()), before, now)
    {
      if l.state == TimeWait && before.state != TimeWait {
        timeWaitStarted := now;
      }
    }

    method Deliver(before: Listener, f: Frame, now: u64)
      requires Valid()
      modifies this`connections, this`peerClosed, this`timeWaitStarted,
               receive`count, receive`contents, receive.data
      ensures Valid() && View() == TcpConnection.Deliver(old(View()), before, f, now)
    {
      hide TcpConnection.Deliver, Counted, Queued, Closed, Waiting;
      DeliverInSteps(View(), before, f, now);
      CountConnection(before);
      QueuePayload(before, f.payload);
      NotePeerClosed(before, f.segment.flags);
      StartTimeWait(before, now);
    }

    method Respond(reply: Segment, now: u64)
      requires Valid()
      modifies Repr
      ensures Valid() && View() == TcpConnection.Respond(old(View()), reply, now, dev)
    {
      hide TcpConnection.Send, TcpConnection.Flush, PendingFor;
      var ok := Send(reply, []);
      if !ok {
        return;
      }
      if reply.flags == SYN + ACK && ring.count == 0 {
        ok := Remember(now, reply, []);
      }
      ok := Flush(now);
    }

    method Accept(f: Frame, now: u64)
      requires Valid() && Matches(l, f.segment)
      modifies Repr
      ensures Valid() && View() == TcpConnection.Accept(old(View()), f, now, dev)
    {
      hide Receive, AcknowledgeFor, TcpConnection.Deliver, TcpConnection.Respond, TcpConnection.ResetStream;
      var before := l;
      var ok, k, reply := ReceiveSegment(l, f.segment);
      l := k;
      if !ok {
        return;
      }
      Acknowledge(now, f.segment);
      if before.state != Listen && l.state == Listen {
        ResetStream();
        return;
      }
      Deliver(before, f, now);
      Respond(reply, now);
    }

    /** A decoded frame for this endpoint's port. */
    method Arrive(f: Frame, now: u64)
      requires Valid()
      modifies Repr
      ensures Valid() && View() == TcpConnection.Arrive(old(View()), f, now, dev)
    {
      hide TcpConnection.Accept, TcpConnection.Send, TcpConnection.ResetStream, HasSyn;
      if (IsClosing(l.state) || l.state == TimeWait || closeRequested) && HasSyn(f.segment.flags) &&
         !Matches(l, f.segment) {
        ResetStream();
      }
      if !Matches(l, f.segment) {
        return;
      }
      if |f.payload| > RECEIVE_CAPACITY - receive.count && f.segment.sequence == l.acknowledgement {
        var ok := SendCurrentAck();
        return;
      }
      Accept(f, now);
    }

    /** One poll of `arwill_ipv4_poll_tcp`, as far as this endpoint is concerned. */
    method Poll(now: u64, late: u64, arrival: Option<Frame>)
      requires Valid()
      modifies Repr
      ensures Valid() && View() == TcpConnection.Poll(old(View()), now, late, arrival, dev)
    {
      hide TcpConnection.Maintain, TcpConnection.Arrive;
      Maintain(now);
      if arrival.Some? {
        Arrive(arrival.value, late);
      }
    }
  }
}
