/** What the network calls of a program answer, and what a program can rely on. */
module EndpointReplies {
  import opened Words
  import opened Wrappers
  import TcpListener
  import opened EndpointTable
  import opened EndpointOwnership

  /** The handle is given up and its endpoint is free for anybody. */
  predicate GivenUp(n: Net, o: nat, h: nat, e: Index) {
    o < |n.owners| && h < HANDLES && n.owners[o][h] == NO_HANDLE && n.tcp[e] == IDLE
  }

  /** No other handle and no other endpoint is touched. */
  predicate OnlyTouches(n: Net, m: Net, o: nat, h: nat, e: Index) {
    && |m.owners| == |n.owners| && (forall i: Index :: i != e ==> m.tcp[i] == n.tcp[i])
    && forall p, k :: 0 <= p < |n.owners| && 0 <= k < HANDLES && (p != o || k != h) ==> m.owners[p][k] == n.owners[p][k]
  }

  /** Close: a handle whose stream is connected asks for the close and waits; one that waits
      is given up exactly when the stream is closed; any other is given up at once. */
  lemma CloseAnswers(n: Net, o: nat, h: nat)
    requires NetOk(n) && Has(n, o, h)
    ensures var e := n.owners[o][h].stream.value;
            var (m, r) := AfterClose(n, o, h);
            && OnlyTouches(n, m, o, h, e)
            && (n.owners[o][h].state == HandleState.Closing ==>
                  if CloseComplete(n.tcp[e]) then r == Value(0) && GivenUp(m, o, h, e) else r == Retry && m == n)
            && (n.owners[o][h].state != HandleState.Closing ==>
                  if IsConnected(n.tcp[e])
                  then r == Retry && m.owners[o][h] == n.owners[o][h].(state := HandleState.Closing)
                       && m.tcp[e] == n.tcp[e].(closeRequested := true)
                  else r == Value(0) && GivenUp(m, o, h, e))
  {
    hide NetOk;
    EndpointOf(n, o, h);
    assert n.owners[o][h].state != Free by { HandleIsTaken(n, o, h); }
  }

  lemma HandleIsTaken(n: Net, o: nat, h: nat)
    requires NetOk(n) && Has(n, o, h)
    ensures n.owners[o][h].state != Free && HandleOk(n.tcp, n.owners[o][h])
  {
    hide Ownership, PortsDistinct, EndpointOk;
  }

  /** Two closes are enough: whatever the state of the handle, if the stream is closed in
      between, the second close gives the handle and the endpoint up. */
  lemma SecondCloseFrees(n: Net, o: nat, h: nat, m: Net)
    requires NetOk(n) && Has(n, o, h) && NetOk(m) && Has(m, o, h)
    requires AfterClose(n, o, h).1 == Retry && m.owners[o][h] == AfterClose(n, o, h).0.owners[o][h]
    requires CloseComplete(m.tcp[m.owners[o][h].stream.value])
    ensures AfterClose(m, o, h).1 == Value(0)
    ensures GivenUp(AfterClose(m, o, h).0, o, h, m.owners[o][h].stream.value)
  {
    hide NetOk;
    CloseAnswers(n, o, h);
    CloseAnswers(m, o, h);
  }

  /** Connect: zero exactly when the stream is connected, retry while it is under way, and
      unavailable exactly when the attempt failed. */
  lemma ConnectAnswers(n: Net, o: nat, h: nat)
    requires NetOk(n) && Has(n, o, h)
    requires n.owners[o][h].state == Bound || n.owners[o][h].state == Connecting
    ensures var handle := n.owners[o][h];
            var e := handle.stream.value;
            var (m, r) := AfterConnect(n, o, h, true);
            && OnlyTouches(n, m, o, h, e)
            && (r == Value(0) <==> IsConnected(n.tcp[e]) && (handle.state == Connecting ==> !n.tcp[e].failed))
            && (r == Unavailable <==> n.tcp[e].failed && (handle.state == Bound ==> !IsConnected(n.tcp[e])))
            && (r != Value(0) && r != Unavailable ==> r == Retry)
            && (r != Unavailable ==> m.owners[o][h] == handle.(state := Connecting))
            && (r == Retry && handle.state == Bound && !n.tcp[e].pending && n.tcp[e].state != TcpListener.SynSent ==>
                  m.tcp[e].pending && m.tcp[e].listening && m.tcp[e].connectPort == m.tcp[e].bound == handle.port)
            && (handle.state == Connecting ==> m == n)
  {
    hide NetOk;
    HandleIsTaken(n, o, h);
    assert n.tcp[n.owners[o][h].stream.value := n.tcp[n.owners[o][h].stream.value]] == n.tcp;
  }

  /** Calls on a handle in the wrong state, or without a stream, are invalid and change
      nothing. */
  lemma WrongStateIsInvalid(n: Net, o: nat, h: nat, port: nat, peer: bool)
    ensures !Has(n, o, h) || n.owners[o][h].state != Open ==> AfterBind(n, o, h, port) == (n, Invalid)
    ensures !Has(n, o, h) || n.owners[o][h].state != Bound ==> AfterListen(n, o, h) == (n, Invalid)
    ensures !Has(n, o, h) || !peer || (n.owners[o][h].state != Bound && n.owners[o][h].state != Connecting) ==>
              AfterConnect(n, o, h, peer) == (n, Invalid)
    ensures !Has(n, o, h) ==> AfterClose(n, o, h) == (n, Invalid)
  {
  }

  /** Bind and listen, when they answer zero: the port is the endpoint's and the handle's,
      and after listen the endpoint listens on it. */
  lemma BindAndListen(n: Net, o: nat, h: nat, port: nat)
    requires NetOk(n) && Has(n, o, h)
    ensures var e := n.owners[o][h].stream.value;
            && (AfterBind(n, o, h, port).1 == Value(0) ==>
                  var m := AfterBind(n, o, h, port).0;
                  && 0 < port <= 0xffff && m.tcp[e] == n.tcp[e].(bound := port) && OnlyTouches(n, m, o, h, e)
                  && m.owners[o][h] == n.owners[o][h].(port := port, state := Bound))
            && (AfterListen(n, o, h).1 == Value(0) ==>
                  var m := AfterListen(n, o, h).0;
                  && m.tcp[e].listening && m.tcp[e].port == m.tcp[e].bound == n.owners[o][h].port
                  && m.tcp[e].state == TcpListener.Listen && !m.tcp[e].failed && !m.tcp[e].pending
                  && m.owners[o][h] == n.owners[o][h].(state := HandleState.Listening) && OnlyTouches(n, m, o, h, e))
  {
    hide NetOk;
    HandleIsTaken(n, o, h);
  }

  /** Open, when it answers a handle: the handle was free, the endpoint was free and is not
      the console's, and both belong together now. */
  lemma OpenGives(n: Net, o: nat)
    requires NetOk(n) && o < |n.owners| && AfterOpen(n, o).1.Value?
    ensures var h := AfterOpen(n, o).1.n;
            && h < HANDLES && n.owners[o][h].state == Free
            && var m := AfterOpen(n, o).0;
               && Has(m, o, h) && m.owners[o][h].state == Open
               && var e := m.owners[o][h].stream.value;
                  e != 0 && !n.tcp[e].taken && m.tcp[e] == IDLE.(taken := true) && OnlyTouches(n, m, o, h, e)
  {
    hide NetOk;
    FreeEndpointIs(n.tcp, 1);
  }
}
