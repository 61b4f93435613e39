/** Ownership of endpoints over every interleaving of owners and network. */
module EndpointOwnership {
  import opened Words
  import opened Wrappers
  import TcpListener
  import opened EndpointTable

  /** Handle `(o, h)` and endpoint `e` after a step that touched only them. */
  function Changed(n: Net, o: nat, h: nat, handle: Handle, e: Index, endpoint: Endpoint): Net
    requires o < |n.owners| && h < HANDLES
  {
    SetHandle(n, o, h, handle).(tcp := n.tcp[e := endpoint])
  }

  lemma OtherHandles(n: Net, o: nat, h: nat, handle: Handle, e: Index, endpoint: Endpoint, p: nat, k: nat)
    requires o < |n.owners| && h < HANDLES && p < |n.owners| && k < HANDLES
    ensures var m := Changed(n, o, h, handle, e, endpoint);
            m.owners[p][k] == if p == o && k == h then handle else n.owners[p][k]
  {
  }

  lemma PortsStayDistinct(tcp: Endpoints, e: Index, endpoint: Endpoint)
    requires PortsDistinct(tcp) && (endpoint.bound == 0 || endpoint.bound == tcp[e].bound || Available(tcp, e, endpoint.bound))
    requires forall i: Index :: EndpointOk(tcp[i])
    ensures PortsDistinct(tcp[e := endpoint])
  {
  }

  /** A step on one handle and its own endpoint, which stays allocated. */
  lemma UpdateKeeps(n: Net, o: nat, h: nat, handle: Handle, e: Index, endpoint: Endpoint)
    requires NetOk(n) && Holds(n, o, h, e) && handle.stream == Some(e)
    requires endpoint.taken && EndpointOk(endpoint) && HandleOk(n.tcp[e := endpoint], handle)
    requires endpoint.bound == n.tcp[e].bound || Available(n.tcp, e, endpoint.bound)
    ensures NetOk(Changed(n, o, h, handle, e, endpoint))
  {
    hide PortsDistinct, EndpointOk, Available;
    var m := Changed(n, o, h, handle, e, endpoint);
    PortsStayDistinct(n.tcp, e, endpoint);
    assert e != 0 by { assert HandleOk(n.tcp, n.owners[o][h]); }
    forall p, k | 0 <= p < |m.owners| && 0 <= k < HANDLES ensures HandleOk(m.tcp, m.owners[p][k]) {
      OtherHandles(n, o, h, handle, e, endpoint, p, k);
      assert HandleOk(n.tcp, n.owners[p][k]);
      if (p, k) != (o, h) && n.owners[p][k].stream.Some? {
        assert Holds(n, p, k, n.owners[p][k].stream.value);
      }
    }
    forall p: nat, k: nat, f: Index ensures Holds(m, p, k, f) == Holds(n, p, k, f) {
      if p < |n.owners| && k < HANDLES { OtherHandles(n, o, h, handle, e, endpoint, p, k); }
    }
    OwnershipFollows(n, m);
  }

  lemma OwnershipFollows(n: Net, m: Net)
    requires Ownership(n) && forall p: nat, k: nat, f: Index :: Holds(m, p, k, f) == Holds(n, p, k, f)
    requires forall f: Index :: m.tcp[f].taken ==> n.tcp[f].taken
    ensures Ownership(m)
  {
    forall e: Index | e != 0 && m.tcp[e].taken ensures exists p: nat, k: nat :: Holds(m, p, k, e) {
      var p: nat, k: nat :| Holds(n, p, k, e);
      assert Holds(m, p, k, e);
    }
  }

  /** A free handle takes a free endpoint. */
  lemma AcquireKeeps(n: Net, o: nat, h: nat, e: Index)
    requires NetOk(n) && o < |n.owners| && h < HANDLES && n.owners[o][h].state == Free
    requires e != 0 && !n.tcp[e].taken
    ensures NetOk(Changed(n, o, h, n.owners[o][h].(stream := Some(e), state := Open), e, IDLE.(taken := true)))
  {
    hide PortsDistinct, Available;
    var handle := n.owners[o][h].(stream := Some(e), state := Open);
    var endpoint := IDLE.(taken := true);
    var m := Changed(n, o, h, handle, e, endpoint);
    PortsStayDistinct(n.tcp, e, endpoint);
    assert HandleOk(n.tcp, n.owners[o][h]);
    forall p, k | 0 <= p < |m.owners| && 0 <= k < HANDLES ensures HandleOk(m.tcp, m.owners[p][k]) {
      OtherHandles(n, o, h, handle, e, endpoint, p, k);
      assert HandleOk(n.tcp, n.owners[p][k]);
    }
    forall p: nat, k: nat, f: Index ensures Holds(m, p, k, f) == (if (p, k) == (o, h) then f == e else Holds(n, p, k, f)) {
      if p < |n.owners| && k < HANDLES { OtherHandles(n, o, h, handle, e, endpoint, p, k); }
    }
    forall p: nat, k: nat ensures !Holds(n, p, k, e) {
      if p < |n.owners| && k < HANDLES { assert HandleOk(n.tcp, n.owners[p][k]); }
    }
    forall f: Index | f != 0 && m.tcp[f].taken ensures exists p: nat, k: nat :: Holds(m, p, k, f) {
      if f == e {
        assert Holds(m, o, h, e);
      } else {
        var p: nat, k: nat :| Holds(n, p, k, f);
        assert Holds(m, p, k, f);
      }
    }
  }

  /** A handle lets go of its endpoint, which is then free for anyone. */
  lemma DropKeeps(n: Net, o: nat, h: nat)
    requires NetOk(n) && Has(n, o, h)
    ensures NetOk(Dropped(n, o, h)) && !Dropped(n, o, h).tcp[n.owners[o][h].stream.value].taken
    ensures !Has(Dropped(n, o, h), o, h)
  {
    hide PortsDistinct, Available;
    var e := n.owners[o][h].stream.value;
    assert HandleOk(n.tcp, n.owners[o][h]) && Holds(n, o, h, e);
    var m := Changed(n, o, h, NO_HANDLE, e, IDLE);
    assert m == Dropped(n, o, h);
    PortsStayDistinct(n.tcp, e, IDLE);
    forall p: nat, k: nat, f: Index ensures Holds(m, p, k, f) == (Holds(n, p, k, f) && f != e) {
      if p < |n.owners| && k < HANDLES { OtherHandles(n, o, h, NO_HANDLE, e, IDLE, p, k); }
      assert Holds(n, o, h, e) && Holds(n, p, k, e) ==> p == o && k == h;
    }
    forall p, k | 0 <= p < |m.owners| && 0 <= k < HANDLES ensures HandleOk(m.tcp, m.owners[p][k]) {
      OtherHandles(n, o, h, NO_HANDLE, e, IDLE, p, k);
      assert HandleOk(n.tcp, n.owners[p][k]);
      if (p, k) != (o, h) && n.owners[p][k].stream.Some? {
        assert Holds(n, p, k, n.owners[p][k].stream.value);
      }
    }
    forall f: Index | f != 0 && m.tcp[f].taken ensures exists p: nat, k: nat :: Holds(m, p, k, f) {
      var p: nat, k: nat :| Holds(n, p, k, f);
      assert Holds(m, p, k, f);
    }
  }

  /** What the network does to an endpoint concerns no handle. */
  lemma NetworkKeeps(n: Net, e: Index, endpoint: Endpoint)
    requires NetOk(n) && EndpointOk(endpoint) && endpoint.taken == n.tcp[e].taken && endpoint.bound == n.tcp[e].bound
    ensures NetOk(n.(tcp := n.tcp[e := endpoint]))
  {
    hide EndpointOk, Available;
    var m := n.(tcp := n.tcp[e := endpoint]);
    forall p, k | 0 <= p < |m.owners| && 0 <= k < HANDLES ensures HandleOk(m.tcp, m.owners[p][k]) {
      assert HandleOk(n.tcp, n.owners[p][k]);
    }
    forall p: nat, k: nat, f: Index ensures Holds(m, p, k, f) == Holds(n, p, k, f) {
    }
    OwnershipFollows(n, m);
  }

  // ----- each call

  lemma {:induction false} FreeEndpointIs(tcp: Endpoints, from: nat)
    requires from <= ENDPOINTS
    ensures var o := FreeEndpoint(tcp, from);
            && (o.Some? ==> o.value >= from && !tcp[o.value].taken)
            && (o.None? ==> forall i: Index :: i >= from ==> tcp[i].taken)
    decreases ENDPOINTS - from
  {
    if from < ENDPOINTS && tcp[from].taken { FreeEndpointIs(tcp, from + 1); }
  }

  /** Opening succeeds exactly when the owner has a free handle and one of the
      endpoints 1..3 is free. */
  lemma OpenKeeps(n: Net, o: nat)
    requires NetOk(n) && o < |n.owners|
    ensures NetOk(AfterOpen(n, o).0)
    ensures AfterOpen(n, o).1.Value? <==>
            (exists h :: 0 <= h < HANDLES && n.owners[o][h].state == Free) && (exists e: Index :: e != 0 && !n.tcp[e].taken)
  {
    hide NetOk;
    var handle := FreeHandle(n.owners[o]);
    FreeEndpointIs(n.tcp, 1);
    if handle.Some? {
      var h := handle.value;
      var e := FreeEndpoint(n.tcp, 1);
      if e.Some? {
        AcquireKeeps(n, o, h, e.value);
      } else {
        FreeHandlesAreEmpty(n, o, h);
        assert n.owners[o][h := n.owners[o][h].(stream := None)] == n.owners[o];
        assert n.owners[o := n.owners[o]] == n.owners;
      }
    }
  }

  lemma FreeHandlesAreEmpty(n: Net, o: nat, h: nat)
    requires NetOk(n) && o < |n.owners| && h < HANDLES && n.owners[o][h].state == Free
    ensures n.owners[o][h] == NO_HANDLE
  {
    assert HandleOk(n.tcp, n.owners[o][h]);
  }

  lemma EndpointOf(n: Net, o: nat, h: nat)
    requires NetOk(n) && Has(n, o, h)
    ensures var e := n.owners[o][h].stream.value;
            && e != 0 && n.tcp[e].taken && EndpointOk(n.tcp[e]) && HandleOk(n.tcp, n.owners[o][h]) && Holds(n, o, h, e)
            && n.tcp[e].bound == n.owners[o][h].port
  {
    assert HandleOk(n.tcp, n.owners[o][h]);
  }

  /** Binding an open handle fails exactly when another endpoint has the port. */
  lemma BindKeeps(n: Net, o: nat, h: nat, port: nat)
    requires NetOk(n)
    ensures NetOk(AfterBind(n, o, h, port).0)
    ensures Has(n, o, h) && n.owners[o][h].state == Open && 0 < port <= 0xffff ==>
            (AfterBind(n, o, h, port).1 == InUse <==> exists i: Index :: n.tcp[i].bound == port)
  {
    hide NetOk;
    if Has(n, o, h) && n.owners[o][h].state == Open && 0 < port <= 0xffff {
      EndpointOf(n, o, h);
      var e := n.owners[o][h].stream.value;
      FreeHaveNoPort(n);
      if Available(n.tcp, e, port) {
        UpdateKeeps(n, o, h, n.owners[o][h].(port := port, state := Bound), e, Rebound(n.tcp[e], port));
        assert forall i: Index :: n.tcp[i].bound != port;
      }
    }
  }

  lemma FreeHaveNoPort(n: Net)
    requires NetOk(n)
    ensures forall i: Index :: !n.tcp[i].taken ==> n.tcp[i].bound == 0
  {
    assert forall i: Index :: EndpointOk(n.tcp[i]);
  }

  /** Listening on a bound handle cannot fail. */
  lemma ListenKeeps(n: Net, o: nat, h: nat)
    requires NetOk(n)
    ensures NetOk(AfterListen(n, o, h).0)
    ensures AfterListen(n, o, h).1 == if Has(n, o, h) && n.owners[o][h].state == Bound then Value(0) else Invalid
  {
    hide NetOk;
    if Has(n, o, h) && n.owners[o][h].state == Bound {
      EndpointOf(n, o, h);
      var handle := n.owners[o][h];
      var e := handle.stream.value;
      UpdateKeeps(n, o, h, handle.(state := HandleState.Listening), e, NowListening(n.tcp[e], handle.port));
    }
  }

  lemma ConnectKeeps(n: Net, o: nat, h: nat, peer: bool)
    requires NetOk(n)
    ensures NetOk(AfterConnect(n, o, h, peer).0)
  {
    hide NetOk;
    if Has(n, o, h) && peer && n.owners[o][h].state == Bound {
      EndpointOf(n, o, h);
      var handle := n.owners[o][h];
      var e := handle.stream.value;
      var (endpoint, status) := TcpConnect(n.tcp[e], handle.port);
      assert n.tcp[e := n.tcp[e]] == n.tcp;
      UpdateKeeps(n, o, h, handle.(state := Connecting), e, endpoint);
      NetworkKeeps(n, e, endpoint);
    }
  }

  lemma CloseKeeps(n: Net, o: nat, h: nat)
    requires NetOk(n)
    ensures NetOk(AfterClose(n, o, h).0)
  {
    hide NetOk;
    if Has(n, o, h) {
      EndpointOf(n, o, h);
      var handle := n.owners[o][h];
      var e := handle.stream.value;
      DropKeeps(n, o, h);
      if IsConnected(n.tcp[e]) {
        UpdateKeeps(n, o, h, handle.(state := HandleState.Closing), e, n.tcp[e].(closeRequested := true));
      }
    }
  }

  lemma CleanedKeeps(n: Net, o: nat, h: nat)
    requires NetOk(n) && o < |n.owners| && h < HANDLES
    ensures var m := Cleaned(n, o, h);
            && NetOk(m) && |m.owners| == |n.owners| && m.owners[o][h] == NO_HANDLE
            && forall k: nat :: k < HANDLES && k != h ==> m.owners[o][k] == n.owners[o][k]
  {
    if n.owners[o][h].stream.Some? {
      DropKeeps(n, o, h);
    } else {
      assert HandleOk(n.tcp, n.owners[o][h]);
      assert n.owners[o][h := NO_HANDLE] == n.owners[o];
      assert n.owners[o := n.owners[o]] == n.owners;
    }
  }

  /** After cleanup the owner holds nothing: initialising it again changes nothing. */
  lemma CleanupKeeps(n: Net, o: nat)
    requires NetOk(n) && o < |n.owners|
    ensures NetOk(AfterCleanup(n, o)) && AfterCleanup(n, o).owners[o] == [NO_HANDLE, NO_HANDLE]
  {
    hide NetOk, Cleaned;
    CleanedKeeps(n, o, 0);
    CleanedKeeps(Cleaned(n, o, 0), o, 1);
  }

  lemma StepKeeps(n: Net, v: Event)
    requires NetOk(n)
    ensures NetOk(Step(n, v))
  {
    hide NetOk;
    match v
    case OpenHandle(o) => if o < |n.owners| { OpenKeeps(n, o); }
    case BindHandle(o, h, port) => BindKeeps(n, o, h, port);
    case ListenHandle(o, h) => ListenKeeps(n, o, h);
    case ConnectHandle(o, h, peer) => ConnectKeeps(n, o, h, peer);
    case CloseHandle(o, h) => CloseKeeps(n, o, h);
    case Cleanup(o) => if o < |n.owners| { CleanupKeeps(n, o); }
    case Resolved(e) =>
      EndpointIsOk(n, e);
      if n.tcp[e].taken && n.tcp[e].pending {
        NetworkKeeps(n, e, n.tcp[e].(port := n.tcp[e].connectPort, state := TcpListener.SynSent, pending := false));
      }
    case Traffic(e, state, pending, failed, closing) =>
      EndpointIsOk(n, e);
      if n.tcp[e].listening { NetworkKeeps(n, e, AfterTraffic(n.tcp[e], state, pending, failed, closing)); }
  }

  lemma EndpointIsOk(n: Net, e: Index)
    requires NetOk(n)
    ensures EndpointOk(n.tcp[e])
  {
  }

  /** Over all interleavings of owners' calls and network events. */
  lemma {:induction false} RunKeeps(n: Net, vs: seq<Event>)
    requires NetOk(n)
    ensures NetOk(Run(n, vs))
    decreases |vs|
  {
    hide NetOk, Step;
    if vs != [] {
      StepKeeps(n, vs[0]);
      RunKeeps(Step(n, vs[0]), vs[1..]);
    }
  }

  // ----- consequences

  /** `arwill_ipv4_init`: endpoint 0 listens for the remote console. */
  function Initial(consolePort: u16, owners: nat): Net {
    var console := Endpoint(true, consolePort, true, consolePort, TcpListener.Listen, false, false, false, 0);
    Net([console, IDLE, IDLE, IDLE], seq(owners, _ => [NO_HANDLE, NO_HANDLE]))
  }

  lemma InitialOk(consolePort: u16, owners: nat)
    requires consolePort != 0
    ensures NetOk(Initial(consolePort, owners))
  {
  }

  predicate Dispatches(tcp: Endpoints, i: Index, port: u16) {
    tcp[i].taken && tcp[i].listening && tcp[i].port == port
  }

  /** A segment's port is served by at most one endpoint, so the first match of the
      receive path is the only one. */
  lemma DispatchIsUnique(consolePort: u16, owners: nat, vs: seq<Event>, i: Index, j: Index, port: u16)
    requires consolePort != 0
    requires var tcp := Run(Initial(consolePort, owners), vs).tcp; Dispatches(tcp, i, port) && Dispatches(tcp, j, port)
    ensures i == j
  {
    hide Run;
    InitialOk(consolePort, owners);
    RunKeeps(Initial(consolePort, owners), vs);
    var n := Run(Initial(consolePort, owners), vs);
    EndpointIsOk(n, i);
    EndpointIsOk(n, j);
  }

  /** The console endpoint is always there, on its port, and nobody's. */
  lemma {:induction false} ConsoleStays(n: Net, vs: seq<Event>)
    requires NetOk(n)
    ensures Run(n, vs).tcp[0].taken && Run(n, vs).tcp[0].bound == n.tcp[0].bound
    ensures forall o, h :: !Holds(Run(n, vs), o, h, 0)
    decreases |vs|
  {
    hide NetOk, Step, Run, HandleOk;
    RunKeeps(n, vs);
    NobodyHoldsConsole(Run(n, vs));
    ConsoleRun(n, vs);
  }

  lemma NobodyHoldsConsole(n: Net)
    requires NetOk(n)
    ensures n.tcp[0].taken && forall o, h :: !Holds(n, o, h, 0)
  {
    forall o: nat, h: nat ensures !Holds(n, o, h, 0) {
      if o < |n.owners| && h < HANDLES { assert HandleOk(n.tcp, n.owners[o][h]); }
    }
  }

  lemma {:induction false} ConsoleRun(n: Net, vs: seq<Event>)
    requires NetOk(n)
    ensures Run(n, vs).tcp[0].bound == n.tcp[0].bound
    decreases |vs|
  {
    hide NetOk, Step;
    if vs != [] {
      StepKeeps(n, vs[0]);
      ConsoleStep(n, vs[0]);
      ConsoleRun(Step(n, vs[0]), vs[1..]);
    }
  }

  lemma ConsoleStep(n: Net, v: Event)
    requires NetOk(n)
    ensures Step(n, v).tcp[0].bound == n.tcp[0].bound
  {
    hide NetOk, HandleOk, Available, EndpointOk;
    FreeEndpointIs(n.tcp, 1);
    match v
    case BindHandle(o, h, port) => if Has(n, o, h) { EndpointOf(n, o, h); }
    case ListenHandle(o, h) => if Has(n, o, h) { EndpointOf(n, o, h); }
    case ConnectHandle(o, h, peer) => if Has(n, o, h) { EndpointOf(n, o, h); }
    case CloseHandle(o, h) => if Has(n, o, h) { EndpointOf(n, o, h); }
    case _ =>
  }

  /** Nothing leaks: when no handle holds an endpoint, all of 1..3 are free. */
  lemma NothingLeaks(n: Net)
    requires NetOk(n) && forall o, h :: !Has(n, o, h)
    ensures forall e: Index :: e != 0 ==> !n.tcp[e].taken
  {
    forall e: Index | e != 0 ensures !n.tcp[e].taken {
      assert n.tcp[e].taken ==> exists o, h :: Holds(n, o, h, e);
    }
  }
}
