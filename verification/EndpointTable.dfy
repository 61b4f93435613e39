/** Who owns which TCP endpoint: the per-task handles of kernel/awp_network.c over the
    four endpoints of kernel/ipv4.c, with the network free to act in between. */
module EndpointTable {
  import opened Words
  import opened Wrappers
  import TcpListener

  const ENDPOINTS := 4
  const HANDLES := 2

  datatype HandleState = Free | Open | Bound | Listening | Connecting | Closing

  /** `stream` is the index of the endpoint the handle points to. */
  datatype Handle = Handle(stream: Option<Index>, port: u16, state: HandleState)

  type Index = i: nat | i < 4

  datatype Endpoint = Endpoint(
    taken: bool, bound: u16, listening: bool, port: u16, state: TcpListener.State,
    pending: bool, failed: bool, closeRequested: bool, connectPort: u16)

  type Endpoints = s: seq<Endpoint> | |s| == 4 witness seq(4, _ => IDLE)
  type Owner = s: seq<Handle> | |s| == 2 witness [NO_HANDLE, NO_HANDLE]

  const IDLE := Endpoint(false, 0, false, 0, TcpListener.Listen, false, false, false, 0)
  const NO_HANDLE := Handle(None, 0, Free)

  datatype Net = Net(tcp: Endpoints, owners: seq<Owner>)

  datatype Reply = Value(n: nat) | Retry | Invalid | Unavailable | InUse

  predicate IsConnected(e: Endpoint) {
    e.listening && TcpListener.IsConnected(e.state)
  }

  predicate CloseComplete(e: Endpoint) {
    e.listening && e.state == TcpListener.Listen && !e.closeRequested
  }

  // ----- the stack

  /** `arwill_ipv4_tcp_open`: endpoint 0 is never handed out. */
  function FreeEndpoint(tcp: Endpoints, from: nat): Option<Index>
    requires from <= ENDPOINTS
    decreases ENDPOINTS - from
  {
    if from == ENDPOINTS then None
    else if !tcp[from].taken then Some(from)
    else FreeEndpoint(tcp, from + 1)
  }

  predicate Available(tcp: Endpoints, e: Index, port: u16) {
    forall i: Index :: i != e && tcp[i].taken ==> tcp[i].bound != port
  }

  function Rebound(e: Endpoint, port: u16): Endpoint {
    e.(bound := port)
  }

  /** `reset_tcp_stream` followed by `arwill_tcp_stream_listen`. */
  function NowListening(e: Endpoint, port: u16): Endpoint {
    Endpoint(e.taken, port, true, port, TcpListener.Listen, false, false, false, e.connectPort)
  }

  function NowConnecting(e: Endpoint, port: u16): Endpoint {
    Endpoint(e.taken, port, true, port, TcpListener.Listen, true, false, false, port)
  }

  /** `arwill_ipv4_tcp_connect`: its answer and the endpoint after. */
  function TcpConnect(e: Endpoint, port: u16): (Endpoint, int) {
    if !e.taken || port == 0 || e.bound != port then (e, -1)
    else if IsConnected(e) then (e, 1)
    else if e.failed then (e, -1)
    else if e.pending || e.state == TcpListener.SynSent then (e, 0)
    else (NowConnecting(e, port), 0)
  }

  function Released(tcp: Endpoints, e: Index): Endpoints {
    if !tcp[e].taken || e == 0 then tcp else tcp[e := IDLE]
  }

  // ----- handles

  function SetHandle(n: Net, o: nat, h: nat, handle: Handle): Net
    requires o < |n.owners| && h < HANDLES
  {
    n.(owners := n.owners[o := n.owners[o][h := handle]])
  }

  function FreeHandle(owner: Owner): Option<nat> {
    if owner[0].state == Free then Some(0)
    else if owner[1].state == Free then Some(1)
    else None
  }

  function AfterOpen(n: Net, o: nat): (Net, Reply)
    requires o < |n.owners|
  {
    match FreeHandle(n.owners[o])
    case None => (n, Unavailable)
    case Some(h) =>
      match FreeEndpoint(n.tcp, 1)
      case None => (SetHandle(n, o, h, n.owners[o][h].(stream := None)), Unavailable)
      case Some(e) =>
        (SetHandle(n, o, h, n.owners[o][h].(stream := Some(e), state := Open))
         .(tcp := n.tcp[e := IDLE.(taken := true)]), Value(h))
  }

  /** The handle and its endpoint, if handle number `h` has one. */
  predicate Has(n: Net, o: nat, h: nat) {
    o < |n.owners| && h < HANDLES && n.owners[o][h].stream.Some?
  }

  function AfterBind(n: Net, o: nat, h: nat, port: nat): (Net, Reply) {
    if !Has(n, o, h) || port == 0 || port > 0xffff || n.owners[o][h].state != Open then (n, Invalid)
    else
      var e := n.owners[o][h].stream.value;
      if !n.tcp[e].taken || n.tcp[e].bound != 0 || !Available(n.tcp, e, port) then (n, InUse)
      else
        (SetHandle(n, o, h, n.owners[o][h].(port := port, state := Bound))
         .(tcp := n.tcp[e := Rebound(n.tcp[e], port)]), Value(0))
  }

  function AfterListen(n: Net, o: nat, h: nat): (Net, Reply) {
    if !Has(n, o, h) || n.owners[o][h].state != Bound then (n, Invalid)
    else
      var handle := n.owners[o][h];
      var e := handle.stream.value;
      var endpoint := n.tcp[e];
      if !endpoint.taken || handle.port == 0 || (endpoint.bound != 0 && endpoint.bound != handle.port)
         || (endpoint.bound == 0 && !Available(n.tcp, e, handle.port)) then (n, Unavailable)
      else
        (SetHandle(n, o, h, handle.(state := HandleState.Listening))
         .(tcp := n.tcp[e := NowListening(endpoint, handle.port)]), Value(0))
  }

  /** `peer` says whether address and port of the peer are acceptable. */
  function AfterConnect(n: Net, o: nat, h: nat, peer: bool): (Net, Reply) {
    if !Has(n, o, h) || !peer || (n.owners[o][h].state != Bound && n.owners[o][h].state != Connecting)
    then (n, Invalid)
    else
      var handle := n.owners[o][h];
      var e := handle.stream.value;
      if handle.state == Connecting then
        if !n.tcp[e].taken || n.tcp[e].failed then (n, Unavailable)
        else (n, if IsConnected(n.tcp[e]) then Value(0) else Retry)
      else
        var (endpoint, status) := TcpConnect(n.tcp[e], handle.port);
        var n1 := n.(tcp := n.tcp[e := endpoint]);
        if status < 0 then (n1, Unavailable)
        else (SetHandle(n1, o, h, handle.(state := Connecting)), if status > 0 then Value(0) else Retry)
  }

  function Dropped(n: Net, o: nat, h: nat): Net
    requires Has(n, o, h)
  {
    SetHandle(n, o, h, NO_HANDLE).(tcp := Released(n.tcp, n.owners[o][h].stream.value))
  }

  function AfterClose(n: Net, o: nat, h: nat): (Net, Reply) {
    if !Has(n, o, h) || n.owners[o][h].state == Free then (n, Invalid)
    else
      var handle := n.owners[o][h];
      var e := handle.stream.value;
      if handle.state == HandleState.Closing then
        if !CloseComplete(n.tcp[e]) then (n, Retry) else (Dropped(n, o, h), Value(0))
      else if IsConnected(n.tcp[e]) then
        (SetHandle(n, o, h, handle.(state := HandleState.Closing))
         .(tcp := n.tcp[e := n.tcp[e].(closeRequested := true)]), Retry)
      else (Dropped(n, o, h), Value(0))
  }

  /** One round of the loop in `arwill_awp_network_cleanup`. */
  function Cleaned(n: Net, o: nat, h: nat): Net
    requires o < |n.owners| && h < HANDLES
  {
    if n.owners[o][h].stream.Some? then Dropped(n, o, h) else SetHandle(n, o, h, NO_HANDLE)
  }

  function AfterCleanup(n: Net, o: nat): Net
    requires o < |n.owners|
  {
    Cleaned(Cleaned(n, o, 0), o, 1)
  }

  // ----- events

  /** What frames and timers do to a connection; `Resolved` is the ARP answer that
      starts an active open (`start_active_syn`). */
  datatype Event =
    | OpenHandle(o: nat)
    | BindHandle(o: nat, h: nat, port: nat)
    | ListenHandle(o: nat, h: nat)
    | ConnectHandle(o: nat, h: nat, peer: bool)
    | CloseHandle(o: nat, h: nat)
    | Cleanup(o: nat)
    | Resolved(e: Index)
    | Traffic(e: Index, state: TcpListener.State, pending: bool, failed: bool, closeRequested: bool)

  function AfterTraffic(e: Endpoint, state: TcpListener.State, pending: bool, failed: bool, closing: bool): Endpoint {
    e.(state := state, pending := e.pending && pending, failed := failed, closeRequested := closing)
  }

  function Step(n: Net, v: Event): Net {
    match v
    case OpenHandle(o) => if o < |n.owners| then AfterOpen(n, o).0 else n
    case BindHandle(o, h, port) => AfterBind(n, o, h, port).0
    case ListenHandle(o, h) => AfterListen(n, o, h).0
    case ConnectHandle(o, h, peer) => AfterConnect(n, o, h, peer).0
    case CloseHandle(o, h) => AfterClose(n, o, h).0
    case Cleanup(o) => if o < |n.owners| then AfterCleanup(n, o) else n
    case Resolved(e) =>
      if n.tcp[e].taken && n.tcp[e].pending
      then n.(tcp := n.tcp[e := n.tcp[e].(port := n.tcp[e].connectPort, state := TcpListener.SynSent, pending := false)])
      else n
    case Traffic(e, state, pending, failed, closing) =>
      if n.tcp[e].listening
      then n.(tcp := n.tcp[e := AfterTraffic(n.tcp[e], state, pending, failed, closing)])
      else n
  }

  function Run(n: Net, vs: seq<Event>): Net
    decreases |vs|
  {
    if vs == [] then n else Run(Step(n, vs[0]), vs[1..])
  }

  // ----- the invariant

  predicate Holds(n: Net, o: nat, h: nat, e: Index) {
    Has(n, o, h) && n.owners[o][h].stream == Some(e)
  }

  /** A listening endpoint listens on its bound port; a free one has no port. */
  predicate EndpointOk(e: Endpoint) {
    && (e.listening ==> e.taken && e.port == e.bound != 0)
    && (!e.taken ==> e.bound == 0)
    && (e.pending ==> e.listening && e.connectPort == e.bound)
  }

  predicate PortsDistinct(tcp: Endpoints) {
    forall i: Index, j: Index :: i != j && tcp[i].bound == tcp[j].bound ==> tcp[i].bound == 0
  }

  /** A handle's state agrees with the endpoint it points to. */
  predicate HandleOk(tcp: Endpoints, handle: Handle) {
    && (handle.state == Free <==> handle.stream.None?) && (handle.state == Free || handle.state == Open ==> handle.port == 0)
    && (handle.stream.Some? ==>
          var e := handle.stream.value;
          e != 0 && tcp[e].taken && tcp[e].bound == handle.port && (handle.state != Open ==> handle.port != 0))
  }

  /** Each endpoint 1..3 that is allocated has exactly one handle, and endpoint 0 none. */
  ghost predicate Ownership(n: Net) {
    && (forall o, h, o', h', e: Index :: Holds(n, o, h, e) && Holds(n, o', h', e) ==> o == o' && h == h')
    && (forall e: Index :: e != 0 && n.tcp[e].taken ==> exists o, h :: Holds(n, o, h, e))
  }

  ghost predicate NetOk(n: Net) {
    && n.tcp[0].taken && n.tcp[0].bound != 0
    && (forall i: Index :: EndpointOk(n.tcp[i])) && PortsDistinct(n.tcp)
    && (forall o, h :: o < |n.owners| && 0 <= o && 0 <= h < HANDLES ==> HandleOk(n.tcp, n.owners[o][h]))
    && Ownership(n)
  }
}
