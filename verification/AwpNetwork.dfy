/** The endpoint table of kernel/ipv4.c and the owners' handles of kernel/awp_network.c as
    kernel state: two arrays that every call scans and changes in place.  Each method is
    proved to give the reply and the new tables that EndpointTable specifies, so the
    ownership theorems hold of them. */
module AwpNetwork {
  import opened Words
  import opened Wrappers
  import TcpListener
  import opened EndpointTable
  import EndpointOwnership

  lemma SetTwice(n: Net, o: nat, h: nat, x: Handle, y: Handle)
    requires o < |n.owners| && h < HANDLES
    ensures SetHandle(SetHandle(n, o, h, x), o, h, y) == SetHandle(n, o, h, y)
  {
    var owner := n.owners[o];
    assert owner[h := x][h := y] == owner[h := y];
  }

  class NetworkTable {
    const tcp: array<Endpoint>
    const handles: array2<Handle>

    ghost predicate Valid() {
      tcp.Length == ENDPOINTS && handles.Length1 == HANDLES
    }

    /** The handles of owner `o`. */
    ghost function OwnerAt(o: nat): Owner
      requires Valid() && o < handles.Length0
      reads handles
    {
      [handles[o, 0], handles[o, 1]]
    }

    ghost function Owners(): (s: seq<Owner>)
      requires Valid()
      reads handles
      ensures |s| == handles.Length0
    {
      seq(handles.Length0, o requires 0 <= o < handles.Length0 reads handles => OwnerAt(o))
    }

    ghost function View(): Net
      requires Valid()
      reads tcp, handles
    {
      Net(tcp[..], Owners())
    }

    /** All endpoints idle but the console's, which listens on `port`; no handle in use. */
    constructor (owners: nat, port: u16)
      ensures Valid() && fresh(tcp) && fresh(handles)
      ensures View() == EndpointOwnership.Initial(port, owners)
    {
      tcp := new Endpoint[ENDPOINTS](i => if i == 0 then NowListening(IDLE.(taken := true), port) else IDLE);
      handles := new Handle[owners, HANDLES]((o, h) => NO_HANDLE);
    }

    /** `arwill_ipv4_tcp_open` */
    method OpenEndpoint() returns (found: Option<Index>)
      requires Valid()
      modifies tcp
      ensures found == FreeEndpoint(old(tcp[..]), 1)
      ensures tcp[..] == if found.Some? then old(tcp[..])[found.value := IDLE.(taken := true)] else old(tcp[..])
    {
      var index := 1;
      while index < ENDPOINTS
        invariant 1 <= index <= ENDPOINTS && tcp[..] == old(tcp[..])
        invariant FreeEndpoint(tcp[..], 1) == FreeEndpoint(tcp[..], index)
      {
        if !tcp[index].taken {
          tcp[index] := IDLE.(taken := true);
          return Some(index);
        }
        index := index + 1;
      }
      return None;
    }

    /** `local_port_available` */
    method PortAvailable(e: Index, port: u16) returns (free: bool)
      requires Valid()
      ensures free == Available(tcp[..], e, port)
    {
      var index := 0;
      while index < ENDPOINTS
        invariant 0 <= index <= ENDPOINTS
        invariant forall i: Index :: i < index && i != e && tcp[..][i].taken ==> tcp[..][i].bound != port
      {
        if index != e && tcp[index].taken && tcp[index].bound == port {
          assert tcp[..][index] == tcp[index];
          return false;
        }
        index := index + 1;
      }
      return true;
    }

    method PutEndpoint(e: Index, endpoint: Endpoint)
      requires Valid()
      modifies tcp
      ensures tcp[..] == old(tcp[..])[e := endpoint]
    {
      tcp[e] := endpoint;
    }

    method PutHandle(o: nat, h: nat, handle: Handle)
      requires Valid() && o < handles.Length0 && h < HANDLES
      modifies handles
      ensures View() == SetHandle(old(View()), o, h, handle)
    {
      handles[o, h] := handle;
      assert OwnerAt(o) == old(OwnerAt(o))[h := handle];
      assert forall k: nat :: k < handles.Length0 && k != o ==> OwnerAt(k) == old(OwnerAt(k));
      assert Owners() == old(Owners())[o := OwnerAt(o)];
    }

    /** `arwill_awp_network_open` */
    method Open(o: nat) returns (r: Reply)
      requires Valid() && o < handles.Length0
      modifies tcp, handles
      ensures (View(), r) == AfterOpen(old(View()), o)
    {
      hide FreeEndpoint;
      var index := 0;
      while index < HANDLES
        invariant 0 <= index <= HANDLES && View() == old(View())
        invariant forall k :: 0 <= k < index ==> handles[o, k].state != Free
      {
        if handles[o, index].state == Free {
          assert FreeHandle(View().owners[o]) == Some(index) && View().owners[o][index] == handles[o, index];
          var handle := handles[o, index];
          var stream := OpenEndpoint();
          assert Owners() == old(Owners());
          ghost var before := View();
          PutHandle(o, index, handle.(stream := stream));
          if stream.None? { return Unavailable; }
          PutHandle(o, index, handle.(stream := stream, state := HandleState.Open));
          SetTwice(before, o, index, handle.(stream := stream), handle.(stream := stream, state := HandleState.Open));
          return Value(index);
        }
        index := index + 1;
      }
      return Unavailable;
    }

    /** `network_handle`, and the check that the handle has a stream. */
    method LookUp(o: nat, h: nat) returns (found: Option<Handle>)
      requires Valid()
      ensures found.Some? <==> Has(View(), o, h)
      ensures found.Some? ==> found.value == View().owners[o][h] && found.value.stream.Some?
    {
      if o >= handles.Length0 || h >= HANDLES || handles[o, h].stream.None? { return None; }
      return Some(handles[o, h]);
    }

    /** `arwill_awp_network_bind` */
    method Bind(o: nat, h: nat, port: nat) returns (r: Reply)
      requires Valid()
      modifies tcp, handles
      ensures (View(), r) == AfterBind(old(View()), o, h, port)
    {
      var found := LookUp(o, h);
      if found.None? || port == 0 || port > 0xffff || found.value.state != HandleState.Open { return Invalid; }
      var e := found.value.stream.value;
      var free := PortAvailable(e, port);
      if !tcp[e].taken || tcp[e].bound != 0 || !free { return InUse; }
      PutEndpoint(e, tcp[e].(bound := port));
      assert Owners() == old(Owners());
      PutHandle(o, h, found.value.(port := port, state := Bound));
      return Value(0);
    }

    /** `arwill_awp_network_listen` */
    method Listen(o: nat, h: nat) returns (r: Reply)
      requires Valid()
      modifies tcp, handles
      ensures (View(), r) == AfterListen(old(View()), o, h)
    {
      var found := LookUp(o, h);
      if found.None? || found.value.state != Bound { return Invalid; }
      var handle := found.value;
      var e := handle.stream.value;
      if !tcp[e].taken || handle.port == 0 || (tcp[e].bound != 0 && tcp[e].bound != handle.port) {
        return Unavailable;
      }
      if tcp[e].bound == 0 {
        var free := PortAvailable(e, handle.port);
        if !free { return Unavailable; }
      }
      PutEndpoint(e, tcp[e].(bound := handle.port, listening := true, port := handle.port, state := TcpListener.Listen,
                             pending := false, failed := false, closeRequested := false));
      assert Owners() == old(Owners());
      PutHandle(o, h, handle.(state := HandleState.Listening));
      return Value(0);
    }

    /** `arwill_awp_network_connect` */
    method Connect(o: nat, h: nat, peer: bool) returns (r: Reply)
      requires Valid()
      modifies tcp, handles
      ensures (View(), r) == AfterConnect(old(View()), o, h, peer)
    {
      var found := LookUp(o, h);
      if found.None? || !peer || (found.value.state != Bound && found.value.state != Connecting) { return Invalid; }
      var handle := found.value;
      var e := handle.stream.value;
      if handle.state == Connecting {
        if !tcp[e].taken || tcp[e].failed { return Unavailable; }
        return if IsConnected(tcp[e]) then Value(0) else Retry;
      }
      var status := ConnectEndpoint(e, handle.port);
      if status < 0 { return Unavailable; }
      assert Owners() == old(Owners());
      PutHandle(o, h, handle.(state := Connecting));
      return if status > 0 then Value(0) else Retry;
    }

    /** `arwill_ipv4_tcp_connect` */
    method ConnectEndpoint(e: Index, port: u16) returns (status: int)
      requires Valid()
      modifies tcp
      ensures (tcp[..], status) == var (endpoint, s) := TcpConnect(old(tcp[e]), port); (old(tcp[..])[e := endpoint], s)
    {
      assert tcp[..][e := tcp[e]] == tcp[..];
      if !tcp[e].taken || port == 0 || tcp[e].bound != port { return -1; }
      if IsConnected(tcp[e]) { return 1; }
      if tcp[e].failed { return -1; }
      if tcp[e].pending || tcp[e].state == TcpListener.SynSent { return 0; }
      PutEndpoint(e, tcp[e].(listening := true, port := port, state := TcpListener.Listen, pending := true,
                             closeRequested := false, connectPort := port));
      return 0;
    }

    /** `arwill_ipv4_tcp_release` */
    method ReleaseEndpoint(e: Index)
      requires Valid()
      modifies tcp
      ensures tcp[..] == Released(old(tcp[..]), e)
    {
      if !tcp[e].taken || e == 0 { return; }
      tcp[e] := IDLE;
    }

    /** Releases the endpoint of a handle and clears the handle. */
    method DropHandle(o: nat, h: nat)
      requires Valid() && Has(View(), o, h)
      modifies tcp, handles
      ensures View() == Dropped(old(View()), o, h)
    {
      ReleaseEndpoint(handles[o, h].stream.value);
      assert Owners() == old(Owners());
      PutHandle(o, h, NO_HANDLE);
    }

    /** `arwill_awp_network_close` */
    method Close(o: nat, h: nat) returns (r: Reply)
      requires Valid()
      modifies tcp, handles
      ensures (View(), r) == AfterClose(old(View()), o, h)
    {
      var found := LookUp(o, h);
      if found.None? || found.value.state == Free { return Invalid; }
      var handle := found.value;
      var e := handle.stream.value;
      if handle.state == HandleState.Closing {
        if !CloseComplete(tcp[e]) { return Retry; }
        DropHandle(o, h);
        return Value(0);
      }
      if IsConnected(tcp[e]) {
        PutEndpoint(e, tcp[e].(closeRequested := true));
        assert Owners() == old(Owners());
        PutHandle(o, h, handle.(state := HandleState.Closing));
        return Retry;
      }
      DropHandle(o, h);
      return Value(0);
    }

    /** `arwill_awp_network_cleanup`, TCP part. */
    method CleanUp(o: nat)
      requires Valid() && o < handles.Length0
      modifies tcp, handles
      ensures View() == AfterCleanup(old(View()), o)
    {
      var index := 0;
      while index < HANDLES
        invariant 0 <= index <= HANDLES
        invariant View() == if index == 0 then old(View())
                            else if index == 1 then Cleaned(old(View()), o, 0)
                            else AfterCleanup(old(View()), o)
      {
        if handles[o, index].stream.Some? { DropHandle(o, index); } else { PutHandle(o, index, NO_HANDLE); }
        index := index + 1;
      }
    }
  }
}
