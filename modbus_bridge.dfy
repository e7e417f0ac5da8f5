/**
 * The Modbus TCP to RTU bridge (`RidenModbusBridge`).
 *
 * A request arriving on the Modbus TCP server is forwarded to the power
 * supply over the RTU (serial) master; the bridge remembers the MBAP
 * Transaction Identifier (section 3.1.3 of the Modbus Messaging on TCP/IP
 * Implementation Guide V1.0b), the unit id and the peer address of that
 * request, and installs a raw hook on the RTU master so that the device's
 * reply is sent back to that peer under that transaction id.
 *
 * The modbus library only accepts plain functions as callbacks, so one
 * bridge at most may be registered, in the global `one_and_only`
 * (here the `Registry` object).
 *
 * The effect of a callback on the bridge's state is given by the step
 * functions `TcpRaw` and `RtuRaw`; the class methods are proved to follow
 * them, and the lemmas below state what the steps promise. Calls into the
 * library (`rawRequest`, `errorResponce`, `setTransactionId`,
 * `rawResponce`, `onRaw`, `server`) are logged, not executed.
 */
module ModbusBridge {
  import opened Arduino

  /** `MODBUSIP_MAX_CLIENTS`, the size of the TCP server's client table. */
  const MaxClients := 4

  /** The library's `Modbus::ResultCode` values the bridge returns. */
  datatype ResultCode =
    | Success                  // EX_SUCCESS: frame consumed
    | DeviceFailedToRespond    // EX_DEVICE_FAILED_TO_RESPOND
    | GeneralFailure           // EX_GENERAL_FAILURE
    | Passthrough              // EX_PASSTHROUGH: let the library process the frame

  /**
   * Exception code 0x0B, "Gateway Target Device Failed to Respond"
   * (section 7 of the Modbus Application Protocol Specification V1.1b3).
   */
  const ExDeviceFailedToRespond: uint8 := 0x0B

  function ExceptionCode(rc: ResultCode): Option<uint8> {
    if rc == DeviceFailedToRespond then Some(ExDeviceFailedToRespond) else None
  }

  /** The `Modbus::frame_arg_t` the library hands to a raw callback. */
  datatype FrameArg = FrameArg(slaveId: uint8, transactionId: uint16, ipaddr: uint32, toServer: bool)

  /** The request the bridge is waiting on a reply for; all zero when none. */
  datatype Pending = Pending(transactionId: uint16, slaveId: uint8, ip: uint32)

  const NoPending := Pending(0, 0, 0)

  /** `initialized`, the pending triple, and whether the RTU hook is installed. */
  datatype BridgeState = BridgeState(initialized: bool, pending: Pending, rtuHook: bool)

  /** Calls the bridge makes into the modbus library. */
  datatype LibCall =
    | TcpOnRaw                                              // _modbus_tcp->onRaw(modbus_tcp_raw_callback)
    | TcpServe                                              // _modbus_tcp->server()
    | RawRequest(slaveId: uint8, pdu: seq<uint8>)           // RTU master: rawRequest(slaveId, data, len)
    | ErrorResponse(slaveId: uint8, functionCode: uint8, code: uint8)  // TCP: errorResponce(slaveId, fn, code)
    | SetTransactionId(transactionId: uint16)               // TCP: setTransactionId
    | RawResponse(ip: uint32, pdu: seq<uint8>, slaveId: uint8)     // TCP: rawResponce(ip, data, len, slaveId)

  /** The outcome of one callback: the new state, the returned code and the calls made. */
  datatype Step = Step(state: BridgeState, result: ResultCode, calls: seq<LibCall>)

  /**
   * `modbus_tcp_raw_callback` for a request `pdu` (function code first) from
   * the peer described by `src`; `forwarded` is what `rawRequest` returns.
   */
  function TcpRaw(s: BridgeState, pdu: seq<uint8>, src: FrameArg, forwarded: bool): Step
    requires |pdu| > 0
  {
    if !s.initialized then
      Step(s, GeneralFailure, [])
    else if !forwarded then
      Step(s, DeviceFailedToRespond,
           [RawRequest(src.slaveId, pdu), ErrorResponse(src.slaveId, pdu[0], ExDeviceFailedToRespond)])
    else
      Step(s.(pending := Pending(src.transactionId, src.slaveId, src.ipaddr), rtuHook := true),
           Success, [RawRequest(src.slaveId, pdu)])
  }

  /** `modbus_rtu_raw_callback` for a frame `pdu` seen by the RTU master. */
  function RtuRaw(s: BridgeState, pdu: seq<uint8>, src: FrameArg): Step {
    if !s.initialized then
      Step(s, GeneralFailure, [])
    else if src.toServer then
      Step(s.(rtuHook := false), Passthrough, [])
    else
      Step(BridgeState(true, NoPending, false), Success,
           [SetTransactionId(s.pending.transactionId), RawResponse(s.pending.ip, pdu, s.pending.slaveId)])
  }

  // ---------------------------------------------------------------------
  // What the callbacks promise
  // ---------------------------------------------------------------------

  /** An uninitialized bridge refuses both callbacks and changes nothing. */
  lemma NotInitializedRefuses(s: BridgeState, pdu: seq<uint8>, src: FrameArg, forwarded: bool)
    requires !s.initialized && |pdu| > 0
    ensures TcpRaw(s, pdu, src, forwarded) == Step(s, GeneralFailure, [])
    ensures RtuRaw(s, pdu, src) == Step(s, GeneralFailure, [])
  {
  }

  /**
   * When the RTU master refuses the request, the peer gets exception 0x0B for
   * its function code, the same code is returned, and neither the pending
   * request nor the hook changes.
   */
  lemma ForwardFailureAnswersPeer(s: BridgeState, pdu: seq<uint8>, src: FrameArg)
    requires s.initialized && |pdu| > 0
    ensures var st := TcpRaw(s, pdu, src, false);
      && st.state == s
      && st.result == DeviceFailedToRespond
      && ExceptionCode(st.result) == Some(0x0B)
      && st.calls[|st.calls| - 1] == ErrorResponse(src.slaveId, pdu[0], 0x0B)
  {
  }

  /** A forwarded request is recorded with the source frame's triple and arms the RTU hook. */
  lemma ForwardRecordsPending(s: BridgeState, pdu: seq<uint8>, src: FrameArg)
    requires s.initialized && |pdu| > 0
    ensures var st := TcpRaw(s, pdu, src, true);
      && st.state.pending == Pending(src.transactionId, src.slaveId, src.ipaddr)
      && st.state.rtuHook && st.state.initialized
      && st.result == Success
      && st.calls == [RawRequest(src.slaveId, pdu)]
  {
  }

  /**
   * The RTU hook always uninstalls itself. A reply from the device goes to
   * the recorded peer under the recorded transaction and unit ids, and the
   * bridge is idle again; a frame heading to the server is passed through
   * with the pending request kept.
   */
  lemma RtuRawRoutesReply(s: BridgeState, pdu: seq<uint8>, src: FrameArg)
    requires s.initialized
    ensures var st := RtuRaw(s, pdu, src);
      && !st.state.rtuHook
      && (!src.toServer ==>
            && st.result == Success
            && st.state.pending == NoPending
            && st.calls == [SetTransactionId(s.pending.transactionId),
                            RawResponse(s.pending.ip, pdu, s.pending.slaveId)])
      && (src.toServer ==>
            st.result == Passthrough && st.state.pending == s.pending && st.calls == [])
  {
  }

  /** Events the bridge reacts to, for reasoning about runs of callbacks. */
  datatype Event =
    | TcpFrame(pdu: seq<uint8>, src: FrameArg, forwarded: bool)
    | RtuFrame(pdu: seq<uint8>, src: FrameArg)

  predicate WellFormed(events: seq<Event>) {
    forall i :: 0 <= i < |events| && events[i].TcpFrame? ==> |events[i].pdu| > 0
  }

  /** The state and library calls after a run of callbacks. */
  function Run(s: BridgeState, events: seq<Event>): (BridgeState, seq<LibCall>)
    requires WellFormed(events)
  {
    if events == [] then
      (s, [])
    else
      var (mid, before) := Run(s, events[..|events| - 1]);
      var st := match events[|events| - 1]
        case TcpFrame(pdu, src, forwarded) => TcpRaw(mid, pdu, src, forwarded)
        case RtuFrame(pdu, src) => RtuRaw(mid, pdu, src);
      (st.state, before + st.calls)
  }

  /** The triple of the last request in `events` the RTU master accepted, if any. */
  function LastForwarded(events: seq<Event>): Option<Pending> {
    if events == [] then None
    else
      var e := events[|events| - 1];
      if e.TcpFrame? && e.forwarded then Some(Pending(e.src.transactionId, e.src.slaveId, e.src.ipaddr))
      else LastForwarded(events[..|events| - 1])
  }

  /**
   * Routing: on an initialized bridge, whenever the hook is armed the
   * pending triple is that of the last request the RTU master accepted.
   * So a reply is always delivered to the peer and transaction id of the
   * request it answers, never to another peer.
   */
  lemma {:induction false} HookArmedMeansLastForwarded(s: BridgeState, events: seq<Event>)
    requires s.initialized && !s.rtuHook && WellFormed(events)
    ensures var (t, _) := Run(s, events);
      && t.initialized
      && (t.rtuHook ==> LastForwarded(events) == Some(t.pending))
  {
    if events != [] {
      var init := events[..|events| - 1];
      assert WellFormed(init) by {
        forall i | 0 <= i < |init| && init[i].TcpFrame? ensures |init[i].pdu| > 0 {
          assert init[i] == events[i];
        }
      }
      HookArmedMeansLastForwarded(s, init);
      var e := events[|events| - 1];
      if e.TcpFrame? {
        assert |e.pdu| > 0;
      }
    }
  }

  /**
   * End to end: a request forwarded for peer `src` is answered to exactly
   * that peer, tagged with its transaction id and unit id, after which the
   * bridge is idle and unarmed, ready for the next request.
   */
  lemma RequestReplyRoundTrip(s: BridgeState, request: seq<uint8>, src: FrameArg, reply: seq<uint8>, dev: FrameArg)
    requires s.initialized && |request| > 0 && !dev.toServer
    ensures var (t, calls) := Run(s, [TcpFrame(request, src, true), RtuFrame(reply, dev)]);
      && t == BridgeState(true, NoPending, false)
      && calls == [RawRequest(src.slaveId, request),
                   SetTransactionId(src.transactionId),
                   RawResponse(src.ipaddr, reply, src.slaveId)]
  {
    var events := [TcpFrame(request, src, true), RtuFrame(reply, dev)];
    var first := TcpRaw(s, request, src, true);
    assert Run(s, events[..1]) == (first.state, first.calls) by {
      var e := [TcpFrame(request, src, true)];
      assert events[..1] == e;
      assert e[..|e| - 1] == [];
      assert Run(s, e[..|e| - 1]) == (s, []);
      assert [] + first.calls == first.calls;
    }
  }

  // ---------------------------------------------------------------------
  // The TCP server's client table (RidenModbusTCP)
  // ---------------------------------------------------------------------

  /** A connected TCP client slot: whether the socket is still connected and its peer address. */
  datatype Client = Client(connected: bool, remoteIp: uint32)

  /** The remote addresses of the non-null, connected slots, in slot order. */
  function ConnectedIps(slots: seq<Option<Client>>): seq<uint32> {
    if slots == [] then
      []
    else
      var last := slots[|slots| - 1];
      ConnectedIps(slots[..|slots| - 1])
      + (if last.Some? && last.value.connected then [last.value.remoteIp] else [])
  }

  predicate IsConnectedAt(slots: seq<Option<Client>>, i: int, ip: uint32) {
    0 <= i < |slots| && slots[i].Some? && slots[i].value.connected && slots[i].value.remoteIp == ip
  }

  /** An address is listed exactly when some slot holds a connected client with that address. */
  lemma {:induction false} ConnectedIpsMembership(slots: seq<Option<Client>>, ip: uint32)
    ensures |ConnectedIps(slots)| <= |slots|
    ensures ip in ConnectedIps(slots) <==> exists i :: IsConnectedAt(slots, i, ip)
  {
    if slots != [] {
      var init := slots[..|slots| - 1];
      var last := slots[|slots| - 1];
      var tail := if last.Some? && last.value.connected then [last.value.remoteIp] else [];
      ConnectedIpsMembership(init, ip);
      assert ConnectedIps(slots) == ConnectedIps(init) + tail;
      if ip in ConnectedIps(slots) {
        if ip in ConnectedIps(init) {
          var i :| IsConnectedAt(init, i, ip);
          assert IsConnectedAt(slots, i, ip);
        } else {
          assert ip in tail;
          assert IsConnectedAt(slots, |slots| - 1, ip);
        }
      }
      if exists i :: IsConnectedAt(slots, i, ip) {
        var i :| IsConnectedAt(slots, i, ip);
        if i < |init| {
          assert IsConnectedAt(init, i, ip);
        } else {
          assert ip in tail;
        }
      }
    }
  }

  /**
   * `getMaster(ip)`: the index of the first slot holding a connected client
   * with remote address `ip`, or -1 when there is none.
   */
  function GetMaster(slots: seq<Option<Client>>, ip: uint32): (n: int)
    ensures -1 <= n < |slots|
    ensures n >= 0 ==> IsConnectedAt(slots, n, ip) && forall j :: 0 <= j < n ==> !IsConnectedAt(slots, j, ip)
    ensures n == -1 <==> forall j :: 0 <= j < |slots| ==> !IsConnectedAt(slots, j, ip)
  {
    if slots == [] then -1
    else if IsConnectedAt(slots, 0, ip) then 0
    else
      var n := GetMaster(slots[1..], ip);
      assert forall j :: 1 <= j < |slots| ==> (IsConnectedAt(slots, j, ip) <==> IsConnectedAt(slots[1..], j - 1, ip));
      if n == -1 then -1 else n + 1
  }

  class ClientTable {
    /** `tcpclient[MODBUSIP_MAX_CLIENTS]`; `None` is a null slot. */
    const slots: array<Option<Client>>

    constructor ()
      ensures slots.Length == MaxClients && fresh(slots)
      ensures forall i :: 0 <= i < slots.Length ==> slots[i] == None
    {
      slots := new Option<Client>[MaxClients](_ => None);
    }

    /** `get_connected_clients`. */
    method GetConnectedClients() returns (ips: seq<uint32>)
      ensures ips == ConnectedIps(slots[..])
    {
      ips := [];
      var i := 0;
      while i < slots.Length
        invariant 0 <= i <= slots.Length
        invariant ips == ConnectedIps(slots[..i])
      {
        var slot := slots[i];
        if slot.Some? && slot.value.connected {
          ips := ips + [slot.value.remoteIp];
        }
        assert slots[..i + 1][..i] == slots[..i];
        i := i + 1;
      }
      assert slots[..i] == slots[..];
    }

    /** `disconnect_client`: nulls the slot `getMaster` finds, and nothing else; no-op when none. */
    method DisconnectClient(ip: uint32)
      modifies slots
      ensures var n := GetMaster(old(slots[..]), ip);
        slots[..] == if n == -1 then old(slots[..]) else old(slots[..])[n := None]
    {
      var n := GetMaster(slots[..], ip);
      if n != -1 {
        slots[n] := None;
      }
    }
  }

  // ---------------------------------------------------------------------
  // The bridge object and the global instance
  // ---------------------------------------------------------------------

  /** The file-level `one_and_only`. */
  class Registry {
    var oneAndOnly: Bridge?

    constructor ()
      ensures oneAndOnly == null
    {
      oneAndOnly := null;
    }
  }

  class Bridge {
    const registry: Registry
    var initialized: bool
    var transactionId: uint16
    var slaveId: uint8
    var ip: uint32
    /** Whether `modbus_rtu_raw_callback` is installed as the RTU master's raw hook. */
    var rtuHook: bool
    /** `_modbus_tcp`, created by `begin`. */
    var tcp: ClientTable?
    var calls: seq<LibCall>

    ghost predicate Valid()
      reads this, registry
    {
      (initialized <==> tcp != null) && (initialized ==> registry.oneAndOnly == this)
    }

    function State(): BridgeState
      reads this
    {
      BridgeState(initialized, Pending(transactionId, slaveId, ip), rtuHook)
    }

    constructor (registry: Registry)
      ensures Valid() && this.registry == registry
      ensures State() == BridgeState(false, NoPending, false) && tcp == null && calls == []
    {
      this.registry := registry;
      initialized := false;
      transactionId, slaveId, ip := 0, 0, 0;
      rtuHook := false;
      tcp := null;
      calls := [];
    }

    /**
     * `begin`: true and no change when already initialized; false and no
     * change when another bridge holds `one_and_only`; otherwise creates
     * the TCP server, registers this bridge and marks it initialized.
     */
    method Begin() returns (ok: bool)
      requires Valid()
      modifies this, registry
      ensures Valid()
      ensures old(initialized) ==> ok && unchanged(this) && registry.oneAndOnly == old(registry.oneAndOnly)
      ensures !old(initialized) && old(registry.oneAndOnly) != null ==>
        !ok && unchanged(this) && registry.oneAndOnly == old(registry.oneAndOnly)
      ensures !old(initialized) && old(registry.oneAndOnly) == null ==>
        && ok && initialized && registry.oneAndOnly == this
        && fresh(tcp) && fresh(tcp.slots)
        && (forall i :: 0 <= i < tcp.slots.Length ==> tcp.slots[i] == None)
        && transactionId == old(transactionId) && slaveId == old(slaveId) && ip == old(ip)
        && rtuHook == old(rtuHook)
        && calls == old(calls) + [TcpOnRaw, TcpServe]
    {
      if initialized {
        return true;
      }
      if registry.oneAndOnly != null {
        return false;
      }
      tcp := new ClientTable();
      calls := calls + [TcpOnRaw, TcpServe];
      registry.oneAndOnly := this;
      initialized := true;
      ok := true;
    }

    /** `modbus_tcp_raw_callback`; `forwarded` is the result of `rawRequest`. */
    method OnTcpRaw(pdu: seq<uint8>, src: FrameArg, forwarded: bool) returns (rc: ResultCode)
      requires |pdu| > 0
      modifies this
      ensures var st := TcpRaw(old(State()), pdu, src, forwarded);
        State() == st.state && rc == st.result && calls == old(calls) + st.calls
      ensures tcp == old(tcp)
    {
      if !initialized {
        return GeneralFailure;
      }
      calls := calls + [RawRequest(src.slaveId, pdu)];
      if !forwarded {
        calls := calls + [ErrorResponse(src.slaveId, pdu[0], ExDeviceFailedToRespond)];
        return DeviceFailedToRespond;
      }
      transactionId := src.transactionId;
      slaveId := src.slaveId;
      ip := src.ipaddr;
      rtuHook := true;
      rc := Success;
    }

    /** `modbus_rtu_raw_callback`. */
    method OnRtuRaw(pdu: seq<uint8>, src: FrameArg) returns (rc: ResultCode)
      modifies this
      ensures var st := RtuRaw(old(State()), pdu, src);
        State() == st.state && rc == st.result && calls == old(calls) + st.calls
      ensures tcp == old(tcp)
    {
      if !initialized {
        return GeneralFailure;
      }
      rtuHook := false;
      if src.toServer {
        return Passthrough;
      }
      calls := calls + [SetTransactionId(transactionId), RawResponse(ip, pdu, slaveId)];
      transactionId := 0;
      slaveId := 0;
      ip := 0;
      rc := Success;
    }

    /** `RidenModbusBridge::get_connected_clients`, forwarding to the TCP server. */
    method GetConnectedClients() returns (ips: seq<uint32>)
      requires Valid() && initialized
      ensures ips == ConnectedIps(tcp.slots[..])
    {
      ips := tcp.GetConnectedClients();
    }

    /** `RidenModbusBridge::disconnect_client`, forwarding to the TCP server. */
    method DisconnectClient(addr: uint32)
      requires Valid() && initialized
      modifies tcp.slots
      ensures var n := GetMaster(old(tcp.slots[..]), addr);
        tcp.slots[..] == if n == -1 then old(tcp.slots[..]) else old(tcp.slots[..])[n := None]
    {
      tcp.DisconnectClient(addr);
    }
  }

  /** The plain-function trampoline for the TCP callback: forwards to `one_and_only`. */
  method TcpTrampoline(registry: Registry, pdu: seq<uint8>, src: FrameArg, forwarded: bool) returns (rc: ResultCode)
    requires registry.oneAndOnly != null && |pdu| > 0
    modifies registry.oneAndOnly
    ensures var b := registry.oneAndOnly;
      var st := TcpRaw(old(b.State()), pdu, src, forwarded);
      b.State() == st.state && rc == st.result && b.calls == old(b.calls) + st.calls
  {
    rc := registry.oneAndOnly.OnTcpRaw(pdu, src, forwarded);
  }

  /** The plain-function trampoline for the RTU callback: forwards to `one_and_only`. */
  method RtuTrampoline(registry: Registry, pdu: seq<uint8>, src: FrameArg) returns (rc: ResultCode)
    requires registry.oneAndOnly != null
    modifies registry.oneAndOnly
    ensures var b := registry.oneAndOnly;
      var st := RtuRaw(old(b.State()), pdu, src);
      b.State() == st.state && rc == st.result && b.calls == old(b.calls) + st.calls
  {
    rc := registry.oneAndOnly.OnRtuRaw(pdu, src);
  }

  /**
   * A second bridge cannot start while the first is registered, and its
   * attempt leaves the first bridge's registration and state untouched.
   */
  method SecondBridgeRefused(registry: Registry) returns (first: Bridge, second: Bridge, ok1: bool, ok2: bool)
    requires registry.oneAndOnly == null
    modifies registry
    ensures ok1 && !ok2 && registry.oneAndOnly == first
    ensures first.initialized && first.State() == BridgeState(true, NoPending, false)
    ensures !second.initialized && second.State() == BridgeState(false, NoPending, false)
  {
    first := new Bridge(registry);
    second := new Bridge(registry);
    ok1 := first.Begin();
    ok2 := second.Begin();
  }
}
