/** The receiving side of the proxy wire format, and what it makes of a built message. */
module WireReceive {

  import opened Bytes
  import opened Wire

  /** Session parameters of a create command. */
  datatype SessPara = SessPara(dev: Half, proto: Half, ip: nat, addr: seq<Byte>, port: Half)

  /** What the dispatcher does with a message. `at` and `len` are the pointer and the
      length it passes on. */
  datatype Delivery =
    | Reject
    | DevCommand(msgType: nat, msgId: nat, at: nat, len: nat)
    | StrgyCommand(msgType: nat, msgId: nat, at: nat, len: nat)
    | CloseSession(front: nat, back: nat)
    | ConfirmPassive(front: nat, back: nat)
    | CreateActive(front: nat, para: SessPara)
    | DataSegment(front: nat, back: nat, at: nat, len: nat)
    | IotAccepted(proto: nat)
    | IotSend(proto: nat, addr: seq<Byte>, at: nat, len: nat)

  /** Smallest block the dispatcher may look at: both headers and the longest
      parameter block. */
  const LEAST: nat := 40

  // ----- Validity macros -----

  predicate TypeValid(x: nat) {
    x == DEV as int || x == STRGY as int || x == SESS as int || x == DATA as int || x == IOT as int
  }

  /** PROXY_MSG_LEN_VALID: joined by "or", so no length fails it. */
  predicate LenValid(x: nat) {
    x >= 1 || x <= 4088
  }

  /** APP_SESSION_ID_VALID: joined by "or", so no identifier fails it. */
  predicate AppSessionValid(x: nat) {
    x != 0 || x != HANDOVER
  }

  // ----- Dispatch -----

  function ReceiveDev(mem: seq<Byte>): Delivery
    requires |mem| >= LEAST
  {
    var version, msgType, msgId, action, len :=
      Word(mem, 8), Word(mem, 10), Word(mem, 12), Word(mem, 14), Word(mem, 16);
    if action != COMMAND || version != 1 then Reject
    else if DevLen(msgType, action) == INVALID || DevLen(msgType, action) != len then Reject
    else DevCommand(msgType, msgId, 18, len)
  }

  function ReceiveStrgy(mem: seq<Byte>): Delivery
    requires |mem| >= LEAST
  {
    var version, msgType, msgId, action, len :=
      Word(mem, 8), Word(mem, 10), Word(mem, 12), Word(mem, 14), Word(mem, 16);
    if action != COMMAND || version != 1 then Reject
    else if StrgyLen(msgType, action) == INVALID || StrgyLen(msgType, action) != len then Reject
    else StrgyCommand(msgType, msgId, 18, len)
  }

  /** SessParaIPv4 and SessParaIPv6 at offset 18. */
  function ReadPara(mem: seq<Byte>, ip: nat): SessPara
    requires |mem| >= LEAST && (ip == 4 || ip == 6)
  {
    var n := if ip == 4 then 4 else 16;
    SessPara(Word(mem, 18), Word(mem, 20), ip, mem[22..22 + n], Word(mem, 22 + n))
  }

  function ReceiveActive(mem: seq<Byte>, front: nat, ip: nat, len: nat): Delivery
    requires |mem| >= LEAST
  {
    if ip == 4 && len == 10 then CreateActive(front, ReadPara(mem, 4))
    else if ip == 6 && len == 22 then CreateActive(front, ReadPara(mem, 6))
    else Reject
  }

  function ReceiveSess(mem: seq<Byte>, front: nat, back: nat): Delivery
    requires |mem| >= LEAST
  {
    var version, msgType, action, ip, len := Word(mem, 8), Word(mem, 10), Word(mem, 12), Word(mem, 14), Word(mem, 16);
    if (action != COMMAND && action != RESPONSE) || version != 1 then Reject
    else if SessLen(msgType, action, ip) == INVALID || SessLen(msgType, action, ip) != len then Reject
    else if msgType == SESS_CREATE then
      if back != HANDOVER then (if action != RESPONSE then Reject else ConfirmPassive(front, back))
      else ReceiveActive(mem, front, ip, len)
    else CloseSession(front, back)
  }

  /** The largest inner payload_len a handler takes. */
  function MaxInner(proto: nat): nat {
    if proto == BLUETOOTH then 244 else if proto == CAN then 64 else 253
  }

  /** `ready` are the protocols whose backend session is initialised. */
  function ReceiveIot(mem: seq<Byte>, ready: set<nat>, outerLen: nat): Delivery
    requires |mem| >= LEAST
  {
    var proto, inner := Word(mem, 10), Word(mem, 16);
    var full := AddrSize(proto);
    if full == 0 || outerLen < 12 + full || proto !in ready then Reject
    else if proto == BLUETOOTH || proto == CAN || proto == MODBUS then
      if inner > MaxInner(proto) || inner < full then Reject
      else IotSend(proto, mem[20..20 + full], 20 + full, if proto == MODBUS then inner else inner - full)
    else IotAccepted(proto)
  }

  /** backend_proxy_msg_process. */
  function Receive(mem: seq<Byte>, ready: set<nat>): Delivery
    requires |mem| >= LEAST
  {
    var kind, front, back, len := mem[1], Word(mem, 2), Word(mem, 4), Word(mem, 6);
    if !TypeValid(kind) then Reject
    else if !LenValid(len) then Reject
    else if kind == DEV then (if front != 0 || back != 0 then Reject else ReceiveDev(mem))
    else if kind == STRGY then (if front != 0 || back != 0 then Reject else ReceiveStrgy(mem))
    else if kind == SESS then ReceiveSess(mem, front, back)
    else if kind == DATA then
      if !AppSessionValid(front) || !AppSessionValid(back) then Reject else DataSegment(front, back, 8, len)
    else ReceiveIot(mem, ready, len)
  }

  // ----- Reading a built message -----

  /** A received block that starts with the message built from h and p. */
  predicate Carries(mem: seq<Byte>, h: Header, p: seq<Byte>) {
    && |mem| >= LEAST
    && Buildable(h, |p|)
    && Message(h, p) <= mem
  }

  /** Every outer field comes back; the length is that of the body, in 16 bits. */
  lemma {:induction false} OuterRecovered(mem: seq<Byte>, h: Header, p: seq<Byte>)
    requires Carries(mem, h, p)
    ensures mem[0] == h.version && mem[1] == h.kind
    ensures Word(mem, 2) == h.front && Word(mem, 4) == h.back && Word(mem, 6) == |Body(h, p)| % U16
  {
    var ws: seq<Half> := [h.front, h.back, |Body(h, p)| % U16];
    var msg := Message(h, p);
    assert msg[..8] == [h.version, h.kind] + Words(ws);
    assert msg[2..8] == Words(ws);
    assert mem[2..8] == msg[2..8];
    WordAt(mem, 2, ws, 0);
    WordAt(mem, 2, ws, 1);
    WordAt(mem, 2, ws, 2);
    assert mem[0] == msg[0] && mem[1] == msg[1];
  }

  /** The words of the inner header come back. */
  lemma {:induction false} InnerRecovered(mem: seq<Byte>, h: Header, p: seq<Byte>, k: nat)
    requires Carries(mem, h, p) && k < |InnerWords(h, |p|)|
    ensures Word(mem, 8 + 2 * k) == InnerWords(h, |p|)[k]
  {
    var ws := InnerWords(h, |p|);
    var msg := Message(h, p);
    var end := 8 + 2 * |ws|;
    assert msg[8..end] == Words(ws);
    assert mem[8..end] == msg[8..end];
    WordAt(mem, 8, ws, k);
  }

  /** The payload of a message without an address. */
  lemma {:induction false} PayloadRecovered(mem: seq<Byte>, h: Header, p: seq<Byte>)
    requires Carries(mem, h, p) && h.kind != IOT
    ensures var at := if h.kind == DATA then 8 else 18; at + |p| <= |mem| && mem[at..at + |p|] == p
  {
    var at := if h.kind == DATA then 8 else 18;
    var msg := Message(h, p);
    assert |msg| == at + |p|;
    assert msg[at..at + |p|] == p;
    assert mem[at..at + |p|] == msg[at..at + |p|];
  }

  lemma {:induction false} FiveWords(mem: seq<Byte>, h: Header, p: seq<Byte>)
    requires Carries(mem, h, p) && (h.kind == DEV || h.kind == STRGY || h.kind == SESS)
    ensures Word(mem, 8) == h.inner[0] && Word(mem, 10) == h.inner[1] && Word(mem, 12) == h.inner[2]
    ensures Word(mem, 14) == h.inner[3] && Word(mem, 16) == h.inner[4] == |p|
  {
    InnerRecovered(mem, h, p, 0);
    InnerRecovered(mem, h, p, 1);
    InnerRecovered(mem, h, p, 2);
    InnerRecovered(mem, h, p, 3);
    InnerRecovered(mem, h, p, 4);
  }

  /** Device messages: everything the builder accepts is delivered with its type, its
      identifier and its payload, exactly when it is a version-1 command between the
      admin sessions. */
  lemma {:induction false} DevDelivered(mem: seq<Byte>, h: Header, p: seq<Byte>, ready: set<nat>)
    requires Carries(mem, h, p) && h.kind == DEV
    ensures Receive(mem, ready) == if h.front == 0 && h.back == 0 && h.inner[0] == 1 && h.inner[3] == COMMAND
                                   then DevCommand(h.inner[1], h.inner[2], 18, |p|) else Reject
    ensures 18 + |p| <= |mem| && mem[18..18 + |p|] == p
  {
    OuterRecovered(mem, h, p);
    FiveWords(mem, h, p);
    PayloadRecovered(mem, h, p);
  }

  /** Strategy messages: as for devices, but only the SET type gets through, because the
      builder measures with the device table and the receiver with the strategy table. */
  lemma {:induction false} StrgyDelivered(mem: seq<Byte>, h: Header, p: seq<Byte>, ready: set<nat>)
    requires Carries(mem, h, p) && h.kind == STRGY
    ensures Receive(mem, ready)
         == if h.front == 0 && h.back == 0 && h.inner[0] == 1 && h.inner[3] == COMMAND && h.inner[1] == 0
            then StrgyCommand(h.inner[1], h.inner[2], 18, |p|) else Reject
    ensures 18 + |p| <= |mem| && mem[18..18 + |p|] == p
  {
    OuterRecovered(mem, h, p);
    FiveWords(mem, h, p);
    PayloadRecovered(mem, h, p);
  }

  /** Session messages, by the three things that can happen to them. */
  lemma {:induction false} SessDelivered(mem: seq<Byte>, h: Header, p: seq<Byte>, ready: set<nat>)
    requires Carries(mem, h, p) && h.kind == SESS
    ensures h.inner[0] != 1 ==> Receive(mem, ready) == Reject
    ensures h.inner[0] == 1 && h.inner[1] == SESS_CLOSE ==> Receive(mem, ready) == CloseSession(h.front, h.back)
    ensures h.inner[0] == 1 && h.inner[1] == SESS_CREATE && h.back != HANDOVER ==>
              Receive(mem, ready) == if h.inner[2] == RESPONSE then ConfirmPassive(h.front, h.back) else Reject
    ensures h.inner[0] == 1 && h.inner[1] == SESS_CREATE && h.back == HANDOVER ==>
              Receive(mem, ready) ==
                if h.inner[2] == COMMAND then CreateActive(h.front, ReadPara(mem, h.inner[3])) else Reject
    ensures 18 + |p| <= |mem| && mem[18..18 + |p|] == p
  {
    OuterRecovered(mem, h, p);
    FiveWords(mem, h, p);
    PayloadRecovered(mem, h, p);
  }

  /** The parameter block as the frontend lays it out. */
  function ParaBytes(q: SessPara): seq<Byte> {
    Words([q.dev, q.proto]) + q.addr + Words([q.port])
  }

  predicate ValidPara(q: SessPara) {
    (q.ip == 4 && |q.addr| == 4) || (q.ip == 6 && |q.addr| == 16)
  }

  /** An active create command carries its session parameters across unchanged. */
  lemma {:induction false} ParametersDelivered(mem: seq<Byte>, h: Header, q: SessPara, ready: set<nat>)
    requires ValidPara(q) && Carries(mem, h, ParaBytes(q)) && h.kind == SESS
    requires h.inner[0] == 1 && h.inner[1] == SESS_CREATE && h.inner[2] == COMMAND
    requires h.inner[3] == q.ip && h.back == HANDOVER
    ensures Receive(mem, ready) == CreateActive(h.front, q)
  {
    var p := ParaBytes(q);
    SessDelivered(mem, h, p, ready);
    ParaRecovered(mem, q);
  }

  lemma {:induction false} ParaRecovered(mem: seq<Byte>, q: SessPara)
    requires ValidPara(q) && |mem| >= LEAST
    requires mem[18..18 + |ParaBytes(q)|] == ParaBytes(q)
    ensures ReadPara(mem, q.ip) == q
  {
    var p, n := ParaBytes(q), |q.addr|;
    var part := mem[18..18 + |p|];
    assert part[..4] == Words([q.dev, q.proto]) && part[..4] == mem[18..22];
    WordAt(mem, 18, [q.dev, q.proto], 0);
    WordAt(mem, 18, [q.dev, q.proto], 1);
    assert part[4..4 + n] == q.addr;
    forall i | 0 <= i < n ensures mem[22..22 + n][i] == q.addr[i] {
      assert part[4 + i] == mem[22 + i];
    }
    assert part[4 + n..] == Words([q.port]) && part[4 + n..] == mem[22 + n..24 + n];
    WordAt(mem, 22 + n, [q.port], 0);
  }

  /** Data messages: the payload arrives whole exactly when it fits the 16-bit length. */
  lemma {:induction false} DataDelivered(mem: seq<Byte>, h: Header, p: seq<Byte>, ready: set<nat>)
    requires Carries(mem, h, p) && h.kind == DATA
    ensures Receive(mem, ready) == DataSegment(h.front, h.back, 8, |p| % U16)
    ensures 8 + |p| <= |mem| && mem[8..8 + |p|] == p
    ensures Receive(mem, ready) == DataSegment(h.front, h.back, 8, |p|) <==> |p| < U16
  {
    OuterRecovered(mem, h, p);
    PayloadRecovered(mem, h, p);
    assert Words([]) + p == p;
  }

  // ----- IoT messages -----

  /** Header words of an IoT message, and the bytes behind them. */
  lemma {:induction false} IotRecovered(mem: seq<Byte>, h: Header, p: seq<Byte>)
    requires Carries(mem, h, p) && h.kind == IOT
    ensures var full, used := AddrSize(h.inner[1]), AddrUsed(h);
            && Word(mem, 6) == (|p| + 12 + full) % U16
            && Word(mem, 10) == h.inner[1] && Word(mem, 16) == (|p| + used) % U16
            && Word(mem, 8) == Word(mem, 12) == Word(mem, 14) == Word(mem, 18) == 0
            && 20 + used + |p| <= |mem|
            && mem[20..20 + used] == h.addr[..used] && mem[20 + used..20 + used + |p|] == p
  {
    OuterRecovered(mem, h, p);
    InnerRecovered(mem, h, p, 0);
    InnerRecovered(mem, h, p, 1);
    InnerRecovered(mem, h, p, 2);
    InnerRecovered(mem, h, p, 3);
    InnerRecovered(mem, h, p, 4);
    InnerRecovered(mem, h, p, 5);
    var used, msg := AddrUsed(h), Message(h, p);
    var end := 20 + used + |p|;
    assert msg[20..20 + used] == h.addr[..used];
    assert msg[20 + used..end] == p;
    assert mem[20..20 + used] == msg[20..20 + used];
    assert mem[20 + used..end] == msg[20 + used..end];
  }

  lemma {:induction false} LengthsAgree(n: nat, full: nat, used: nat)
    requires used <= full <= 20
    ensures (n + 12 + full) % U16 == 12 + (n + used) % U16 <==> used == full && (n + full) % U16 + 12 < U16
  {
    var x, d := (n + used) % U16, 12 + full - used;
    assert n + 12 + full == U16 * ((n + used) / U16) + (x + d);
    assert (n + 12 + full) % U16 == if x + d < U16 then x + d else x + d - U16;
  }

  /** The outer length covers the header and the inner length exactly when the address
      is sent whole and twelve more than the inner length still fits 16 bits. */
  lemma {:induction false} IotLengthsAgreeIff(mem: seq<Byte>, h: Header, p: seq<Byte>)
    requires Carries(mem, h, p) && h.kind == IOT
    ensures var full := AddrSize(h.inner[1]);
            (Word(mem, 6) == 12 + Word(mem, 16)
             <==> (h.addrLen == 0 || h.addrLen >= full) && (|p| + full) % U16 + 12 < U16)
  {
    IotRecovered(mem, h, p);
    LengthsAgree(|p|, AddrSize(h.inner[1]), AddrUsed(h));
  }

  /** Bluetooth and CAN: the handler sends out exactly the address and the payload that
      were put in if and only if its session is up, the address was given whole, and
      address and payload together stay within the handler's limit. */
  lemma {:induction false} IotForwardedIff(mem: seq<Byte>, h: Header, p: seq<Byte>, ready: set<nat>)
    requires Carries(mem, h, p) && h.kind == IOT && (h.inner[1] == BLUETOOTH || h.inner[1] == CAN)
    ensures var proto, full := h.inner[1], AddrSize(h.inner[1]);
            (Receive(mem, ready) == IotSend(proto, h.addr[..full], 20 + full, |p|)
             <==> proto in ready && (h.addrLen == 0 || h.addrLen >= full)
                  && |p| + full <= if proto == BLUETOOTH then 244 else 64)
    ensures var full := AddrSize(h.inner[1]);
            AddrUsed(h) == full ==> 20 + full + |p| <= |mem| && mem[20 + full..20 + full + |p|] == p
  {
    OuterRecovered(mem, h, p);
    IotRecovered(mem, h, p);
  }

  /** Modbus: the length passed on is never that of the payload; when the address was
      given whole it is eleven bytes too long. */
  lemma {:induction false} ModbusLengthWrong(mem: seq<Byte>, h: Header, p: seq<Byte>, ready: set<nat>)
    requires Carries(mem, h, p) && h.kind == IOT && h.inner[1] == MODBUS
    ensures Receive(mem, ready).IotSend? ==> Receive(mem, ready).len != |p|
    ensures Receive(mem, ready).IotSend? && AddrUsed(h) == 11 && |p| + 11 < U16 ==> Receive(mem, ready).len == |p| + 11
    ensures AddrUsed(h) == 11 && |p| + 32 < U16 ==>
              (Receive(mem, ready).IotSend? <==> MODBUS in ready && |p| + 11 <= 253)
  {
    OuterRecovered(mem, h, p);
    IotRecovered(mem, h, p);
  }
}
